/**
 * The `games` table and the statements `GameModel.ts` issues against it: insert, the filtered search,
 * the dynamic update, lookup by id, the limited listing and delete.
 */
module GameModel {
  import opened Wrappers
  import opened Seqs
  import opened Strings
  import opened JsonLists
  import opened Records
  import opened Sql
  import Updates

  function GameId(g: GameRow): int {
    g.gameId
  }

  /** The test `WHERE game_id = ?`. */
  function HasId(gameId: int): GameRow -> bool {
    (g: GameRow) => g.gameId == gameId
  }

  /** The test of the rows a `DELETE ... WHERE game_id = ?` keeps. */
  function NotId(gameId: int): GameRow -> bool {
    (g: GameRow) => g.gameId != gameId
  }

  /** `JSON.stringify` of a list column value; an absent list gives `undefined`, stored as NULL. */
  function ListColumn(xs: Option<seq<string>>): Option<string> {
    if xs.Some? then Some(EncodeList(xs.value)) else None
  }

  /** Reading a list column back: NULL stays absent, text is decoded. */
  function DecodeColumn(text: Option<string>): Option<seq<string>> {
    if text.Some? then DecodeList(text.value) else None
  }

  /** The row `addGame` inserts under the next auto-increment id. */
  function NewRow(id: int, game: NewGame): GameRow {
    GameRow(id, game.title, game.description, game.genre, ListColumn(game.tags), ListColumn(game.platforms),
            game.playtimeEstimate, game.developer, game.publisher, game.gameMode, game.releaseDate,
            game.reviewRating, game.coverImage)
  }

  /** The stored tags and platforms decode to the lists that were given, in order. */
  lemma StoredListsDecode(id: int, game: NewGame)
    ensures DecodeColumn(NewRow(id, game).tags) == game.tags
    ensures DecodeColumn(NewRow(id, game).platforms) == game.platforms
  {
    if game.tags.Some? {
      DecodeEncode(game.tags.value);
    }
    if game.platforms.Some? {
      DecodeEncode(game.platforms.value);
    }
  }

  // ---------------------------------------------------------------------------------------------
  // findGames

  /** The `%term%` pattern bound for a `LIKE ?`. */
  function Pattern(term: string): string {
    "%" + term + "%"
  }

  /** `column LIKE pattern` for the only pattern shape the search binds: `%` around a plain substring. */
  predicate Like(column: string, pattern: string) {
    |pattern| >= 2 && pattern[0] == '%' && pattern[|pattern| - 1] == '%'
    && Contains(column, pattern[1..|pattern| - 1])
  }

  lemma LikePattern(column: string, term: string)
    ensures Like(column, Pattern(term)) <==> Contains(column, term)
  {
    assert Pattern(term)[1..|Pattern(term)| - 1] == term;
  }

  /** The trimmed pieces of the comma-separated genre filter. */
  function GenreTerms(genres: string): seq<string> {
    TrimEach(Split(genres, ','))
  }

  function Patterns(terms: seq<string>): (ps: seq<string>)
    ensures |ps| == |terms|
  {
    seq(|terms|, i requires 0 <= i < |terms| => Pattern(terms[i]))
  }

  /** A condition the search appends to `WHERE 1=1`, as the database evaluates it. */
  datatype Clause =
    | TitleLike(pattern: string)
    | GenreLikeAny(patterns: seq<string>)
    | RatingAtLeast(min: int)
    | ModeIs(mode: string)

  /** Whether a row meets a condition; a NULL genre is `LIKE` nothing. */
  predicate Holds(c: Clause, g: GameRow) {
    match c
    case TitleLike(p) => Like(g.title, p)
    case GenreLikeAny(ps) => g.genre.Some? && exists i | 0 <= i < |ps| :: Like(g.genre.value, ps[i])
    case RatingAtLeast(m) => g.reviewRating >= m
    case ModeIs(m) => g.gameMode == m
  }

  predicate HoldsAll(cs: seq<Clause>, g: GameRow) {
    forall i | 0 <= i < |cs| :: Holds(cs[i], g)
  }

  /** The rating filter is active for a number other than 0 and `NaN` (`None`). */
  predicate RatingActive(minRating: Option<int>) {
    minRating.Some? && minRating.value != 0
  }

  predicate TitleFilter(g: GameRow, query: string) {
    query != "" ==> Contains(g.title, query)
  }

  predicate GenreFilter(g: GameRow, genres: string) {
    var terms := GenreTerms(genres);
    genres != "" ==> g.genre.Some? && exists i | 0 <= i < |terms| :: Contains(g.genre.value, terms[i])
  }

  predicate RatingFilter(g: GameRow, minRating: Option<int>) {
    RatingActive(minRating) ==> g.reviewRating >= minRating.value
  }

  predicate ModeFilter(g: GameRow, gameMode: string) {
    gameMode != "" ==> g.gameMode == gameMode
  }

  /**
   * The search as promised: every filter whose argument is given holds — the title contains the
   * query, the genre contains one of the trimmed genre terms, the rating reaches the minimum, the
   * mode is the one asked for.
   */
  predicate MatchesSearch(g: GameRow, query: string, genres: string, minRating: Option<int>, gameMode: string) {
    TitleFilter(g, query) && GenreFilter(g, genres) && RatingFilter(g, minRating) && ModeFilter(g, gameMode)
  }

  function Matching(query: string, genres: string, minRating: Option<int>, gameMode: string): GameRow -> bool {
    (g: GameRow) => MatchesSearch(g, query, genres, minRating, gameMode)
  }

  function TitleClauses(query: string): seq<Clause> {
    if query != "" then [TitleLike(Pattern(query))] else []
  }

  function GenreClauses(genres: string): seq<Clause> {
    if genres != "" then [GenreLikeAny(Patterns(GenreTerms(genres)))] else []
  }

  function RatingClauses(minRating: Option<int>): seq<Clause> {
    if RatingActive(minRating) then [RatingAtLeast(minRating.value)] else []
  }

  function ModeClauses(gameMode: string): seq<Clause> {
    if gameMode != "" then [ModeIs(gameMode)] else []
  }

  /** The conditions of the search, in the order the statement lists them. */
  function SearchClauses(query: string, genres: string, minRating: Option<int>, gameMode: string): seq<Clause> {
    TitleClauses(query) + GenreClauses(genres) + RatingClauses(minRating) + ModeClauses(gameMode)
  }

  lemma HoldsAllAppend(a: seq<Clause>, b: seq<Clause>, g: GameRow)
    ensures HoldsAll(a + b, g) <==> HoldsAll(a, g) && HoldsAll(b, g)
  {
    if HoldsAll(a, g) && HoldsAll(b, g) {
      forall i | 0 <= i < |a + b| ensures Holds((a + b)[i], g) {
        if i >= |a| {
          assert (a + b)[i] == b[i - |a|];
        }
      }
    }
    if HoldsAll(a + b, g) {
      forall i | 0 <= i < |a| ensures Holds(a[i], g) {
        assert (a + b)[i] == a[i];
      }
      forall i | 0 <= i < |b| ensures Holds(b[i], g) {
        assert (a + b)[i + |a|] == b[i];
      }
    }
  }

  lemma GenreClausesMeaning(g: GameRow, genres: string)
    ensures HoldsAll(GenreClauses(genres), g) <==> GenreFilter(g, genres)
  {
    if genres != "" {
      var terms := GenreTerms(genres);
      var ps := Patterns(terms);
      var cs := GenreClauses(genres);
      assert |cs| == 1 && cs[0] == GenreLikeAny(ps);
      assert HoldsAll(cs, g) <==> Holds(cs[0], g);
      if g.genre.Some? {
        var col := g.genre.value;
        forall i | 0 <= i < |terms| ensures Like(col, ps[i]) == Contains(col, terms[i]) {
          assert ps[i] == Pattern(terms[i]);
          LikePattern(col, terms[i]);
        }
        assert (exists i | 0 <= i < |ps| :: Like(col, ps[i])) <==> (exists i | 0 <= i < |terms| :: Contains(col, terms[i]));
      }
    }
  }

  lemma TitleClausesMeaning(g: GameRow, query: string)
    ensures HoldsAll(TitleClauses(query), g) <==> TitleFilter(g, query)
  {
    if query != "" {
      var a := TitleClauses(query);
      LikePattern(g.title, query);
      assert HoldsAll(a, g) <==> Holds(a[0], g);
    }
  }

  lemma RatingClausesMeaning(g: GameRow, minRating: Option<int>)
    ensures HoldsAll(RatingClauses(minRating), g) <==> RatingFilter(g, minRating)
  {
    if RatingActive(minRating) {
      var c := RatingClauses(minRating);
      assert HoldsAll(c, g) <==> Holds(c[0], g);
    }
  }

  lemma ModeClausesMeaning(g: GameRow, gameMode: string)
    ensures HoldsAll(ModeClauses(gameMode), g) <==> ModeFilter(g, gameMode)
  {
    if gameMode != "" {
      var d := ModeClauses(gameMode);
      assert HoldsAll(d, g) <==> Holds(d[0], g);
    }
  }

  /** The statement's conditions select exactly the rows the search promises. */
  lemma SearchClausesMeaning(g: GameRow, query: string, genres: string, minRating: Option<int>, gameMode: string)
    ensures HoldsAll(SearchClauses(query, genres, minRating, gameMode), g)
        <==> MatchesSearch(g, query, genres, minRating, gameMode)
  {
    var a, b, c, d := TitleClauses(query), GenreClauses(genres), RatingClauses(minRating), ModeClauses(gameMode);
    HoldsAllAppend(a, b, g);
    HoldsAllAppend(a + b, c, g);
    HoldsAllAppend(a + b + c, d, g);
    TitleClausesMeaning(g, query);
    GenreClausesMeaning(g, genres);
    RatingClausesMeaning(g, minRating);
    ModeClausesMeaning(g, gameMode);
  }

  function SatisfiesAll(cs: seq<Clause>): GameRow -> bool {
    (g: GameRow) => HoldsAll(cs, g)
  }

  /** Filtering a table by the statement's conditions keeps the rows the search promises. */
  lemma SearchFilterMeaning(rows: seq<GameRow>, query: string, genres: string, minRating: Option<int>, gameMode: string)
    ensures Filter(rows, SatisfiesAll(SearchClauses(query, genres, minRating, gameMode)))
         == Filter(rows, Matching(query, genres, minRating, gameMode))
  {
    var clauses := SearchClauses(query, genres, minRating, gameMode);
    forall i | 0 <= i < |rows|
      ensures SatisfiesAll(clauses)(rows[i]) == Matching(query, genres, minRating, gameMode)(rows[i])
    {
      SearchClausesMeaning(rows[i], query, genres, minRating, gameMode);
    }
    FilterSamePredicate(rows, SatisfiesAll(clauses), Matching(query, genres, minRating, gameMode));
  }

  /** ` AND (genre LIKE ? OR ... OR genre LIKE ?)` with one `LIKE ?` per term. */
  function GenreLikes(n: nat): (sql: seq<Token>)
    ensures Params(sql) == n
  {
    var likes := seq(n, _ => Bound("genre LIKE "));
    JoinParams(likes, Literal(" OR "));
    ParamsAppend(Literal(" AND ("), JoinTokens(likes, Literal(" OR ")));
    ParamsAppend(Literal(" AND (") + JoinTokens(likes, Literal(" OR ")), Literal(")"));
    Literal(" AND (") + JoinTokens(likes, Literal(" OR ")) + Literal(")")
  }

  function TextValues(texts: seq<string>): (vs: seq<SqlValue>)
    ensures |vs| == |texts|
  {
    seq(|texts|, i requires 0 <= i < |texts| => SqlText(texts[i]))
  }

  /** The values a condition binds to its placeholders: one pattern per `LIKE ?`, the rating, the mode. */
  function BoundValues(c: Clause): seq<SqlValue> {
    match c
    case TitleLike(p) => [SqlText(p)]
    case GenreLikeAny(ps) => TextValues(ps)
    case RatingAtLeast(m) => [SqlInt(m)]
    case ModeIs(m) => [SqlText(m)]
  }

  /** The values of a list of conditions, condition by condition. */
  function ClauseValues(cs: seq<Clause>): seq<SqlValue>
    decreases |cs|
  {
    if cs == [] then [] else BoundValues(cs[0]) + ClauseValues(cs[1..])
  }

  lemma {:induction false} ClauseValuesAppend(a: seq<Clause>, b: seq<Clause>)
    ensures ClauseValues(a + b) == ClauseValues(a) + ClauseValues(b)
    decreases |a|
  {
    if a == [] {
      assert a + b == b;
    } else {
      var head, rest := BoundValues(a[0]), a[1..];
      assert (a + b)[0] == a[0] && (a + b)[1..] == rest + b;
      ClauseValuesAppend(rest, b);
      assert ClauseValues(a + b) == head + (ClauseValues(rest) + ClauseValues(b));
    }
  }

  /** The values of at most one condition. */
  lemma ClauseValuesShort(cs: seq<Clause>)
    requires |cs| <= 1
    ensures ClauseValues(cs) == if cs == [] then [] else BoundValues(cs[0])
  {
    if cs != [] {
      assert cs[1..] == [];
    }
  }

  /** The values the search binds: the title pattern, the genre patterns, the rating, the mode, each when active. */
  lemma SearchValues(query: string, genres: string, minRating: Option<int>, gameMode: string)
    ensures ClauseValues(SearchClauses(query, genres, minRating, gameMode))
         == (if query != "" then [SqlText(Pattern(query))] else [])
          + (if genres != "" then TextValues(Patterns(GenreTerms(genres))) else [])
          + (if RatingActive(minRating) then [SqlInt(minRating.value)] else [])
          + (if gameMode != "" then [SqlText(gameMode)] else [])
  {
    var a, b, c, d := TitleClauses(query), GenreClauses(genres), RatingClauses(minRating), ModeClauses(gameMode);
    ClauseValuesShort(a);
    ClauseValuesShort(b);
    ClauseValuesShort(c);
    ClauseValuesShort(d);
    ClauseValuesAppend(a, b);
    ClauseValuesAppend(a + b, c);
    ClauseValuesAppend(a + b + c, d);
  }

  /** Values collected filter by filter, each step adding the active filter's values, are the search's values. */
  lemma SearchValuesSteps(query: string, genres: string, minRating: Option<int>, gameMode: string,
                          v1: seq<SqlValue>, v2: seq<SqlValue>, v3: seq<SqlValue>, v4: seq<SqlValue>)
    requires v1 == if query != "" then [SqlText(Pattern(query))] else []
    requires v2 == v1 + if genres != "" then TextValues(Patterns(GenreTerms(genres))) else []
    requires v3 == v2 + if RatingActive(minRating) then [SqlInt(minRating.value)] else []
    requires v4 == v3 + if gameMode != "" then [SqlText(gameMode)] else []
    ensures v4 == ClauseValues(SearchClauses(query, genres, minRating, gameMode))
    ensures |v4| == (if query != "" then 1 else 0) + (if genres != "" then |GenreTerms(genres)| else 0)
                    + (if RatingActive(minRating) then 1 else 0) + (if gameMode != "" then 1 else 0)
  {
    SearchValues(query, genres, minRating, gameMode);
  }

  /**
   * Builds the search statement as `findGames` does: `WHERE 1=1` and one ` AND ...` per active
   * filter, the genre filter an `OR` of one `LIKE ?` per term. The values are those of the
   * conditions the statement stands for, in their order, one placeholder each.
   */
  method BuildSearch(query: string, genres: string, minRating: Option<int>, gameMode: string)
    returns (sql: seq<Token>, values: seq<SqlValue>)
    ensures values == ClauseValues(SearchClauses(query, genres, minRating, gameMode))
    ensures Params(sql) == |values|
    ensures |values| == (if query != "" then 1 else 0) + (if genres != "" then |GenreTerms(genres)| else 0)
                        + (if RatingActive(minRating) then 1 else 0) + (if gameMode != "" then 1 else 0)
  {
    sql := Literal("SELECT * FROM games WHERE 1=1");
    values := [];
    if query != "" {
      sql, values := AddFilter(sql, values, Bound(" AND title LIKE "), [SqlText(Pattern(query))]);
    }
    ghost var v1 := values;
    assert Params(sql) == |values|;
    if genres != "" {
      var genreList := GenreTerms(genres);
      var likes := GenreLikes(|genreList|);
      sql, values := AddFilter(sql, values, likes, TextValues(Patterns(genreList)));
    }
    ghost var v2 := values;
    assert Params(sql) == |values|;
    if RatingActive(minRating) {
      sql, values := AddFilter(sql, values, Bound(" AND review_rating >= "), [SqlInt(minRating.value)]);
    }
    ghost var v3 := values;
    assert Params(sql) == |values|;
    if gameMode != "" {
      sql, values := AddFilter(sql, values, Bound(" AND game_mode = "), [SqlText(gameMode)]);
    }
    SearchValuesSteps(query, genres, minRating, gameMode, v1, v2, v3, values);
  }

  /** `sql += clause; values.push(...bound)`: as many new values as new placeholders. */
  method AddFilter(sql: seq<Token>, values: seq<SqlValue>, clause: seq<Token>, bound: seq<SqlValue>)
    returns (sql': seq<Token>, values': seq<SqlValue>)
    requires Params(clause) == |bound|
    ensures values' == values + bound
    ensures Params(sql') - |values'| == Params(sql) - |values|
  {
    ParamsAppend(sql, clause);
    sql' := sql + clause;
    values' := values + bound;
  }

  /** With no filter given, the search matches every row. */
  lemma DefaultSearchKeepsAll(rows: seq<GameRow>)
    ensures Filter(rows, Matching("", "", None, "")) == rows
  {
    FilterKeepsAll(rows, Matching("", "", None, ""));
  }

  /** The last piece of a split of a string ending in the separator is empty. */
  lemma {:induction false} SplitEndingInSeparator(s: string, sep: char)
    requires s != [] && s[|s| - 1] == sep
    ensures var r := Split(s, sep); r[|r| - 1] == ""
    decreases |s|
  {
    if |s| > 1 {
      SplitEndingInSeparator(s[1..], sep);
      assert s[1..][|s[1..]| - 1] == sep;
      assert s[1..] == s[1..|s| - 1] + [sep];
      SplitPieces(s[1..], sep);
    }
  }

  /**
   * A genre filter ending in a comma has an empty last term, which every genre contains: it then
   * lets through every row whose genre is not NULL.
   */
  lemma TrailingCommaMatchesAnyGenre(g: GameRow, genres: string)
    requires genres != [] && genres[|genres| - 1] == ','
    requires g.genre.Some?
    ensures MatchesSearch(g, "", genres, None, "")
  {
    var terms := GenreTerms(genres);
    var last := |terms| - 1;
    assert 0 <= last && terms[last] == "" by {
      LastGenreTermEmpty(genres);
    }
    assert Contains(g.genre.value, terms[last]) by {
      ContainsEmpty(g.genre.value);
    }
  }

  /** The genre terms of a filter ending in a comma end with the empty term. */
  lemma LastGenreTermEmpty(genres: string)
    requires genres != [] && genres[|genres| - 1] == ','
    ensures var terms := GenreTerms(genres); |terms| >= 1 && terms[|terms| - 1] == ""
  {
    var pieces := Split(genres, ',');
    assert pieces[|pieces| - 1] == "" by {
      SplitEndingInSeparator(genres, ',');
    }
    TrimEachEmptyLast(pieces);
  }

  // ---------------------------------------------------------------------------------------------
  // updateGame

  /** The columns of `games`, and the name of a key that is none of them. */
  datatype Column =
    | GameIdColumn | TitleColumn | DescriptionColumn | GenreColumn | TagsColumn | PlatformsColumn
    | PlaytimeColumn | DeveloperColumn | PublisherColumn | GameModeColumn | ReleaseDateColumn
    | ReviewRatingColumn | CoverImageColumn
    | UnknownColumn(name: string)

  function ColumnText(c: Column): string {
    match c
    case GameIdColumn => "game_id"
    case TitleColumn => "title"
    case DescriptionColumn => "description"
    case GenreColumn => "genre"
    case TagsColumn => "tags"
    case PlatformsColumn => "platforms"
    case PlaytimeColumn => "playtime_estimate"
    case DeveloperColumn => "developer"
    case PublisherColumn => "publisher"
    case GameModeColumn => "game_mode"
    case ReleaseDateColumn => "release_date"
    case ReviewRatingColumn => "review_rating"
    case CoverImageColumn => "cover_image"
    case UnknownColumn(name) => name
  }

  function OptionalText(x: Option<string>): SqlValue {
    if x.Some? then SqlText(x.value) else SqlNull
  }

  /** A column of a row, as the database holds it; a column the table lacks holds nothing. */
  function Read(g: GameRow, c: Column): SqlValue {
    match c
    case GameIdColumn => SqlInt(g.gameId)
    case TitleColumn => SqlText(g.title)
    case DescriptionColumn => SqlText(g.description)
    case GenreColumn => OptionalText(g.genre)
    case TagsColumn => OptionalText(g.tags)
    case PlatformsColumn => OptionalText(g.platforms)
    case PlaytimeColumn => SqlInt(g.playtimeEstimate)
    case DeveloperColumn => SqlText(g.developer)
    case PublisherColumn => SqlText(g.publisher)
    case GameModeColumn => SqlText(g.gameMode)
    case ReleaseDateColumn => OptionalText(g.releaseDate)
    case ReviewRatingColumn => SqlInt(g.reviewRating)
    case CoverImageColumn => OptionalText(g.coverImage)
    case UnknownColumn(_) => SqlNull
  }

  /** The column an update entry names; `game_id` is never one of them. */
  function ColumnOf(u: GameField): (c: Column)
    ensures c != GameIdColumn
    ensures c.UnknownColumn? <==> u.UnknownGameKey?
  {
    match u
    case SetTitle(_) => TitleColumn
    case SetDescription(_) => DescriptionColumn
    case SetGenre(_) => GenreColumn
    case SetTags(_) => TagsColumn
    case SetPlatforms(_) => PlatformsColumn
    case SetPlaytimeEstimate(_) => PlaytimeColumn
    case SetDeveloper(_) => DeveloperColumn
    case SetPublisher(_) => PublisherColumn
    case SetGameMode(_) => GameModeColumn
    case SetReleaseDate(_) => ReleaseDateColumn
    case SetReviewRating(_) => ReviewRatingColumn
    case SetCoverImage(_) => CoverImageColumn
    case UnknownGameKey(key) => UnknownColumn(key)
  }

  /**
   * The name an entry writes before its `= ?` is a column of `games` exactly when the entry is a
   * known field, and no entry names `game_id`, in any letter case.
   */
  lemma EntryColumnName(u: GameField)
    ensures ColumnText(ColumnOf(u)) in GameColumns <==> !u.UnknownGameKey?
    ensures ToLower(ColumnText(ColumnOf(u))) != "game_id"
  {
    GameColumnsLower();
  }

  /**
   * The value bound for an update entry: tags and platforms JSON-encoded, everything else as given.
   * An unknown key's value is never stored, so it is not modelled.
   */
  function FieldValue(u: GameField): SqlValue {
    match u
    case SetTitle(t) => SqlText(t)
    case SetDescription(d) => SqlText(d)
    case SetGenre(g) => OptionalText(g)
    case SetTags(ts) => SqlText(EncodeList(ts))
    case SetPlatforms(ps) => SqlText(EncodeList(ps))
    case SetPlaytimeEstimate(n) => SqlInt(n)
    case SetDeveloper(d) => SqlText(d)
    case SetPublisher(p) => SqlText(p)
    case SetGameMode(m) => SqlText(m)
    case SetReleaseDate(r) => OptionalText(r)
    case SetReviewRating(r) => SqlInt(r)
    case SetCoverImage(c) => OptionalText(c)
    case UnknownGameKey(_) => SqlNull
  }

  lemma ListFieldValue(u: GameField)
    requires u.SetTags? || u.SetPlatforms?
    ensures FieldValue(u) == SqlText(EncodeList(if u.SetTags? then u.tags else u.platforms))
  {
  }

  /** The effect of one `column = ?` assignment: that column takes the bound value, no other changes. */
  function Apply(g: GameRow, u: GameField): (r: GameRow)
    ensures Read(r, ColumnOf(u)) == FieldValue(u)
  {
    match u
    case SetTitle(t) => g.(title := t)
    case SetDescription(d) => g.(description := d)
    case SetGenre(x) => g.(genre := x)
    case SetTags(ts) => g.(tags := Some(EncodeList(ts)))
    case SetPlatforms(ps) => g.(platforms := Some(EncodeList(ps)))
    case SetPlaytimeEstimate(n) => g.(playtimeEstimate := n)
    case SetDeveloper(d) => g.(developer := d)
    case SetPublisher(p) => g.(publisher := p)
    case SetGameMode(m) => g.(gameMode := m)
    case SetReleaseDate(x) => g.(releaseDate := x)
    case SetReviewRating(n) => g.(reviewRating := n)
    case SetCoverImage(x) => g.(coverImage := x)
    case UnknownGameKey(_) => g
  }

  /** An assignment leaves every other column as it was. */
  lemma ApplyFrame(g: GameRow, u: GameField, c: Column)
    requires c != ColumnOf(u)
    ensures Read(Apply(g, u), c) == Read(g, c)
  {
    match c
    case GameIdColumn =>
    case TitleColumn =>
    case DescriptionColumn =>
    case GenreColumn =>
    case TagsColumn =>
    case PlatformsColumn =>
    case PlaytimeColumn =>
    case DeveloperColumn =>
    case PublisherColumn =>
    case GameModeColumn =>
    case ReleaseDateColumn =>
    case ReviewRatingColumn =>
    case CoverImageColumn =>
    case UnknownColumn(_) =>
  }

  /** The assignments of a `SET` list, left to right. */
  function ApplyAll(g: GameRow, us: seq<GameField>): GameRow {
    Updates.ApplyAll(g, us, Apply)
  }

  function Updater(us: seq<GameField>): GameRow -> GameRow {
    (g: GameRow) => ApplyAll(g, us)
  }

  /** The value the last entry naming column `c` binds, if any entry names it. */
  function LastWrite(us: seq<GameField>, c: Column): Option<SqlValue> {
    Updates.LastWrite(us, ColumnOf, FieldValue, c)
  }

  /** After the `SET` list, each column holds its last written value, or what it held before. */
  lemma ApplyAllColumns(g: GameRow, us: seq<GameField>, c: Column)
    ensures Read(ApplyAll(g, us), c) == LastWrite(us, c).GetOr(Read(g, c))
  {
    forall x: GameRow, u: GameField, d: Column | d != ColumnOf(u)
      ensures Read(Apply(x, u), d) == Read(x, d)
    {
      ApplyFrame(x, u, d);
    }
    Updates.ApplyAllColumns(g, us, Apply, Read, ColumnOf, FieldValue, c);
  }

  /** The entries name columns of `games` only, so the statement can run. */
  predicate KnownKeys(us: seq<GameField>) {
    forall k | 0 <= k < |us| :: !us[k].UnknownGameKey?
  }

  /** `ApplyAll` never touches the primary key. */
  lemma ApplyAllKeepsId(g: GameRow, us: seq<GameField>)
    ensures ApplyAll(g, us).gameId == g.gameId
  {
    ApplyAllColumns(g, us, GameIdColumn);
    Updates.LastWriteNone(us, ColumnOf, FieldValue, GameIdColumn);
  }

  /**
   * Builds the statement of `updateGame`: one `key = ?` per entry in order, the values the entries'
   * (lists JSON-encoded), and the id appended last for `WHERE game_id = ?`.
   */
  method BuildUpdate(gameId: int, updates: seq<GameField>) returns (sql: seq<Token>, values: seq<SqlValue>)
    ensures sql == Literal("UPDATE games SET ") + JoinTokens(Assignments(Map(updates, ColumnOf), ColumnText), Literal(", "))
                   + Bound(" WHERE game_id = ")
    ensures |values| == |updates| + 1 && values[|updates|] == SqlInt(gameId)
    ensures forall k :: 0 <= k < |updates| ==> values[k] == FieldValue(updates[k])
    ensures Params(sql) == |values|
  {
    var keys;
    keys, values := BuildSetList(updates);
    values := values + [SqlInt(gameId)];
    assert keys == Map(updates, ColumnOf);
    var fields := Assignments(keys, ColumnText);
    UpdateParams("UPDATE games SET ", fields, " WHERE game_id = ");
    sql := Literal("UPDATE games SET ") + JoinTokens(fields, Literal(", ")) + Bound(" WHERE game_id = ");
  }

  /** The loop of `updateGame`: the key and the bound value of every entry, in order. */
  method BuildSetList(updates: seq<GameField>) returns (keys: seq<Column>, values: seq<SqlValue>)
    ensures |keys| == |updates| && forall k :: 0 <= k < |updates| ==> keys[k] == ColumnOf(updates[k])
    ensures |values| == |updates| && forall k :: 0 <= k < |updates| ==> values[k] == FieldValue(updates[k])
  {
    keys := [];
    values := [];
    for i := 0 to |updates|
      invariant keys == Map(updates[..i], ColumnOf)
      invariant values == Map(updates[..i], FieldValue)
    {
      var u := updates[i];
      assert updates[..i + 1] == updates[..i] + [u];
      MapAppend(updates[..i], u, ColumnOf);
      MapAppend(updates[..i], u, FieldValue);
      keys := keys + [ColumnOf(u)];
      if u.SetTags? || u.SetPlatforms? {
        ListFieldValue(u);
        values := values + [SqlText(EncodeList(if u.SetTags? then u.tags else u.platforms))];
      } else {
        values := values + [FieldValue(u)];
      }
    }
    assert updates[..|updates|] == updates;
  }

  /**
   * The rows after an update: the row with that id has each given column set to its last value and
   * every other column as before; every other row is unchanged.
   */
  lemma UpdatedRows(rows: seq<GameRow>, gameId: int, updates: seq<GameField>, i: int, c: Column)
    requires 0 <= i < |rows|
    ensures var r := UpdateWhere(rows, HasId(gameId), Updater(updates));
            && |r| == |rows|
            && (rows[i].gameId != gameId ==> r[i] == rows[i])
            && (rows[i].gameId == gameId ==> Read(r[i], c) == LastWrite(updates, c).GetOr(Read(rows[i], c)))
  {
    ApplyAllColumns(rows[i], updates, c);
  }

  /** The `games` table, rows in primary-key order, and its auto-increment counter. */
  class GameTable {
    var rows: seq<GameRow>
    var nextId: int

    ghost predicate Valid()
      reads this
    {
      && nextId >= 1
      && Increasing(rows, GameId)
      && forall i :: 0 <= i < |rows| ==> 1 <= GameId(rows[i]) < nextId
    }

    constructor ()
      ensures Valid() && rows == [] && nextId == 1
    {
      rows := [];
      nextId := 1;
    }

    /** `addGame`: one row appended under a fresh id, lists JSON-encoded. */
    method AddGame(game: NewGame)
      requires Valid()
      modifies this
      ensures Valid()
      ensures rows == old(rows) + [NewRow(old(nextId), game)] && nextId == old(nextId) + 1
    {
      rows := rows + [NewRow(nextId, game)];
      nextId := nextId + 1;
    }

    /** `findGames`: the rows, in table order, that meet every active filter. */
    method FindGames(query: string, genres: string, minRating: Option<int>, gameMode: string)
      returns (found: seq<GameRow>)
      ensures found == Filter(rows, Matching(query, genres, minRating, gameMode))
      ensures forall i :: 0 <= i < |found| ==> found[i] in rows && MatchesSearch(found[i], query, genres, minRating, gameMode)
      ensures forall i :: 0 <= i < |rows| && MatchesSearch(rows[i], query, genres, minRating, gameMode) ==> rows[i] in found
    {
      var sql, values := BuildSearch(query, genres, minRating, gameMode);
      found := Filter(rows, SatisfiesAll(SearchClauses(query, genres, minRating, gameMode)));
      SearchFilterMeaning(rows, query, genres, minRating, gameMode);
    }

    /**
     * `updateGame`: an empty entry list makes an invalid statement, and so does a key that is no
     * column; a rejected statement changes nothing.
     */
    method UpdateGame(gameId: int, updates: seq<GameField>) returns (accepted: bool)
      requires Valid()
      modifies this
      ensures Valid()
      ensures accepted <==> updates != [] && KnownKeys(updates)
      ensures rows == if accepted then UpdateWhere(old(rows), HasId(gameId), Updater(updates)) else old(rows)
      ensures nextId == old(nextId)
    {
      var sql, values := BuildUpdate(gameId, updates);
      accepted := updates != [] && KnownKeys(updates);
      if accepted {
        var updated := UpdateWhere(rows, HasId(gameId), Updater(updates));
        forall i | 0 <= i < |rows| ensures updated[i].gameId == rows[i].gameId {
          ApplyAllKeepsId(rows[i], updates);
        }
        rows := updated;
      }
    }

    /** `getGameById`: the row with that id, or nothing when there is none. */
    function GetGameById(gameId: int): (r: Option<GameRow>)
      reads this
      ensures r.Some? ==> r.value in rows && r.value.gameId == gameId
      ensures r.None? <==> forall i :: 0 <= i < |rows| ==> rows[i].gameId != gameId
    {
      First(rows, HasId(gameId))
    }

    /** Ids are unique, so a lookup finds the one row that has the id. */
    lemma GetGameByIdFindsRow(i: int)
      requires Valid() && 0 <= i < |rows|
      ensures GetGameById(rows[i].gameId) == Some(rows[i])
    {
      FirstOfUnique(rows, GameId, HasId(rows[i].gameId), i);
    }

    /** `getAllGames`: the first `limit` rows in table order, or all of them when there are fewer. */
    function GetAllGames(limit: nat): (r: seq<GameRow>)
      reads this
      ensures |r| <= limit && |r| <= |rows|
      ensures |r| == limit || |r| == |rows|
      ensures forall i :: 0 <= i < |r| ==> r[i] == rows[i]
    {
      if limit < |rows| then rows[..limit] else rows
    }

    /** `deleteGame`: every row with that id is removed; the others stay, in order. */
    method DeleteGame(gameId: int)
      requires Valid()
      modifies this
      ensures Valid()
      ensures rows == Filter(old(rows), NotId(gameId)) && nextId == old(nextId)
    {
      FilterKeepsIncreasing(rows, NotId(gameId), GameId);
      rows := Filter(rows, NotId(gameId));
    }
  }

  /** A delete removes the id and keeps every other row; deleting again changes nothing. */
  lemma DeleteGameEffect(rows: seq<GameRow>, gameId: int)
    ensures var r := Filter(rows, NotId(gameId));
            && (forall i :: 0 <= i < |r| ==> r[i].gameId != gameId)
            && (forall i :: 0 <= i < |rows| && rows[i].gameId != gameId ==> rows[i] in r)
            && Filter(r, NotId(gameId)) == r
  {
    FilterIdempotent(rows, NotId(gameId));
  }
}
