/**
 * The import side of `rawg.ts`: the HTML stripper, the mapping of one RAWG record to a `games`
 * row, and the loop of `addNewGamesToDatabase` that skips bad and already stored titles and then
 * inserts the rest in one statement.
 */
module Rawg {
  import opened Wrappers
  import opened Strings
  import opened JsonLists
  import opened Seqs
  import opened Records
  import opened GameModel

  // ---------------------------------------------------------------------------------------------
  // stripHtmlTags

  /** What follows a `<` that starts a tag: everything through the next `>`, or all of it, is dropped. */
  function AfterTag(t: string): (rest: string)
    ensures |rest| <= |t|
    ensures t != [] ==> |rest| < |t|
    decreases |t|
  {
    if t == [] then []
    else if t[0] == '>' then t[1..]
    else AfterTag(t[1..])
  }

  /**
   * `str.replace(/<\/?[^>]+(>|$)/g, '')`: a `<` followed by at least one character other than `>`
   * starts a match that runs through the next `>` or to the end of the text; `<>` and a final `<`
   * are kept.
   */
  function StripTags(s: string): (r: string)
    ensures |r| <= |s|
    decreases |s|
  {
    if s == [] then []
    else if s[0] == '<' && |s| >= 2 && s[1] != '>' then StripTags(AfterTag(s[1..]))
    else [s[0]] + StripTags(s[1..])
  }

  /** `stripHtmlTags`: null and the empty string give the empty string. */
  function StripHtmlTags(str: Option<string>): (r: string)
    ensures str.None? || str.value == [] ==> r == []
    ensures str.Some? ==> |r| <= |str.value|
  {
    if str.None? || str.value == [] then "" else StripTags(str.value)
  }

  /** Text without `<` passes through unchanged. */
  lemma {:induction false} StripTagsNoTag(s: string)
    requires '<' !in s
    ensures StripTags(s) == s
    decreases |s|
  {
    if s != [] {
      assert '<' !in s[1..] by {
        assert forall i :: 0 <= i < |s| - 1 ==> s[1..][i] == s[i + 1];
      }
      StripTagsNoTag(s[1..]);
    }
  }

  /** Text without `<` in front of the rest is kept as it is. */
  lemma {:induction false} StripTagsPlainPrefix(a: string, b: string)
    requires '<' !in a
    ensures StripTags(a + b) == a + StripTags(b)
    decreases |a|
  {
    if a == [] {
      assert a + b == b;
    } else {
      assert (a + b)[1..] == a[1..] + b;
      assert '<' !in a[1..] by {
        assert forall i :: 0 <= i < |a| - 1 ==> a[1..][i] == a[i + 1];
      }
      StripTagsPlainPrefix(a[1..], b);
      assert a[0] in a;
      assert (a + b)[0] == a[0] && a[0] != '<';
      calc {
        StripTags(a + b);
        [a[0]] + StripTags(a[1..] + b);
        [a[0]] + (a[1..] + StripTags(b));
        { assert a == [a[0]] + a[1..]; }
        a + StripTags(b);
      }
    }
  }

  /** `AfterTag` skips a tag body without `>` and the `>` that closes it. */
  lemma {:induction false} AfterTagBody(t: string, b: string)
    requires '>' !in t
    ensures AfterTag(t + ">" + b) == b
    ensures AfterTag(t) == []
    decreases |t|
  {
    if t != [] {
      assert (t + ">" + b)[1..] == t[1..] + ">" + b;
      assert '>' !in t[1..] by {
        assert forall i :: 0 <= i < |t| - 1 ==> t[1..][i] == t[i + 1];
      }
      AfterTagBody(t[1..], b);
    }
  }

  /**
   * A tag `<t>` with a non-empty body free of `>` (such as `p`, `/b` or `a href="x"`) is removed
   * with its brackets; an unclosed `<t` at the end removes the rest of the text.
   */
  lemma StripTagsRemovesTag(t: string, b: string)
    requires t != [] && '>' !in t
    ensures StripTags("<" + t + ">" + b) == StripTags(b)
    ensures StripTags("<" + t) == []
  {
    AfterTagBody(t, b);
    assert ("<" + t + ">" + b)[1..] == t + ">" + b;
    assert ("<" + t)[1..] == t;
  }

  /** `<>` is not a tag: both characters are kept. */
  lemma StripTagsKeepsEmptyBrackets(b: string)
    ensures StripTags("<>" + b) == "<>" + StripTags(b)
  {
    assert ("<>" + b)[1..] == ">" + b;
    assert (">" + b)[1..] == b;
  }

  /** No `<` in the text is followed by a character other than `>`: nothing left looks like a tag. */
  predicate NoTagStart(s: string) {
    forall i :: 0 <= i < |s| - 1 && s[i] == '<' ==> s[i + 1] == '>'
  }

  /** The result of stripping has no tag start left. */
  lemma {:induction false} StripTagsClean(s: string)
    ensures NoTagStart(StripTags(s))
    decreases |s|
  {
    if s == [] {
    } else if s[0] == '<' && |s| >= 2 && s[1] != '>' {
      StripTagsClean(AfterTag(s[1..]));
    } else {
      var tail := StripTags(s[1..]);
      StripTagsClean(s[1..]);
      var r := [s[0]] + tail;
      forall i | 0 <= i < |r| - 1 && r[i] == '<'
        ensures r[i + 1] == '>'
      {
        if i == 0 {
          // A `<` kept in front is followed by `>`, which stripping keeps as the tail's first character.
          assert s[1..][0] == '>';
        } else {
          assert r[i] == tail[i - 1] && r[i + 1] == tail[i];
        }
      }
    }
  }

  /** Stripping is idempotent: what it leaves has no tags. */
  lemma {:induction false} StripTagsOfClean(s: string)
    requires NoTagStart(s)
    ensures StripTags(s) == s
    decreases |s|
  {
    if s != [] {
      assert NoTagStart(s[1..]) by {
        forall i | 0 <= i < |s[1..]| - 1 && s[1..][i] == '<'
          ensures s[1..][i + 1] == '>'
        {
          assert s[i + 1] == '<';
        }
      }
      StripTagsOfClean(s[1..]);
      assert s == [s[0]] + s[1..];
    }
  }

  lemma StripTagsIdempotent(s: string)
    ensures StripTags(StripTags(s)) == StripTags(s)
  {
    StripTagsClean(s);
    StripTagsOfClean(StripTags(s));
  }

  // ---------------------------------------------------------------------------------------------
  // One RAWG record

  /**
   * An element of the array handed to `addNewGamesToDatabase`: something that is not an object,
   * or a record with the fields the import reads (lists as the names the `map` calls extract).
   */
  datatype RawgEntry =
    | NotAnObject
    | RawgGame(
        name: Option<string>,
        description: Option<string>,
        genres: Option<seq<string>>,
        tags: Option<seq<string>>,
        platforms: Option<seq<string>>,
        playtime: Option<int>,
        developers: Option<seq<string>>,
        publishers: Option<seq<string>>,
        released: Option<string>,
        rating: Option<real>,
        backgroundImage: Option<string>)

  /** `Math.round`: halves round up. */
  function Round(x: real): (n: int)
    ensures n as real - 0.5 <= x < n as real + 0.5
  {
    (x + 0.5).Floor
  }

  /** `Math.min(Math.max(Math.round(rating || 0), 1), 10)`. */
  function ReviewRating(rating: Option<real>): (r: int)
    ensures 1 <= r <= 10
    ensures var n := Round(rating.GetOr(0.0)); 1 <= n <= 10 ==> r == n
    ensures var n := Round(rating.GetOr(0.0)); (n < 1 ==> r == 1) && (n > 10 ==> r == 10)
  {
    var n := Round(rating.GetOr(0.0));
    var atLeastOne := if n > 1 then n else 1;
    if atLeastOne < 10 then atLeastOne else 10
  }

  /** A record without a rating, or rated 0, is stored with rating 1. */
  lemma MissingRatingIsOne()
    ensures ReviewRating(None) == 1 && ReviewRating(Some(0.0)) == 1
  {
  }

  /** The game mode read off the lower-cased JSON text of the platform names. */
  function GameMode(platformsText: string): (mode: string)
    ensures Contains(ToLower(platformsText), "multiplayer") ==> mode == "multiplayer"
    ensures !Contains(ToLower(platformsText), "multiplayer") && Contains(ToLower(platformsText), "both") ==> mode == "both"
    ensures !Contains(ToLower(platformsText), "multiplayer") && !Contains(ToLower(platformsText), "both") ==> mode == "single-player"
  {
    var lower := ToLower(platformsText);
    if Contains(lower, "multiplayer") then "multiplayer"
    else if Contains(lower, "both") then "both"
    else "single-player"
  }

  /** The genre names joined by `, `; an absent list or an empty join is NULL. */
  function GenreOf(genres: Option<seq<string>>): (genre: Option<string>)
    ensures genre.None? <==> Join(genres.GetOr([]), ", ") == ""
    ensures genre.Some? ==> genre.value == Join(genres.value, ", ")
  {
    var joined := Join(genres.GetOr([]), ", ");
    if joined == "" then None else Some(joined)
  }

  /** The first developer or publisher name, or `Unknown` when the list is absent or empty. */
  function FirstOr(names: Option<seq<string>>): (name: string)
    ensures names.Some? && names.value != [] ==> name == names.value[0]
    ensures names.None? || names.value == [] ==> name == "Unknown"
  {
    if names.Some? && |names.value| > 0 then names.value[0] else "Unknown"
  }

  /** A record is imported at all only if it is an object with a non-empty name. */
  predicate Importable(e: RawgEntry) {
    e.RawgGame? && e.name.Some? && e.name.value != ""
  }

  /** The row values `addNewGamesToDatabase` builds for an importable record. */
  function ToGame(e: RawgEntry): (g: NewGame)
    requires Importable(e)
    ensures g.title == e.name.value && g.title != ""
    ensures 1 <= g.reviewRating <= 10
    ensures g.tags == Some(e.tags.GetOr([])) && g.platforms == Some(e.platforms.GetOr([]))
  {
    var platformNames := e.platforms.GetOr([]);
    NewGame(
      e.name.value,
      StripHtmlTags(e.description),
      GenreOf(e.genres),
      Some(e.tags.GetOr([])),
      Some(platformNames),
      e.playtime.GetOr(0),
      FirstOr(e.developers),
      FirstOr(e.publishers),
      GameMode(EncodeList(platformNames)),
      e.released,
      ReviewRating(e.rating),
      e.backgroundImage)
  }

  /** Each quoted item appears in the encoded item list. */
  lemma {:induction false} EncodeItemsContainsQuoted(xs: seq<string>, k: int)
    requires 0 <= k < |xs|
    ensures Contains(EncodeItems(xs), Quote(xs[k]))
    decreases |xs|
  {
    var head := Quote(xs[0]);
    if |xs| == 1 {
      ContainsPrefix(head, "]");
    } else if k == 0 {
      ContainsPrefix(head, "," + EncodeItems(xs[1..]));
    } else {
      var rest := EncodeItems(xs[1..]);
      EncodeItemsContainsQuoted(xs[1..], k - 1);
      assert xs[1..][k - 1] == xs[k];
      ContainsInSuffix(",", rest, Quote(xs[k]));
      ContainsInSuffix(head, "," + rest, Quote(xs[k]));
    }
  }

  /** A needle found in the lower-cased text of a part is found in the lower-cased whole. */
  lemma LowerContainsThrough(text: string, part: string, needle: string)
    requires Contains(text, part) && Contains(ToLower(part), needle)
    ensures Contains(ToLower(text), needle)
  {
    var i :| 0 <= i <= |text| && OccursAt(text, part, i);
    var j :| 0 <= j <= |part| && OccursAt(ToLower(part), needle, j);
    var lower := ToLower(text);
    forall m | 0 <= m < |needle|
      ensures lower[i + j + m] == needle[m]
    {
      calc {
        lower[i + j + m];
        LowerChar(text[i + j + m]);
        { assert text[i..i + |part|][j + m] == part[j + m]; }
        LowerChar(part[j + m]);
        ToLower(part)[j..j + |needle|][m];
      }
    }
    assert lower[i + j..i + j + |needle|] == needle;
    assert OccursAt(lower, needle, i + j);
  }

  /** A platform name mentioning multiplayer in any letter case makes the game multiplayer. */
  lemma MultiplayerPlatform(e: RawgEntry, k: int)
    requires Importable(e) && e.platforms.Some?
    requires 0 <= k < |e.platforms.value| && Contains(ToLower(Quote(e.platforms.value[k])), "multiplayer")
    ensures ToGame(e).gameMode == "multiplayer"
  {
    var names := e.platforms.value;
    EncodeItemsContainsQuoted(names, k);
    ContainsInSuffix("[", EncodeItems(names), Quote(names[k]));
    LowerContainsThrough(EncodeList(names), Quote(names[k]), "multiplayer");
  }

  // ---------------------------------------------------------------------------------------------
  // addNewGamesToDatabase

  /** `SELECT * FROM games WHERE title = ?` finds a row. */
  predicate TitleTaken(rows: seq<GameRow>, title: string) {
    exists i | 0 <= i < |rows| :: rows[i].title == title
  }

  /** The records that survive the loop, in input order, checked against the table only. */
  function Survivors(rows: seq<GameRow>, entries: seq<RawgEntry>): (kept: seq<RawgEntry>)
    ensures |kept| <= |entries|
    ensures forall i :: 0 <= i < |kept| ==> Importable(kept[i]) && !TitleTaken(rows, kept[i].name.value)
    decreases |entries|
  {
    if entries == [] then []
    else
      var kept := Survivors(rows, entries[..|entries| - 1]);
      var e := entries[|entries| - 1];
      if Importable(e) && !TitleTaken(rows, e.name.value) then kept + [e] else kept
  }

  /** The rows a bulk insert adds, under consecutive ids from `id`. */
  function NewRows(id: int, games: seq<NewGame>): (rs: seq<GameRow>)
    ensures |rs| == |games|
    ensures forall i :: 0 <= i < |games| ==> rs[i] == NewRow(id + i, games[i])
  {
    seq(|games|, i requires 0 <= i < |games| => NewRow(id + i, games[i]))
  }

  /** The survivors of a concatenation are those of each part, in order. */
  lemma {:induction false} SurvivorsAppend(rows: seq<GameRow>, a: seq<RawgEntry>, b: seq<RawgEntry>)
    ensures Survivors(rows, a + b) == Survivors(rows, a) + Survivors(rows, b)
    decreases |b|
  {
    if b == [] {
      assert a + b == a;
    } else {
      assert (a + b)[..|a + b| - 1] == a + b[..|b| - 1];
      SurvivorsAppend(rows, a, b[..|b| - 1]);
    }
  }

  /** Every survivor is one of the input records. */
  lemma {:induction false} SurvivorsSound(rows: seq<GameRow>, entries: seq<RawgEntry>, i: int)
    requires 0 <= i < |Survivors(rows, entries)|
    ensures Survivors(rows, entries)[i] in entries
    decreases |entries|
  {
    var init := entries[..|entries| - 1];
    var kept := Survivors(rows, init);
    if i < |kept| {
      SurvivorsSound(rows, init, i);
      assert Survivors(rows, entries)[i] == kept[i];
    } else {
      assert Survivors(rows, entries)[i] == entries[|entries| - 1];
    }
  }

  /** Every importable record whose title the table lacks is inserted. */
  lemma SurvivorsComplete(rows: seq<GameRow>, entries: seq<RawgEntry>, k: int)
    requires 0 <= k < |entries| && Importable(entries[k]) && !TitleTaken(rows, entries[k].name.value)
    ensures entries[k] in Survivors(rows, entries)
  {
    assert entries == entries[..k + 1] + entries[k + 1..];
    SurvivorsAppend(rows, entries[..k + 1], entries[k + 1..]);
    assert entries[..k + 1][..k] == entries[..k];
  }

  /**
   * Titles are checked against the table and not against the batch: a new title that appears
   * twice in one batch is inserted twice.
   */
  lemma BatchDuplicatesKept(rows: seq<GameRow>, e: RawgEntry)
    requires Importable(e) && !TitleTaken(rows, e.name.value)
    ensures Survivors(rows, [e, e]) == [e, e]
  {
    assert [e, e][..1] == [e];
    assert [e][..0] == [];
  }

  /** One more record either adds its row values to the survivors' or leaves them as they were. */
  lemma SurvivorsStep(rows: seq<GameRow>, entries: seq<RawgEntry>, k: int)
    requires 0 <= k < |entries|
    ensures var before := Map(Survivors(rows, entries[..k]), ToGame);
            Map(Survivors(rows, entries[..k + 1]), ToGame)
            == if Importable(entries[k]) && !TitleTaken(rows, entries[k].name.value) then before + [ToGame(entries[k])] else before
  {
    assert entries[..k + 1][..k] == entries[..k];
    var e := entries[k];
    var kept := Survivors(rows, entries[..k]);
    assert Survivors(rows, entries[..k + 1])
        == if Importable(e) && !TitleTaken(rows, e.name.value) then kept + [e] else kept;
    if Importable(e) && !TitleTaken(rows, e.name.value) {
      MapAppend(kept, e, ToGame);
    }
  }

  /** The bulk `INSERT ... VALUES ?`: all rows of the batch in order, ids counted up. */
  method InsertGames(table: GameTable, games: seq<NewGame>)
    requires table.Valid() && games != []
    modifies table
    ensures table.Valid()
    ensures table.rows == old(table.rows) + NewRows(old(table.nextId), games)
    ensures table.nextId == old(table.nextId) + |games|
  {
    var k := 0;
    while k < |games|
      invariant 0 <= k <= |games|
      invariant table.Valid()
      invariant table.rows == old(table.rows) + NewRows(old(table.nextId), games[..k])
      invariant table.nextId == old(table.nextId) + k
    {
      table.AddGame(games[k]);
      assert NewRows(old(table.nextId), games[..k + 1]) == NewRows(old(table.nextId), games[..k]) + [NewRow(old(table.nextId) + k, games[k])];
      k := k + 1;
    }
    assert games[..k] == games;
  }

  /**
   * `addNewGamesToDatabase`: skip non-objects, records without a name and titles already stored,
   * collect the rest, and insert them together only if there is at least one.
   */
  method AddNewGamesToDatabase(table: GameTable, games: seq<RawgEntry>)
    requires table.Valid()
    modifies table
    ensures table.Valid()
    ensures table.rows == old(table.rows) + NewRows(old(table.nextId), Map(Survivors(old(table.rows), games), ToGame))
    ensures table.nextId == old(table.nextId) + |Survivors(old(table.rows), games)|
  {
    var stored := table.rows;
    var toInsert: seq<NewGame> := [];
    for k := 0 to |games|
      invariant toInsert == Map(Survivors(stored, games[..k]), ToGame)
      invariant unchanged(table)
    {
      SurvivorsStep(stored, games, k);
      var game := games[k];
      if !game.RawgGame? {
        continue;
      }
      var title := game.name;
      if title.None? || title.value == "" {
        continue;
      }
      var taken := TitleTaken(stored, title.value);
      if taken {
        continue;
      }
      toInsert := toInsert + [ToGame(game)];
    }
    assert games[..|games|] == games;
    if |toInsert| > 0 {
      InsertGames(table, toInsert);
    }
  }
}
