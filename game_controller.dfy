/** The catalogue handlers of `gameController.ts`: each calls the games table and picks the response. */
module GameController {
  import opened Wrappers
  import opened Seqs
  import opened JsNumbers
  import opened JsonLists
  import opened Records
  import opened Sql
  import opened GameModel
  import opened Http
  import Updates

  /**
   * The `limit` query parameter as `getAllGames` reads it: `parseInt(limit, 10) || 50`, then 50
   * again for `NaN` or a value not above 0. An absent parameter parses as `NaN`.
   */
  function NormalizeLimit(param: Option<string>): (limit: nat)
    ensures limit >= 1
    ensures var parsed := if param.Some? then ParseInt(param.value) else None;
            limit == if parsed.Some? && parsed.value > 0 then parsed.value else 50
  {
    var parsed := if param.Some? then ParseInt(param.value) else None;
    var limit := if parsed.Some? && parsed.value != 0 then parsed.value else 50;
    if limit <= 0 then 50 else limit
  }

  /** A positive limit written in decimal is used as it is; none, 0 or garbage gives 50. */
  lemma NormalizeLimitOfDecimal(n: nat)
    ensures NormalizeLimit(Some(NatToString(n))) == if n == 0 then 50 else n
    ensures NormalizeLimit(None) == 50
  {
    ParseNatToString(n);
  }

  /** `createGame`'s body: absent tags or platforms become empty lists, everything else as sent. */
  function WithListDefaults(body: NewGame): (game: NewGame)
    ensures game.tags.Some? && game.platforms.Some?
  {
    body.(tags := Some(body.tags.GetOr([])), platforms := Some(body.platforms.GetOr([])))
  }

  /** A created game always stores both lists, decoding to the ones sent or to `[]`. */
  lemma CreatedGameLists(id: int, body: NewGame)
    ensures DecodeColumn(NewRow(id, WithListDefaults(body)).tags) == Some(body.tags.GetOr([]))
    ensures DecodeColumn(NewRow(id, WithListDefaults(body)).platforms) == Some(body.platforms.GetOr([]))
  {
    StoredListsDecode(id, WithListDefaults(body));
  }

  /** `createGame`: insert with list defaults, then 201. */
  method CreateGame(table: GameTable, body: NewGame, res: Reply)
    requires table.Valid()
    modifies table, res
    ensures table.Valid()
    ensures table.rows == old(table.rows) + [NewRow(old(table.nextId), WithListDefaults(body))]
    ensures res.sent == old(res.sent) + [Response(201, Message("Game created successfully"))]
    ensures res.cookies == old(res.cookies)
  {
    table.AddGame(WithListDefaults(body));
    res.Send(201, Message("Game created successfully"));
  }

  /** The response to a search or a listing: 404 for no rows, otherwise 200 with the rows. */
  function ListReply(games: seq<GameRow>): (r: Response)
    ensures r.status == 404 <==> games == []
    ensures r.status == 200 ==> r.body == GameList(games)
  {
    if |games| == 0 then Response(404, Message("No games found")) else Response(200, GameList(games))
  }

  /**
   * `searchGames`: absent `query`, `genre` and `game_mode` are empty, `review_rating` goes through
   * `Number`; the answer is 404 exactly when no row matches.
   */
  method SearchGames(table: GameTable, query: Option<string>, genre: Option<string>,
                     reviewRating: Option<string>, gameMode: Option<string>, res: Reply)
    modifies res
    ensures res.sent == old(res.sent)
              + [ListReply(Filter(table.rows, Matching(query.GetOr(""), genre.GetOr(""), NumberOf(reviewRating), gameMode.GetOr(""))))]
    ensures res.cookies == old(res.cookies)
  {
    var games := table.FindGames(query.GetOr(""), genre.GetOr(""), NumberOf(reviewRating), gameMode.GetOr(""));
    if |games| == 0 {
      res.Send(404, Message("No games found"));
    } else {
      res.Send(200, GameList(games));
    }
  }

  /**
   * `removeGame`: delete, then 200 whether or not the id existed. A path id that is not a number
   * (`None`, for `NaN`) makes the statement fail: 500 and nothing deleted.
   */
  method RemoveGame(table: GameTable, pathId: Option<int>, res: Reply)
    requires table.Valid()
    modifies table, res
    ensures table.Valid() && table.nextId == old(table.nextId)
    ensures pathId.None? ==>
              res.sent == old(res.sent) + [Response(500, Message("Error deleting game"))] && table.rows == old(table.rows)
    ensures pathId.Some? ==>
              && table.rows == Filter(old(table.rows), NotId(pathId.value))
              && res.sent == old(res.sent) + [Response(200, Message("Game deleted successfully"))]
    ensures res.cookies == old(res.cookies)
  {
    if pathId.None? {
      res.Send(500, Message("Error deleting game"));
      return;
    }
    table.DeleteGame(pathId.value);
    res.Send(200, Message("Game deleted successfully"));
  }

  predicate SetsTags(body: seq<GameField>) {
    exists k | 0 <= k < |body| :: body[k].SetTags?
  }

  predicate SetsPlatforms(body: seq<GameField>) {
    exists k | 0 <= k < |body| :: body[k].SetPlatforms?
  }

  /**
   * `editGame`'s updates: the body's entries in order, then `tags: []` and `platforms: []` for
   * whichever of the two the body lacks.
   */
  function WithListEntries(body: seq<GameField>): (updates: seq<GameField>)
    ensures updates != []
  {
    body + (if SetsTags(body) then [] else [SetTags([])])
         + (if SetsPlatforms(body) then [] else [SetPlatforms([])])
  }

  /** The body names tags (platforms) exactly when it writes the tags (platforms) column. */
  lemma WritesListsIff(body: seq<GameField>)
    ensures SetsTags(body) <==> LastWrite(body, TagsColumn).Some?
    ensures SetsPlatforms(body) <==> LastWrite(body, PlatformsColumn).Some?
  {
    Updates.LastWriteNone(body, ColumnOf, FieldValue, TagsColumn);
    Updates.LastWriteNone(body, ColumnOf, FieldValue, PlatformsColumn);
    assert forall u: GameField :: ColumnOf(u) == TagsColumn <==> u.SetTags?;
    assert forall u: GameField :: ColumnOf(u) == PlatformsColumn <==> u.SetPlatforms?;
  }

  /**
   * An edit always writes tags and platforms: a body without them resets them to `[]`; every
   * other column is written exactly as the body writes it.
   */
  lemma EditWrites(body: seq<GameField>, c: Column)
    ensures LastWrite(WithListEntries(body), TagsColumn).Some?
    ensures LastWrite(WithListEntries(body), PlatformsColumn).Some?
    ensures !SetsTags(body) ==> LastWrite(WithListEntries(body), TagsColumn) == Some(SqlText(EncodeList([])))
    ensures !SetsPlatforms(body) ==> LastWrite(WithListEntries(body), PlatformsColumn) == Some(SqlText(EncodeList([])))
    ensures c != TagsColumn && c != PlatformsColumn ==> LastWrite(WithListEntries(body), c) == LastWrite(body, c)
  {
    var t := if SetsTags(body) then [] else [SetTags([])];
    var p := if SetsPlatforms(body) then [] else [SetPlatforms([])];
    assert WithListEntries(body) == (body + t) + p;
    WritesListsIff(body);
    Updates.LastWriteAppend(body, t, ColumnOf, FieldValue, c);
    Updates.LastWriteAppend(body + t, p, ColumnOf, FieldValue, c);
    Updates.LastWriteAppend(body, t, ColumnOf, FieldValue, TagsColumn);
    Updates.LastWriteAppend(body + t, p, ColumnOf, FieldValue, TagsColumn);
    Updates.LastWriteAppend(body, t, ColumnOf, FieldValue, PlatformsColumn);
    Updates.LastWriteAppend(body + t, p, ColumnOf, FieldValue, PlatformsColumn);
    if !SetsTags(body) {
      Updates.LastWriteSingle(SetTags([]), ColumnOf, FieldValue, c);
      Updates.LastWriteSingle(SetTags([]), ColumnOf, FieldValue, TagsColumn);
      Updates.LastWriteSingle(SetTags([]), ColumnOf, FieldValue, PlatformsColumn);
    }
    if !SetsPlatforms(body) {
      Updates.LastWriteSingle(SetPlatforms([]), ColumnOf, FieldValue, c);
      Updates.LastWriteSingle(SetPlatforms([]), ColumnOf, FieldValue, TagsColumn);
      Updates.LastWriteSingle(SetPlatforms([]), ColumnOf, FieldValue, PlatformsColumn);
    }
  }

  /** The entries `editGame` adds name columns, so the statement fails exactly when the body has an unknown key. */
  lemma WithListEntriesKeys(body: seq<GameField>)
    ensures KnownKeys(WithListEntries(body)) <==> KnownKeys(body)
  {
    var w := WithListEntries(body);
    if KnownKeys(body) {
      forall k | 0 <= k < |w| ensures !w[k].UnknownGameKey? {
        if k < |body| {
          assert w[k] == body[k];
        }
      }
    } else {
      var k :| 0 <= k < |body| && body[k].UnknownGameKey?;
      assert w[k] == body[k];
    }
  }

  /**
   * `editGame`: update with list entries added, then 200 whether or not the id existed; a path id
   * that is not a number or a body key that is no column makes the statement fail: 500 and the
   * table unchanged.
   */
  method EditGame(table: GameTable, pathId: Option<int>, body: seq<GameField>, res: Reply)
    requires table.Valid()
    modifies table, res
    ensures table.Valid() && table.nextId == old(table.nextId)
    ensures pathId.None? || !KnownKeys(body) ==>
              res.sent == old(res.sent) + [Response(500, Message("Error updating game"))] && table.rows == old(table.rows)
    ensures pathId.Some? && KnownKeys(body) ==>
              && table.rows == UpdateWhere(old(table.rows), HasId(pathId.value), Updater(WithListEntries(body)))
              && res.sent == old(res.sent) + [Response(200, Message("Game updated successfully"))]
    ensures res.cookies == old(res.cookies)
  {
    if pathId.None? {
      res.Send(500, Message("Error updating game"));
      return;
    }
    WithListEntriesKeys(body);
    var accepted := table.UpdateGame(pathId.value, WithListEntries(body));
    if !accepted {
      res.Send(500, Message("Error updating game"));
      return;
    }
    res.Send(200, Message("Game updated successfully"));
  }

  /**
   * `getGame`: 404 'Game not found' iff no row has the id, otherwise 200 with the row; a path id
   * that is not a number ends in 500.
   */
  method GetGame(table: GameTable, pathId: Option<int>, res: Reply)
    modifies res
    ensures res.sent == old(res.sent) + [
              if pathId.None? then Response(500, Message("Error fetching game"))
              else match table.GetGameById(pathId.value)
                   case None => Response(404, Message("Game not found"))
                   case Some(g) => Response(200, GameItem(g))]
    ensures res.cookies == old(res.cookies)
  {
    if pathId.None? {
      res.Send(500, Message("Error fetching game"));
      return;
    }
    var game := table.GetGameById(pathId.value);
    if game.None? {
      res.Send(404, Message("Game not found"));
    } else {
      res.Send(200, GameItem(game.value));
    }
  }

  /**
   * `getAllGames`: the first rows up to the normalised limit; since the limit is at least 1 the
   * answer is 404 exactly when the table is empty.
   */
  method GetAllGames(table: GameTable, limitParam: Option<string>, res: Reply)
    modifies res
    ensures res.sent == old(res.sent) + [ListReply(table.GetAllGames(NormalizeLimit(limitParam)))]
    ensures res.sent[|res.sent| - 1].status == 404 <==> table.rows == []
    ensures res.cookies == old(res.cookies)
  {
    var games := table.GetAllGames(NormalizeLimit(limitParam));
    if |games| == 0 {
      res.Send(404, Message("No games found"));
      return;
    }
    res.Send(200, GameList(games));
  }
}
