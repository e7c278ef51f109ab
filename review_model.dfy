/** `ReviewModel.ts`: the `reviews` table and its dynamically built update statement. */
module ReviewModel {
  import opened Wrappers
  import opened Seqs
  import opened Strings
  import opened Records
  import opened Sql
  import Updates

  function ReviewId(r: ReviewRow): int {
    r.reviewId
  }

  function HasReviewId(reviewId: int): ReviewRow -> bool {
    (r: ReviewRow) => r.reviewId == reviewId
  }

  function NotReviewId(reviewId: int): ReviewRow -> bool {
    (r: ReviewRow) => r.reviewId != reviewId
  }

  function ForGame(gameId: int): ReviewRow -> bool {
    (r: ReviewRow) => r.gameId == gameId
  }

  /** The columns an update body can name, and the name of a key that is none of them. */
  datatype ReviewColumn = UserIdColumn | GameIdColumn | RatingColumn | ReviewTextColumn | UnknownColumn(name: string)

  function ColumnName(c: ReviewColumn): string {
    match c
    case UserIdColumn => "user_id"
    case GameIdColumn => "game_id"
    case RatingColumn => "rating"
    case ReviewTextColumn => "review_text"
    case UnknownColumn(name) => name
  }

  function ColumnOf(u: ReviewField): ReviewColumn {
    match u
    case SetUserId(_) => UserIdColumn
    case SetGameId(_) => GameIdColumn
    case SetRating(_) => RatingColumn
    case SetReviewText(_) => ReviewTextColumn
    case UnknownReviewKey(key) => UnknownColumn(key)
  }

  /**
   * The name an entry writes before its `= ?` is a column of `reviews` exactly when the entry is a
   * known field, and no entry names `review_id`, in any letter case.
   */
  lemma EntryColumnName(u: ReviewField)
    ensures ColumnName(ColumnOf(u)) in ReviewColumns <==> !u.UnknownReviewKey?
    ensures ToLower(ColumnName(ColumnOf(u))) != "review_id"
  {
    ReviewColumnsLower();
  }

  /** The value an entry binds to its `?`; an unknown key's value is never stored and not modelled. */
  function FieldValue(u: ReviewField): SqlValue {
    match u
    case SetUserId(v) => SqlInt(v)
    case SetGameId(v) => SqlInt(v)
    case SetRating(v) => SqlInt(v)
    case SetReviewText(t) => SqlText(t)
    case UnknownReviewKey(_) => SqlNull
  }

  /** A column of a row as the database holds it; a column the table lacks holds nothing. */
  function Read(r: ReviewRow, c: ReviewColumn): SqlValue {
    match c
    case UserIdColumn => SqlInt(r.userId)
    case GameIdColumn => SqlInt(r.gameId)
    case RatingColumn => SqlInt(r.rating)
    case ReviewTextColumn => SqlText(r.reviewText)
    case UnknownColumn(_) => SqlNull
  }

  /** One `key = ?` assignment: that column takes the value, every other column keeps its own. */
  function Apply(r: ReviewRow, u: ReviewField): (r': ReviewRow)
    ensures Read(r', ColumnOf(u)) == FieldValue(u)
    ensures forall c :: c != ColumnOf(u) ==> Read(r', c) == Read(r, c)
    ensures r'.reviewId == r.reviewId
  {
    match u
    case SetUserId(v) => r.(userId := v)
    case SetGameId(v) => r.(gameId := v)
    case SetRating(v) => r.(rating := v)
    case SetReviewText(t) => r.(reviewText := t)
    case UnknownReviewKey(_) => r
  }

  /** The whole `SET` list, applied left to right. */
  function ApplyAll(r: ReviewRow, us: seq<ReviewField>): ReviewRow {
    Updates.ApplyAll(r, us, Apply)
  }

  function Updater(us: seq<ReviewField>): ReviewRow -> ReviewRow {
    (r: ReviewRow) => ApplyAll(r, us)
  }

  /** The value the last entry naming a column gives it, if any entry does. */
  function LastWrite(us: seq<ReviewField>, c: ReviewColumn): Option<SqlValue> {
    Updates.LastWrite(us, ColumnOf, FieldValue, c)
  }

  /** After the update each column holds the value of the last entry naming it, or what it held. */
  lemma ApplyAllColumns(r: ReviewRow, us: seq<ReviewField>, c: ReviewColumn)
    ensures Read(ApplyAll(r, us), c) == LastWrite(us, c).GetOr(Read(r, c))
  {
    Updates.ApplyAllColumns(r, us, Apply, Read, ColumnOf, FieldValue, c);
  }

  /** No body entry can name `review_id`, so the update never changes it. */
  lemma {:induction false} ApplyAllKeepsReviewId(r: ReviewRow, us: seq<ReviewField>)
    ensures ApplyAll(r, us).reviewId == r.reviewId
    decreases |us|
  {
    if us != [] {
      ApplyAllKeepsReviewId(r, us[..|us| - 1]);
    }
  }

  /** The entries name columns of `reviews` only, so the statement can run. */
  predicate KnownKeys(us: seq<ReviewField>) {
    forall k | 0 <= k < |us| :: !us[k].UnknownReviewKey?
  }

  /** The body is passed on unfiltered: an owner's update can even hand the review to another user. */
  lemma UpdateCanReassign(r: ReviewRow, us: seq<ReviewField>, newOwner: int)
    requires us != [] && us[|us| - 1] == SetUserId(newOwner)
    ensures ApplyAll(r, us).userId == newOwner
  {
    ApplyAllColumns(r, us, UserIdColumn);
    assert LastWrite(us, UserIdColumn) == Some(SqlInt(newOwner));
  }

  // ---------------------------------------------------------------------------------------------
  // updateReview's statement

  /** The loop of `updateReview`: the key and the value of every body entry, in order. */
  method CollectUpdates(updates: seq<ReviewField>) returns (keys: seq<ReviewColumn>, values: seq<SqlValue>)
    ensures |keys| == |updates| && forall k :: 0 <= k < |updates| ==> keys[k] == ColumnOf(updates[k])
    ensures |values| == |updates| && forall k :: 0 <= k < |updates| ==> values[k] == FieldValue(updates[k])
  {
    keys := [];
    values := [];
    for i := 0 to |updates|
      invariant |keys| == i && forall k :: 0 <= k < i ==> keys[k] == ColumnOf(updates[k])
      invariant |values| == i && forall k :: 0 <= k < i ==> values[k] == FieldValue(updates[k])
    {
      keys := keys + [ColumnOf(updates[i])];
      values := values + [FieldValue(updates[i])];
    }
  }

  /** `UPDATE reviews SET ... WHERE review_id = ?`: one placeholder per entry, the id bound last. */
  method BuildReviewUpdate(reviewId: int, updates: seq<ReviewField>) returns (sql: seq<Token>, values: seq<SqlValue>)
    ensures sql == Literal("UPDATE reviews SET ") + JoinTokens(Assignments(Map(updates, ColumnOf), ColumnName), Literal(", "))
                   + Bound(" WHERE review_id = ")
    ensures |values| == |updates| + 1 && values[|updates|] == SqlInt(reviewId)
    ensures forall k :: 0 <= k < |updates| ==> values[k] == FieldValue(updates[k])
    ensures Params(sql) == |values|
  {
    var keys;
    keys, values := CollectUpdates(updates);
    values := values + [SqlInt(reviewId)];
    assert keys == Map(updates, ColumnOf);
    var fields := Assignments(keys, ColumnName);
    UpdateParams("UPDATE reviews SET ", fields, " WHERE review_id = ");
    sql := Literal("UPDATE reviews SET ") + JoinTokens(fields, Literal(", ")) + Bound(" WHERE review_id = ");
  }

  // ---------------------------------------------------------------------------------------------
  // The table

  /** The `reviews` table, rows in id order, and its auto-increment counter. */
  class ReviewTable {
    var rows: seq<ReviewRow>
    var nextId: int

    ghost predicate Valid()
      reads this
    {
      && nextId >= 1
      && Increasing(rows, ReviewId)
      && forall i :: 0 <= i < |rows| ==> 1 <= ReviewId(rows[i]) < nextId
    }

    constructor ()
      ensures Valid() && rows == [] && nextId == 1
    {
      rows := [];
      nextId := 1;
    }

    /** `createReview`: one row with the four given values under a fresh id, which is answered. */
    method CreateReview(userId: int, gameId: int, rating: int, reviewText: string) returns (reviewId: int)
      requires Valid()
      modifies this
      ensures Valid()
      ensures reviewId == old(nextId) && nextId == old(nextId) + 1
      ensures rows == old(rows) + [ReviewRow(reviewId, userId, gameId, rating, reviewText)]
      ensures GetReviewById(reviewId) == Some(ReviewRow(reviewId, userId, gameId, rating, reviewText))
    {
      reviewId := nextId;
      var row := ReviewRow(reviewId, userId, gameId, rating, reviewText);
      AppendNextKey(rows, row, ReviewId, nextId);
      rows := rows + [row];
      nextId := nextId + 1;
      FirstOfUnique(rows, ReviewId, HasReviewId(reviewId), |rows| - 1);
    }

    /** `getReviewById` (its parameter is misnamed `game_id`): the row with that review id, or nothing. */
    function GetReviewById(reviewId: int): (r: Option<ReviewRow>)
      reads this
      ensures r.None? <==> forall i :: 0 <= i < |rows| ==> rows[i].reviewId != reviewId
      ensures r.Some? ==> r.value in rows && r.value.reviewId == reviewId
    {
      First(rows, HasReviewId(reviewId))
    }

    /** Review ids are unique, so a lookup finds the one row with the id. */
    lemma GetReviewByIdFindsRow(i: int)
      requires Valid() && 0 <= i < |rows|
      ensures GetReviewById(rows[i].reviewId) == Some(rows[i])
    {
      FirstOfUnique(rows, ReviewId, HasReviewId(rows[i].reviewId), i);
    }

    /** `getReviewByGameId`: every review of that game in table order, possibly none. */
    function GetReviewByGameId(gameId: int): (r: seq<ReviewRow>)
      reads this
      ensures forall i :: 0 <= i < |r| ==> r[i] in rows && r[i].gameId == gameId
      ensures forall i :: 0 <= i < |rows| && rows[i].gameId == gameId ==> rows[i] in r
    {
      Filter(rows, ForGame(gameId))
    }

    /**
     * `updateReview`: the row with that id gets the body's entries in order, other rows stay; an
     * empty body makes `SET  WHERE`, which the database rejects, and so does a key that is no
     * column: nothing changes then.
     */
    method UpdateReview(reviewId: int, updates: seq<ReviewField>) returns (accepted: bool)
      requires Valid()
      modifies this
      ensures Valid()
      ensures accepted <==> updates != [] && KnownKeys(updates)
      ensures rows == if accepted then UpdateWhere(old(rows), HasReviewId(reviewId), Updater(updates)) else old(rows)
      ensures nextId == old(nextId)
    {
      var sql, values := BuildReviewUpdate(reviewId, updates);
      accepted := updates != [] && KnownKeys(updates);
      if accepted {
        var updated := UpdateWhere(rows, HasReviewId(reviewId), Updater(updates));
        forall i | 0 <= i < |rows| ensures updated[i].reviewId == rows[i].reviewId {
          ApplyAllKeepsReviewId(rows[i], updates);
        }
        rows := updated;
      }
    }

    /** `deleteReview`: the row with that id goes; a missing id is not an error. */
    method DeleteReview(reviewId: int)
      requires Valid()
      modifies this
      ensures Valid()
      ensures rows == Filter(old(rows), NotReviewId(reviewId)) && nextId == old(nextId)
    {
      FilterKeepsIncreasing(rows, NotReviewId(reviewId), ReviewId);
      rows := Filter(rows, NotReviewId(reviewId));
    }
  }

  /**
   * An update touches one row only: every other row is unchanged, and that row's columns hold
   * their last written values.
   */
  lemma UpdatedReviews(rows: seq<ReviewRow>, reviewId: int, updates: seq<ReviewField>, i: int, c: ReviewColumn)
    requires 0 <= i < |rows|
    ensures var r := UpdateWhere(rows, HasReviewId(reviewId), Updater(updates));
            && (rows[i].reviewId != reviewId ==> r[i] == rows[i])
            && (rows[i].reviewId == reviewId ==> Read(r[i], c) == LastWrite(updates, c).GetOr(Read(rows[i], c)))
  {
    ApplyAllColumns(rows[i], updates, c);
  }

  /** A delete removes that review only, and a second delete changes nothing. */
  lemma DeleteReviewEffect(rows: seq<ReviewRow>, reviewId: int)
    ensures var r := Filter(rows, NotReviewId(reviewId));
            && (forall i :: 0 <= i < |r| ==> r[i].reviewId != reviewId)
            && (forall i :: 0 <= i < |rows| && rows[i].reviewId != reviewId ==> rows[i] in r)
            && Filter(r, NotReviewId(reviewId)) == r
  {
    FilterIdempotent(rows, NotReviewId(reviewId));
  }
}
