/**
 * `UserDataModel.ts`: the `user_data` table, whose five list columns hold JSON text written by
 * `stringifyFields` and read back by `parseFields`.
 */
module UserDataModel {
  import opened Wrappers
  import opened Seqs
  import opened JsonLists
  import opened Records
  import opened Sql

  /** The five list columns, in the order `stringifyFields` writes its keys. */
  datatype ListName = SearchHistory | Interests | ViewHistory | ReviewHistory | Genres

  const ListNames: seq<ListName> := [SearchHistory, Interests, ViewHistory, ReviewHistory, Genres]

  function ColumnName(c: ListName): string {
    match c
    case SearchHistory => "search_history"
    case Interests => "interests"
    case ViewHistory => "view_history"
    case ReviewHistory => "review_history"
    case Genres => "genres"
  }

  /** The list an input gives for a column, if any. */
  function Field(d: UserDataInput, c: ListName): Option<seq<string>> {
    match c
    case SearchHistory => d.searchHistory
    case Interests => d.interests
    case ViewHistory => d.viewHistory
    case ReviewHistory => d.reviewHistory
    case Genres => d.genres
  }

  /** `stringifyFields`: all five keys in order, each the JSON text of its list or of `[]`. */
  function StringifyFields(d: UserDataInput): (fields: seq<(ListName, string)>)
    ensures |fields| == |ListNames|
    ensures forall k :: 0 <= k < |fields| ==> fields[k].0 == ListNames[k]
  {
    seq(|ListNames|, k requires 0 <= k < |ListNames| => (ListNames[k], EncodeList(Field(d, ListNames[k]).GetOr([]))))
  }

  /** Each stored text decodes to the list that was given, or to `[]` for an absent one. */
  lemma StringifyFieldsDecode(d: UserDataInput, k: int)
    requires 0 <= k < |ListNames|
    ensures DecodeList(StringifyFields(d)[k].1) == Some(Field(d, ListNames[k]).GetOr([]))
  {
    DecodeEncode(Field(d, ListNames[k]).GetOr([]));
  }

  /** The row an insert or an update stores: every column from `stringifyFields`. */
  function StoredRow(id: int, d: UserDataInput): (row: UserDataRow)
    ensures row.id == id
  {
    var f := StringifyFields(d);
    UserDataRow(id, Text(f[0].1), Text(f[1].1), Text(f[2].1), Text(f[3].1), Text(f[4].1))
  }

  /** `safeParse`: a string column is parsed; a non-string or text that does not parse gives `[]`. */
  function SafeParse(cell: Cell): (xs: seq<string>)
    ensures cell.NonText? ==> xs == []
    ensures cell.Text? && DecodeList(cell.text).None? ==> xs == []
    ensures cell.Text? && DecodeList(cell.text).Some? ==> xs == DecodeList(cell.text).value
  {
    match cell
    case NonText => []
    case Text(t) => DecodeList(t).GetOr([])
  }

  /** `parseFields`: the row with its five columns decoded; the id is kept. */
  function ParseFields(row: UserDataRow): (d: UserData)
    ensures d.id == row.id
  {
    UserData(row.id, SafeParse(row.searchHistory), SafeParse(row.interests), SafeParse(row.viewHistory),
             SafeParse(row.reviewHistory), SafeParse(row.genres))
  }

  /** The lists an input stands for once stored: each as given, or `[]`. */
  function Normalized(id: int, d: UserDataInput): UserData {
    UserData(id, d.searchHistory.GetOr([]), d.interests.GetOr([]), d.viewHistory.GetOr([]),
             d.reviewHistory.GetOr([]), d.genres.GetOr([]))
  }

  /** Reading a stored row back gives the lists that were written, absent ones as `[]`. */
  lemma ParseStoredRow(id: int, d: UserDataInput)
    ensures ParseFields(StoredRow(id, d)) == Normalized(id, d)
  {
    StringifyFieldsDecode(d, 0);
    StringifyFieldsDecode(d, 1);
    StringifyFieldsDecode(d, 2);
    StringifyFieldsDecode(d, 3);
    StringifyFieldsDecode(d, 4);
  }

  // ---------------------------------------------------------------------------------------------
  // updateUserData's statement

  /** The loop of `updateUserData`: a key and a bound value for every entry of `stringifyFields`. */
  method CollectEntries(entries: seq<(ListName, string)>) returns (keys: seq<ListName>, values: seq<SqlValue>)
    ensures |keys| == |entries| && forall k :: 0 <= k < |entries| ==> keys[k] == entries[k].0
    ensures |values| == |entries| && forall k :: 0 <= k < |entries| ==> values[k] == SqlText(entries[k].1)
  {
    keys := [];
    values := [];
    for i := 0 to |entries|
      invariant |keys| == i && forall k :: 0 <= k < i ==> keys[k] == entries[k].0
      invariant |values| == i && forall k :: 0 <= k < i ==> values[k] == SqlText(entries[k].1)
    {
      keys := keys + [entries[i].0];
      values := values + [SqlText(entries[i].1)];
    }
  }

  /**
   * The statement `updateUserData` sends: all five columns assigned whatever the input holds,
   * then the id for `WHERE id = ?`; one placeholder per value.
   */
  method BuildUserDataUpdate(id: int, updates: UserDataInput) returns (sql: seq<Token>, values: seq<SqlValue>)
    ensures sql == Literal("UPDATE user_data SET ") + JoinTokens(Assignments(ListNames, ColumnName), Literal(", ")) + Bound(" WHERE id = ")
    ensures |values| == |ListNames| + 1 && values[|ListNames|] == SqlInt(id)
    ensures forall k :: 0 <= k < |ListNames| ==> values[k] == SqlText(EncodeList(Field(updates, ListNames[k]).GetOr([])))
    ensures Params(sql) == |values|
  {
    var entries := StringifyFields(updates);
    var keys;
    keys, values := CollectEntries(entries);
    values := values + [SqlInt(id)];
    assert keys == ListNames;
    var fields := Assignments(keys, ColumnName);
    UpdateParams("UPDATE user_data SET ", fields, " WHERE id = ");
    sql := Literal("UPDATE user_data SET ") + JoinTokens(fields, Literal(", ")) + Bound(" WHERE id = ");
  }

  // ---------------------------------------------------------------------------------------------
  // The table

  function RowId(r: UserDataRow): int {
    r.id
  }

  function RowHasId(id: int): UserDataRow -> bool {
    (r: UserDataRow) => r.id == id
  }

  function RowNotId(id: int): UserDataRow -> bool {
    (r: UserDataRow) => r.id != id
  }

  /** What `UPDATE user_data SET ...` does to a matching row: every list column rewritten. */
  function Rewrite(updates: UserDataInput): UserDataRow -> UserDataRow {
    (r: UserDataRow) => StoredRow(r.id, updates)
  }

  /** `getUserDataById` on a table: the first row with the id, decoded, or nothing. */
  function ReadRow(rows: seq<UserDataRow>, id: int): (r: Option<UserData>)
    ensures r.None? <==> forall i :: 0 <= i < |rows| ==> rows[i].id != id
    ensures r.Some? ==> exists i :: 0 <= i < |rows| && rows[i].id == id && r.value == ParseFields(rows[i])
  {
    match First(rows, RowHasId(id))
    case None => None
    case Some(row) => Some(ParseFields(row))
  }

  /** A freshly inserted row is found under its id with the lists it was given. */
  lemma ReadAfterCreate(rows: seq<UserDataRow>, id: int, d: UserDataInput)
    requires forall i :: 0 <= i < |rows| ==> rows[i].id != id
    ensures ReadRow(rows + [StoredRow(id, d)], id) == Some(Normalized(id, d))
  {
    var s := rows + [StoredRow(id, d)];
    var r := First(s, RowHasId(id));
    assert RowHasId(id)(s[|rows|]);
    var i :| 0 <= i < |s| && s[i] == r.value && RowHasId(id)(s[i]);
    assert i == |rows|;
    ParseStoredRow(id, d);
  }

  /**
   * Every update rewrites all five columns: reading the row back gives exactly the lists of the
   * update, with a list the update lacks reset to `[]`.
   */
  lemma ReadAfterUpdate(rows: seq<UserDataRow>, id: int, updates: UserDataInput, i: int)
    requires Increasing(rows, RowId)
    requires 0 <= i < |rows| && rows[i].id == id
    ensures ReadRow(UpdateWhere(rows, RowHasId(id), Rewrite(updates)), id) == Some(Normalized(id, updates))
  {
    var r := UpdateWhere(rows, RowHasId(id), Rewrite(updates));
    assert forall j :: 0 <= j < |r| ==> RowId(r[j]) == RowId(rows[j]);
    assert Increasing(r, RowId);
    FirstOfUnique(r, RowId, RowHasId(id), i);
    ParseStoredRow(id, updates);
  }

  /** After a delete the id is gone and every other row is still there. */
  lemma ReadAfterDelete(rows: seq<UserDataRow>, id: int, other: int)
    requires other != id
    ensures ReadRow(Filter(rows, RowNotId(id)), id).None?
    ensures ReadRow(rows, other).Some? ==> ReadRow(Filter(rows, RowNotId(id)), other).Some?
  {
    var r := Filter(rows, RowNotId(id));
    if ReadRow(rows, other).Some? {
      var i :| 0 <= i < |rows| && rows[i].id == other;
      assert RowNotId(id)(rows[i]);
      var j :| 0 <= j < |r| && r[j] == rows[i];
    }
  }

  /** The `user_data` table, rows in id order, and its auto-increment counter. */
  class UserDataTable {
    var rows: seq<UserDataRow>
    var nextId: int

    ghost predicate Valid()
      reads this
    {
      && nextId >= 1
      && Increasing(rows, RowId)
      && forall i :: 0 <= i < |rows| ==> 1 <= RowId(rows[i]) < nextId
    }

    constructor ()
      ensures Valid() && rows == [] && nextId == 1
    {
      rows := [];
      nextId := 1;
    }

    /** `createUserData`: insert the stringified lists and answer the new id. */
    method CreateUserData(d: UserDataInput) returns (id: int)
      requires Valid()
      modifies this
      ensures Valid()
      ensures id == old(nextId) && nextId == old(nextId) + 1
      ensures rows == old(rows) + [StoredRow(id, d)]
      ensures GetUserDataById(id) == Some(Normalized(id, d))
    {
      id := nextId;
      ReadAfterCreate(rows, id, d);
      AppendNextKey(rows, StoredRow(id, d), RowId, nextId);
      rows := rows + [StoredRow(id, d)];
      nextId := nextId + 1;
    }

    /** `getUserDataById`: the decoded row, or nothing when no row has the id. */
    function GetUserDataById(id: int): (r: Option<UserData>)
      reads this
      ensures r.None? <==> forall i :: 0 <= i < |rows| ==> rows[i].id != id
      ensures r.Some? ==> r.value.id == id
    {
      ReadRow(rows, id)
    }

    /** `updateUserData`: the row with the id gets all five columns from `stringifyFields`. */
    method UpdateUserData(id: int, updates: UserDataInput)
      requires Valid()
      modifies this
      ensures Valid()
      ensures rows == UpdateWhere(old(rows), RowHasId(id), Rewrite(updates)) && nextId == old(nextId)
    {
      var sql, values := BuildUserDataUpdate(id, updates);
      rows := UpdateWhere(rows, RowHasId(id), Rewrite(updates));
    }

    /** `deleteUserData`: the row with the id is removed, the others stay in order. */
    method DeleteUserData(id: int)
      requires Valid()
      modifies this
      ensures Valid()
      ensures rows == Filter(old(rows), RowNotId(id)) && nextId == old(nextId)
    {
      FilterKeepsIncreasing(rows, RowNotId(id), RowId);
      rows := Filter(rows, RowNotId(id));
    }
  }
}
