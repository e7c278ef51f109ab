/**
 * `UserModel.ts`: the `users` table. Password hashing is bcrypt with a fresh salt, a foreign
 * library; it enters as the function `hash` (the salted hash the call produces).
 */
module UserModel {
  import opened Wrappers
  import opened Seqs
  import opened Records

  function UserId(u: UserRow): int {
    u.id
  }

  function IdIs(id: int): UserRow -> bool {
    (u: UserRow) => u.id == id
  }

  function EmailIs(email: string): UserRow -> bool {
    (u: UserRow) => u.email == email
  }

  function NameIs(name: string): UserRow -> bool {
    (u: UserRow) => u.name == name
  }

  function WithPicture(url: string): UserRow -> UserRow {
    (u: UserRow) => u.(profilePic := url)
  }

  /** A user as `create` receives it: everything but the id, password in plain text. */
  datatype NewUser = NewUser(
    name: string,
    email: string,
    password: string,
    profilePic: string,
    themePreference: Option<string>,
    userDataId: Option<int>)

  /** The row `create` inserts: the password replaced by its hash. */
  function StoredUser(id: int, u: NewUser, hash: string -> string): (row: UserRow)
    ensures row.id == id && row.email == u.email && row.name == u.name
    ensures row.password == hash(u.password)
  {
    UserRow(id, u.name, u.email, hash(u.password), u.profilePic, u.themePreference, u.userDataId)
  }

  /**
   * A row whose email no earlier row has is what a lookup by that email finds after the insert.
   */
  lemma FindAfterInsert(rows: seq<UserRow>, row: UserRow)
    requires forall i :: 0 <= i < |rows| ==> rows[i].email != row.email
    ensures First(rows + [row], EmailIs(row.email)) == Some(row)
  {
    var s := rows + [row];
    assert EmailIs(row.email)(s[|rows|]);
    var r := First(s, EmailIs(row.email));
    var i :| 0 <= i < |s| && s[i] == r.value && EmailIs(row.email)(s[i]);
    assert i == |rows|;
  }

  /** The `users` table, rows in id order, and its auto-increment counter. */
  class UserTable {
    var rows: seq<UserRow>
    var nextId: int

    ghost predicate Valid()
      reads this
    {
      && nextId >= 1
      && Increasing(rows, UserId)
      && forall i :: 0 <= i < |rows| ==> 1 <= UserId(rows[i]) < nextId
    }

    constructor ()
      ensures Valid() && rows == [] && nextId == 1
    {
      rows := [];
      nextId := 1;
    }

    /**
     * `create`: insert with the hashed password, then answer the first row with that email, which
     * is the new row unless an older row already had the email.
     */
    method Create(u: NewUser, hash: string -> string) returns (user: UserRow)
      requires Valid()
      modifies this
      ensures Valid()
      ensures rows == old(rows) + [StoredUser(old(nextId), u, hash)] && nextId == old(nextId) + 1
      ensures Some(user) == FindByEmail(u.email)
      ensures (forall i :: 0 <= i < |old(rows)| ==> old(rows)[i].email != u.email) ==> user == StoredUser(old(nextId), u, hash)
    {
      var row := StoredUser(nextId, u, hash);
      if forall i :: 0 <= i < |rows| ==> rows[i].email != u.email {
        FindAfterInsert(rows, row);
      }
      AppendNextKey(rows, row, UserId, nextId);
      rows := rows + [row];
      nextId := nextId + 1;
      assert EmailIs(u.email)(rows[|rows| - 1]);
      user := FindByEmail(u.email).value;
    }

    /** `findByEmail`: the first row with that email, or nothing. */
    function FindByEmail(email: string): (r: Option<UserRow>)
      reads this
      ensures r.None? <==> forall i :: 0 <= i < |rows| ==> rows[i].email != email
      ensures r.Some? ==> r.value in rows && r.value.email == email
    {
      First(rows, EmailIs(email))
    }

    /** `findByUsername`: the first row with that name, or nothing. */
    function FindByUsername(name: string): (r: Option<UserRow>)
      reads this
      ensures r.None? <==> forall i :: 0 <= i < |rows| ==> rows[i].name != name
      ensures r.Some? ==> r.value in rows && r.value.name == name
    {
      First(rows, NameIs(name))
    }

    /** `findById`: the row with that id, or nothing. */
    function FindById(id: int): (r: Option<UserRow>)
      reads this
      ensures r.None? <==> forall i :: 0 <= i < |rows| ==> rows[i].id != id
      ensures r.Some? ==> r.value in rows && r.value.id == id
    {
      First(rows, IdIs(id))
    }

    /** Ids are unique, so a lookup by a row's id finds that row. */
    lemma FindByIdFindsRow(i: int)
      requires Valid() && 0 <= i < |rows|
      ensures FindById(rows[i].id) == Some(rows[i])
    {
      FirstOfUnique(rows, UserId, IdIs(rows[i].id), i);
    }

    /**
     * `updateUserProfilePicture`: only `profile_pic` of the row with that id changes; the answer is
     * whether a row matched.
     */
    method UpdateUserProfilePicture(userId: int, url: string) returns (updated: bool)
      requires Valid()
      modifies this
      ensures Valid()
      ensures updated <==> exists i :: 0 <= i < |old(rows)| && old(rows)[i].id == userId
      ensures rows == UpdateWhere(old(rows), IdIs(userId), WithPicture(url)) && nextId == old(nextId)
    {
      updated := FindById(userId).Some?;
      var changed := UpdateWhere(rows, IdIs(userId), WithPicture(url));
      assert forall i :: 0 <= i < |rows| ==> changed[i].id == rows[i].id;
      rows := changed;
    }
  }

  /**
   * A picture update changes that row's `profile_pic` and nothing else: every other column of it
   * and every other row stay as they were.
   */
  lemma PictureUpdateEffect(rows: seq<UserRow>, userId: int, url: string, i: int)
    requires 0 <= i < |rows|
    ensures var r := UpdateWhere(rows, IdIs(userId), WithPicture(url));
            && (rows[i].id != userId ==> r[i] == rows[i])
            && (rows[i].id == userId ==> r[i].profilePic == url && r[i].(profilePic := rows[i].profilePic) == rows[i])
  {
  }
}
