/**
 * `userController.ts`. The lookups by email and by name answer the stored row as it is, password
 * hash included; only `getUser` answers a selection of columns.
 */
module UserController {
  import opened Wrappers
  import opened Seqs
  import opened Records
  import opened Http
  import opened UserModel

  /** The columns `getUser` answers: everything but the password (and the timestamps, not modelled). */
  function ProfileOf(u: UserRow): Body {
    Profile(u.id, u.name, u.email, u.profilePic, u.themePreference, u.userDataId)
  }

  /** The profile does not depend on the password: two rows differing only there answer the same. */
  lemma ProfileHidesPassword(u: UserRow, password: string)
    ensures ProfileOf(u.(password := password)) == ProfileOf(u)
  {
  }

  /**
   * `getUser`: no user id on the request (absent, or the falsy 0) is 401; a user no longer in the
   * table is 404; otherwise 200 with the stored row's profile.
   */
  method GetUser(users: UserTable, req: Request, res: Reply)
    modifies res
    ensures req.user.None? || req.user.value.id == 0 ==>
              res.sent == old(res.sent) + [Response(401, Message("Unauthorized"))]
    ensures req.user.Some? && req.user.value.id != 0 ==> res.sent == old(res.sent) + [
              match users.FindById(req.user.value.id)
              case None => Response(404, Message("User not found"))
              case Some(u) => Response(200, ProfileOf(u))]
    ensures res.cookies == old(res.cookies)
  {
    var user := req.user;
    if user.None? || user.value.id == 0 {
      res.Send(401, Message("Unauthorized"));
      return;
    }
    var fullUserData := users.FindById(user.value.id);
    if fullUserData.None? {
      res.Send(404, Message("User not found"));
      return;
    }
    res.Send(200, ProfileOf(fullUserData.value));
  }

  /**
   * `getUserByEmail`: an empty parameter is 400, an unknown email 404, and otherwise 200 with the
   * first row with that email, unchanged.
   */
  method GetUserByEmail(users: UserTable, email: string, res: Reply)
    modifies res
    ensures email == "" ==> res.sent == old(res.sent) + [Response(400, Message("Missing email parameter"))]
    ensures email != "" && (forall i :: 0 <= i < |users.rows| ==> users.rows[i].email != email) ==>
              res.sent == old(res.sent) + [Response(404, Message("User not found"))]
    ensures email != "" && (exists i :: 0 <= i < |users.rows| && users.rows[i].email == email) ==>
              res.sent == old(res.sent) + [Response(200, FullUser(users.FindByEmail(email).value))]
    ensures res.cookies == old(res.cookies)
  {
    if email == "" {
      res.Send(400, Message("Missing email parameter"));
      return;
    }
    var user := users.FindByEmail(email);
    if user.None? {
      res.Send(404, Message("User not found"));
      return;
    }
    res.Send(200, FullUser(user.value));
  }

  /**
   * `getUserByUserName`: an empty parameter is 400, an unknown name 404, and otherwise 200 with the
   * first row with that name, unchanged.
   */
  method GetUserByUserName(users: UserTable, name: string, res: Reply)
    modifies res
    ensures name == "" ==> res.sent == old(res.sent) + [Response(400, Message("Missing username parameter"))]
    ensures name != "" && (forall i :: 0 <= i < |users.rows| ==> users.rows[i].name != name) ==>
              res.sent == old(res.sent) + [Response(404, Message("User not found"))]
    ensures name != "" && (exists i :: 0 <= i < |users.rows| && users.rows[i].name == name) ==>
              res.sent == old(res.sent) + [Response(200, FullUser(users.FindByUsername(name).value))]
    ensures res.cookies == old(res.cookies)
  {
    if name == "" {
      res.Send(400, Message("Missing username parameter"));
      return;
    }
    var user := users.FindByUsername(name);
    if user.None? {
      res.Send(404, Message("User not found"));
      return;
    }
    res.Send(200, FullUser(user.value));
  }

  const UploadPrefix := "http://localhost:3000/uploads/"

  /** The address an uploaded file is served from. */
  function UploadUrl(filename: string): (url: string)
    ensures |url| == |UploadPrefix| + |filename|
  {
    UploadPrefix + filename
  }

  /** Distinct files get distinct addresses. */
  lemma UploadUrlInjective(a: string, b: string)
    ensures UploadUrl(a) == UploadUrl(b) <==> a == b
  {
    if UploadUrl(a) == UploadUrl(b) {
      assert a == UploadUrl(a)[|UploadPrefix|..];
      assert b == UploadUrl(b)[|UploadPrefix|..];
    }
  }

  /** After a picture update, the lookup by that id finds the new address. */
  lemma PictureReadsBack(rows: seq<UserRow>, userId: int, url: string, i: int)
    requires Increasing(rows, UserId) && 0 <= i < |rows| && rows[i].id == userId
    ensures First(UpdateWhere(rows, IdIs(userId), WithPicture(url)), IdIs(userId)) == Some(rows[i].(profilePic := url))
  {
    var changed := UpdateWhere(rows, IdIs(userId), WithPicture(url));
    assert forall k :: 0 <= k < |rows| ==> changed[k].id == rows[k].id;
    assert Increasing(changed, UserId);
    FirstOfUnique(changed, UserId, IdIs(userId), i);
  }

  /**
   * `updateUserProfilePicture`: without a file 400 and nothing changes; otherwise the picture of
   * the row with the body's `userId` becomes the upload address, 404 when no row has that id (an
   * absent id matches none), and 200 with the address.
   */
  method UpdateUserProfilePicture(users: UserTable, userId: Option<int>, file: Option<string>, res: Reply)
    requires users.Valid()
    modifies users, res
    ensures users.Valid() && users.nextId == old(users.nextId)
    ensures file.None? ==>
              res.sent == old(res.sent) + [Response(400, ErrorText("No file uploaded"))] && users.rows == old(users.rows)
    ensures file.Some? && userId.None? ==>
              res.sent == old(res.sent) + [Response(404, ErrorText("User not found"))] && users.rows == old(users.rows)
    ensures file.Some? && userId.Some? ==>
              && users.rows == UpdateWhere(old(users.rows), IdIs(userId.value), WithPicture(UploadUrl(file.value)))
              && res.sent == old(res.sent) + [
                   if exists i :: 0 <= i < |old(users.rows)| && old(users.rows)[i].id == userId.value
                   then Response(200, Uploaded("Profile picture uploaded successfully!", UploadUrl(file.value)))
                   else Response(404, ErrorText("User not found"))]
    ensures res.cookies == old(res.cookies)
  {
    if file.None? {
      res.Send(400, ErrorText("No file uploaded"));
      return;
    }
    var imageUrl := UploadUrl(file.value);
    if userId.None? {
      res.Send(404, ErrorText("User not found"));
      return;
    }
    var updateSuccessful := users.UpdateUserProfilePicture(userId.value, imageUrl);
    if !updateSuccessful {
      res.Send(404, ErrorText("User not found"));
      return;
    }
    res.Send(200, Uploaded("Profile picture uploaded successfully!", imageUrl));
  }
}
