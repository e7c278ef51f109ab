/**
 * `authController.ts` with the cookie helpers of `utils/auth.ts`. Signing and verifying tokens is
 * `jsonwebtoken` and password checks are `bcrypt`, both foreign: a token is `sign(userIdText)`,
 * verification is `verify(token, secret)` as in the authentication middleware, and
 * `matches(entered, stored)` is `bcrypt.compare`.
 */
module AuthController {
  import opened Wrappers
  import opened Seqs
  import opened Strings
  import opened Records
  import opened Http
  import opened JsNumbers
  import opened UserModel
  import opened UserDataModel
  import opened AuthMiddleware

  /** `id.toString()`. */
  function IdText(id: int): string {
    if id >= 0 then NatToString(id) else "-" + NatToString(-id)
  }

  lemma IdTextNonNegative(id: int)
    requires id >= 0
    ensures NumberOf(Some(IdText(id))) == Some(id)
  {
    NumberOfNatToString(id);
  }

  lemma IdTextNegative(id: int)
    requires id < 0
    ensures NumberOf(Some(IdText(id))) == Some(id)
  {
    var n: nat := -id;
    var ds := NatToString(n);
    assert IdText(id) == "-" + ds;
    DigitsOfNatToString(n);
    NumberOfSignedDigits(ds, n);
  }

  /** The id text a token carries reads back, through `Number`, as the id it was written from. */
  lemma IdTextRoundTrip(id: int)
    ensures NumberOf(Some(IdText(id))) == Some(id)
  {
    if id >= 0 {
      IdTextNonNegative(id);
    } else {
      IdTextNegative(id);
    }
  }

  /**
   * What the browser holds as `jwt` after a response's cookie writes: the last write wins, a
   * clearing write (empty value, expired) removes the cookie, and an issued token is `sign` of the
   * id text.
   */
  function ClientCookie(before: CookieValue, writes: seq<CookieWrite>, sign: string -> string): (c: CookieValue)
    ensures writes == [] ==> c == before
    ensures writes != [] && writes[|writes| - 1].ClearToken? ==> c == NoCookie
    ensures writes != [] && writes[|writes| - 1].IssueToken? ==> c == TextCookie(sign(writes[|writes| - 1].userIdText))
    ensures writes != [] && writes[|writes| - 1].SetRaw? ==> c == TextCookie(writes[|writes| - 1].value)
  {
    if writes == [] then before
    else
      match writes[|writes| - 1]
      case IssueToken(t) => TextCookie(sign(t))
      case SetRaw(v) => TextCookie(v)
      case ClearToken => NoCookie
  }

  /**
   * How `jsonwebtoken` is used here: a signed token is never empty, and verifying it with the same
   * secret yields the id text it carries, which the `id = ?` lookup compares as a number.
   */
  ghost predicate TokenScheme(sign: string -> string, verify: (string, string) -> Option<int>, secret: string) {
    forall t :: sign(t) != "" && verify(sign(t), secret) == NumberOf(Some(t))
  }

  /**
   * The body `authStatus` answers with status 200 in every case: a falsy cookie is logged out at
   * once; a non-string cookie or a missing secret makes `jwt.verify` throw, which is caught and
   * also logged out.
   */
  function AuthStatusBody(secret: Option<string>, jwt: CookieValue, verify: (string, string) -> Option<int>,
                          users: seq<UserRow>): (b: Body)
    ensures b.AuthState?
    ensures b.loggedIn <==> Decide(secret, jwt, verify, users).Admit?
    ensures b.loggedIn ==> b.userId == Some(Decide(secret, jwt, verify, users).user.id)
    ensures !b.loggedIn ==> b.userId.None?
  {
    if jwt.NoCookie? || jwt == TextCookie("") then AuthState(false, None)
    else if jwt.OtherCookie? || !HasSecret(secret) then AuthState(false, None)
    else
      match verify(jwt.text, secret.value)
      case None => AuthState(false, None)
      case Some(id) =>
        match First(users, IdIs(id))
        case None => AuthState(false, None)
        case Some(u) => AuthState(true, Some(u.id))
  }

  /** `authStatus`: always one 200 answer, the body above; no cookie is written. */
  method AuthStatus(req: Request, res: Reply, users: UserTable, secret: Option<string>,
                    verify: (string, string) -> Option<int>)
    modifies res
    ensures res.sent == old(res.sent) + [Response(200, AuthStatusBody(secret, req.jwt, verify, users.rows))]
    ensures res.cookies == old(res.cookies)
  {
    var token := req.jwt;
    if token.NoCookie? || token == TextCookie("") {
      res.Send(200, AuthState(false, None));
      return;
    }
    if token.OtherCookie? || secret.None? || secret.value == "" {
      res.Send(200, AuthState(false, None));
      return;
    }
    var decoded := verify(token.text, secret.value);
    if decoded.None? {
      res.Send(200, AuthState(false, None));
      return;
    }
    var user := users.FindById(decoded.value);
    if user.Some? {
      res.Send(200, AuthState(true, Some(user.value.id)));
    } else {
      res.Send(200, AuthState(false, None));
    }
  }

  /** A cookie holding a token issued for a stored user is admitted as that user. */
  lemma IssuedTokenAdmits(secret: string, sign: string -> string, verify: (string, string) -> Option<int>,
                          users: seq<UserRow>, before: CookieValue, writes: seq<CookieWrite>, i: int)
    requires TokenScheme(sign, verify, secret) && secret != ""
    requires Increasing(users, UserId) && 0 <= i < |users|
    ensures Decide(Some(secret), ClientCookie(before, writes + [IssueToken(IdText(users[i].id))], sign), verify, users)
            == Admit(users[i])
    ensures AuthStatusBody(Some(secret), ClientCookie(before, writes + [IssueToken(IdText(users[i].id))], sign), verify, users)
            == AuthState(true, Some(users[i].id))
  {
    var u := users[i];
    var token := sign(IdText(u.id));
    assert ClientCookie(before, writes + [IssueToken(IdText(u.id))], sign) == TextCookie(token);
    assert token != "" && verify(token, secret) == NumberOf(Some(IdText(u.id)));
    IdTextRoundTrip(u.id);
    FirstOfUnique(users, UserId, IdIs(u.id), i);
  }

  /** After a logout's cookie write the browser sends no token: logged out, and refused by `authenticate`. */
  lemma LogoutEndsSession(secret: Option<string>, sign: string -> string, verify: (string, string) -> Option<int>,
                          users: seq<UserRow>, before: CookieValue, writes: seq<CookieWrite>)
    ensures var jwt := ClientCookie(before, writes + [ClearToken], sign);
            && AuthStatusBody(secret, jwt, verify, users) == AuthState(false, None)
            && Decide(secret, jwt, verify, users).Refuse?
  {
    assert ClientCookie(before, writes + [ClearToken], sign) == NoCookie;
  }

  /** The picture stored when the body has none: `profile_pic || default`. */
  const DefaultProfilePicture := "application/web/public/Default-Profile-Picture.jpg"

  function PictureOrDefault(given: Option<string>): (pic: string)
    ensures pic != ""
    ensures given.Some? && given.value != "" ==> pic == given.value
    ensures given.None? || given.value == "" ==> pic == DefaultProfilePicture
  {
    if given.Some? && given.value != "" then given.value else DefaultProfilePicture
  }

  /** The fields `registerUser` reads from the body. */
  datatype RegisterBody = RegisterBody(name: string, email: string, password: string,
                                       profilePic: Option<string>, themePreference: Option<string>)

  /** The user-data row a registration creates: five empty lists. */
  function EmptyLists(): UserDataInput {
    UserDataInput(Some([]), Some([]), Some([]), Some([]), Some([]))
  }

  /** A new account's user data reads back as five empty lists. */
  lemma EmptyListsReadBack(rows: seq<UserDataRow>, id: int)
    requires forall i :: 0 <= i < |rows| ==> rows[i].id != id
    ensures ReadRow(rows + [StoredRow(id, EmptyLists())], id) == Some(UserData(id, [], [], [], [], []))
  {
    ReadAfterCreate(rows, id, EmptyLists());
  }

  /**
   * The refusals of `registerUser`: the email is checked before the name, and `None` means both
   * are free.
   */
  function RegisterRefusal(users: seq<UserRow>, body: RegisterBody): (r: Option<Response>)
    ensures r.None? <==> forall i :: 0 <= i < |users| ==> users[i].email != body.email && users[i].name != body.name
    ensures (exists i :: 0 <= i < |users| && users[i].email == body.email) ==>
              r == Some(Response(400, Message("A user with this email already exists")))
    ensures (forall i :: 0 <= i < |users| ==> users[i].email != body.email)
            && (exists i :: 0 <= i < |users| && users[i].name == body.name) ==>
              r == Some(Response(400, Message("This username is already taken")))
    ensures r.Some? ==> r.value.status == 400
  {
    if First(users, EmailIs(body.email)).Some? then Some(Response(400, Message("A user with this email already exists")))
    else if First(users, NameIs(body.name)).Some? then Some(Response(400, Message("This username is already taken")))
    else None
  }

  /** The user `registerUser` passes to `create`: the user-data id links the two new rows. */
  function NewAccount(body: RegisterBody, userDataId: int): (u: NewUser)
    ensures u.userDataId == Some(userDataId) && u.profilePic == PictureOrDefault(body.profilePic)
    ensures u.name == body.name && u.email == body.email && u.password == body.password
  {
    NewUser(body.name, body.email, body.password, PictureOrDefault(body.profilePic), body.themePreference, Some(userDataId))
  }

  /**
   * `generateToken`: `jwt.sign` is given `JWT_SECRET || ''` and throws on the empty secret before
   * any cookie is written (`thrown`); otherwise the token cookie for the id text is set.
   */
  method GenerateToken(res: Reply, userIdText: string, secret: Option<string>) returns (thrown: bool)
    modifies res
    ensures thrown <==> !HasSecret(secret)
    ensures res.cookies == old(res.cookies) + (if thrown then [] else [IssueToken(userIdText)])
    ensures res.sent == old(res.sent)
  {
    thrown := !HasSecret(secret);
    if !thrown {
      res.SetCookie(IssueToken(userIdText));
    }
  }

  /**
   * `registerUser`: a refusal creates nothing; otherwise a user-data row of five empty lists, then
   * the user linked to it, then a token cookie for the new id, then 201 with the id as text and no
   * password. Without a secret the token cannot be signed: both rows stay, no cookie is set and
   * the catch answers 500.
   */
  method RegisterUser(users: UserTable, userData: UserDataTable, body: RegisterBody, hash: string -> string,
                      secret: Option<string>, res: Reply)
    requires users.Valid() && userData.Valid()
    modifies users, userData, res
    ensures users.Valid() && userData.Valid()
    ensures RegisterRefusal(old(users.rows), body).Some? ==>
              && res.sent == old(res.sent) + [RegisterRefusal(old(users.rows), body).value]
              && res.cookies == old(res.cookies)
              && users.rows == old(users.rows) && users.nextId == old(users.nextId)
              && userData.rows == old(userData.rows) && userData.nextId == old(userData.nextId)
    ensures RegisterRefusal(old(users.rows), body).None? ==>
              && userData.rows == old(userData.rows) + [StoredRow(old(userData.nextId), EmptyLists())]
              && users.rows == old(users.rows) + [StoredUser(old(users.nextId), NewAccount(body, old(userData.nextId)), hash)]
    ensures RegisterRefusal(old(users.rows), body).None? && HasSecret(secret) ==>
              var id := old(users.nextId);
              && res.cookies == old(res.cookies) + [IssueToken(IdText(id))]
              && res.sent == old(res.sent) + [Response(201, Registered(IdText(id), body.name, body.email,
                                                 PictureOrDefault(body.profilePic), body.themePreference,
                                                 Some(old(userData.nextId))))]
    ensures RegisterRefusal(old(users.rows), body).None? && !HasSecret(secret) ==>
              && res.cookies == old(res.cookies)
              && res.sent == old(res.sent) + [Response(500, Message("Error registering user"))]
  {
    var byEmail := users.FindByEmail(body.email);
    if byEmail.Some? {
      res.Send(400, Message("A user with this email already exists"));
      return;
    }
    var byName := users.FindByUsername(body.name);
    if byName.Some? {
      res.Send(400, Message("This username is already taken"));
      return;
    }
    var userDataId := userData.CreateUserData(EmptyLists());
    var user := users.Create(NewAccount(body, userDataId), hash);
    AnswerRegistered(user, secret, res);
  }

  /**
   * The end of `registerUser`, once both rows exist: the token cookie and 201 with the new user,
   * or, when the token cannot be signed, no cookie and the catch's 500.
   */
  method AnswerRegistered(user: UserRow, secret: Option<string>, res: Reply)
    modifies res
    ensures HasSecret(secret) ==>
              && res.cookies == old(res.cookies) + [IssueToken(IdText(user.id))]
              && res.sent == old(res.sent) + [Response(201, Registered(IdText(user.id), user.name, user.email,
                                                 user.profilePic, user.themePreference, user.userDataId))]
    ensures !HasSecret(secret) ==>
              res.cookies == old(res.cookies) && res.sent == old(res.sent) + [Response(500, Message("Error registering user"))]
  {
    var userIdText := IdText(user.id);
    var thrown := GenerateToken(res, userIdText, secret);
    if thrown {
      res.Send(500, Message("Error registering user"));
      return;
    }
    res.Send(201, Registered(userIdText, user.name, user.email, user.profilePic, user.themePreference, user.userDataId));
  }

  /** The fields `authenticateUser` reads from the body. */
  datatype LoginBody = LoginBody(email: Option<string>, name: Option<string>, password: string)

  /**
   * The row test of the `authenticateUser` lookup: by email when the email is truthy, else by name;
   * without either no row matches.
   */
  function LoginKey(body: LoginBody): UserRow -> bool {
    if body.email.Some? && body.email.value != "" then EmailIs(body.email.value)
    else if body.name.Some? then NameIs(body.name.value)
    else (u: UserRow) => false
  }

  /**
   * The user `authenticateUser` signs in: the first row the lookup finds, kept only when the
   * password matches its hash; there is one exactly when that first row's password matches.
   */
  function SignedInUser(users: seq<UserRow>, body: LoginBody, matches: (string, string) -> bool): (r: Option<UserRow>)
    ensures r.Some? <==> exists i :: IsFirst(users, LoginKey(body), i) && matches(body.password, users[i].password)
    ensures r.Some? ==> exists i :: IsFirst(users, LoginKey(body), i) && r.value == users[i]
    ensures r.Some? ==> matches(body.password, r.value.password)
    ensures r.Some? && body.email.Some? && body.email.value != "" ==> r.value.email == body.email.value
    ensures r.Some? && (body.email.None? || body.email.value == "") ==> body.name.Some? && r.value.name == body.name.value
  {
    var candidate := First(users, LoginKey(body));
    FirstAtFirstIndex(users, LoginKey(body));
    if candidate.Some? && matches(body.password, candidate.value.password) then candidate else None
  }

  /**
   * Whoever registered can sign in with the same email and password, provided the password check
   * accepts every password against its own hash.
   */
  lemma RegisteredUserSignsIn(users: seq<UserRow>, id: int, u: NewUser, hash: string -> string,
                              matches: (string, string) -> bool)
    requires forall p :: matches(p, hash(p))
    requires u.email != ""
    requires forall i :: 0 <= i < |users| ==> users[i].email != u.email
    ensures SignedInUser(users + [StoredUser(id, u, hash)], LoginBody(Some(u.email), None, u.password), matches)
            == Some(StoredUser(id, u, hash))
  {
    var row := StoredUser(id, u, hash);
    FindAfterInsert(users, row);
    assert matches(u.password, hash(u.password));
  }

  /**
   * `authenticateUser`: a signed-in user gets a token cookie and 200 with the id as text; an
   * unknown user and a wrong password get the same 401 and no cookie. Without a secret the signing
   * throws and, with no `catch` in the handler, nothing is answered.
   */
  method AuthenticateUser(users: UserTable, body: LoginBody, matches: (string, string) -> bool,
                          secret: Option<string>, res: Reply)
    modifies res
    ensures SignedInUser(users.rows, body, matches).None? ==>
              && res.sent == old(res.sent) + [Response(401, Message("User not found / password incorrect"))]
              && res.cookies == old(res.cookies)
    ensures SignedInUser(users.rows, body, matches).Some? && HasSecret(secret) ==>
              var u := SignedInUser(users.rows, body, matches).value;
              && res.cookies == old(res.cookies) + [IssueToken(IdText(u.id))]
              && res.sent == old(res.sent) + [Response(200, SignedIn(IdText(u.id), u.name, u.email))]
    ensures SignedInUser(users.rows, body, matches).Some? && !HasSecret(secret) ==>
              res.cookies == old(res.cookies) && res.sent == old(res.sent)
  {
    var user: Option<UserRow>;
    if body.email.Some? && body.email.value != "" {
      user := users.FindByEmail(body.email.value);
    } else if body.name.Some? {
      user := users.FindByUsername(body.name.value);
    } else {
      user := None;
    }
    if user.Some? && matches(body.password, user.value.password) {
      var userIdText := IdText(user.value.id);
      var thrown := GenerateToken(res, userIdText, secret);
      if thrown {
        return;
      }
      res.Send(200, SignedIn(userIdText, user.value.name, user.value.email));
    } else {
      res.Send(401, Message("User not found / password incorrect"));
    }
  }

  /** `logoutUser`: the clearing cookie write, then 200, whatever the request. */
  method LogoutUser(res: Reply)
    modifies res
    ensures res.cookies == old(res.cookies) + [ClearToken]
    ensures res.sent == old(res.sent) + [Response(200, Message("User logged out"))]
  {
    res.SetCookie(ClearToken);
    res.Send(200, Message("User logged out"));
  }

  /** What the Google strategy hands the callback: an error or no user, or the user. */
  datatype GoogleOutcome = GoogleFailed | GoogleUser(user: UserRow)

  /**
   * `googleCallback` as written: `generateToken` sets the token cookie and returns nothing, and the
   * next `res.cookie('jwt', token)` writes that `undefined` as the text "undefined". Without a
   * secret the signing throws inside the strategy's verify step, whose `catch` hands the error back
   * to this callback as `err`: 400 and no cookie.
   */
  method GoogleCallbackAsWritten(outcome: GoogleOutcome, secret: Option<string>, res: Reply)
    modifies res
    ensures outcome.GoogleFailed? || !HasSecret(secret) ==>
              res.sent == old(res.sent) + [Response(400, Message("Google authentication failed"))] && res.cookies == old(res.cookies)
    ensures outcome.GoogleUser? && HasSecret(secret) ==>
              var u := outcome.user;
              && res.cookies == old(res.cookies) + [IssueToken(IdText(u.id)), SetRaw("undefined")]
              && res.sent == old(res.sent) + [Response(200, ExternalUser(u.id, u.name, u.email))]
  {
    if outcome.GoogleFailed? {
      res.Send(400, Message("Google authentication failed"));
      return;
    }
    var user := outcome.user;
    var thrown := GenerateToken(res, IdText(user.id), secret);
    if thrown {
      res.Send(400, Message("Google authentication failed"));
      return;
    }
    res.SetCookie(SetRaw("undefined"));
    res.Send(200, ExternalUser(user.id, user.name, user.email));
  }

  /**
   * After the callback as written the browser holds "undefined", which is no token: the Google user
   * is refused by `authenticate` and reported logged out, however valid the first cookie was.
   */
  lemma GoogleSessionLost(secret: string, sign: string -> string, verify: (string, string) -> Option<int>,
                          users: seq<UserRow>, before: CookieValue, writes: seq<CookieWrite>, u: UserRow)
    requires secret != "" && verify("undefined", secret).None?
    ensures var jwt := ClientCookie(before, writes + [IssueToken(IdText(u.id)), SetRaw("undefined")], sign);
            && Decide(Some(secret), jwt, verify, users) == Refuse(Response(401, Message("Unauthorized: Invalid token")))
            && AuthStatusBody(Some(secret), jwt, verify, users) == AuthState(false, None)
  {
    var w := writes + [IssueToken(IdText(u.id)), SetRaw("undefined")];
    assert w[|w| - 1] == SetRaw("undefined");
    assert ClientCookie(before, w, sign) == TextCookie("undefined");
  }

  /**
   * `googleCallback` as intended: the token cookie `generateToken` sets is the only write; a
   * missing secret still ends in 400, as above.
   */
  method GoogleCallback(outcome: GoogleOutcome, secret: Option<string>, res: Reply)
    modifies res
    ensures outcome.GoogleFailed? || !HasSecret(secret) ==>
              res.sent == old(res.sent) + [Response(400, Message("Google authentication failed"))] && res.cookies == old(res.cookies)
    ensures outcome.GoogleUser? && HasSecret(secret) ==>
              var u := outcome.user;
              && res.cookies == old(res.cookies) + [IssueToken(IdText(u.id))]
              && res.sent == old(res.sent) + [Response(200, ExternalUser(u.id, u.name, u.email))]
  {
    if outcome.GoogleFailed? {
      res.Send(400, Message("Google authentication failed"));
      return;
    }
    var user := outcome.user;
    var thrown := GenerateToken(res, IdText(user.id), secret);
    if thrown {
      res.Send(400, Message("Google authentication failed"));
      return;
    }
    res.Send(200, ExternalUser(user.id, user.name, user.email));
  }
}
