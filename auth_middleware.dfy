/**
 * `authMiddleware.ts`: the `authenticate` ladder in front of the protected routes. Token
 * verification is `jsonwebtoken`, a foreign library; it enters as `verify(token, secret)`, the
 * user id the token carries or `None` when verification throws.
 */
module AuthMiddleware {
  import opened Wrappers
  import opened Seqs
  import opened Records
  import opened Http
  import opened UserModel

  /** The outcome of the ladder: a refusal to send, or the user to attach before calling `next`. */
  datatype Gate = Refuse(response: Response) | Admit(user: UserRow)

  /** `process.env.JWT_SECRET` is set and not empty. */
  predicate HasSecret(secret: Option<string>) {
    secret.Some? && secret.value != ""
  }

  /** `req.cookies.jwt` is a non-empty string. */
  predicate HasToken(jwt: CookieValue) {
    jwt.TextCookie? && jwt.text != ""
  }

  /**
   * The ladder in order: secret, token, verification, user lookup. A missing secret is reported
   * before anything about the token is looked at, and every other refusal is a 401.
   */
  function Decide(secret: Option<string>, jwt: CookieValue, verify: (string, string) -> Option<int>,
                  users: seq<UserRow>): (g: Gate)
    ensures !HasSecret(secret) ==> g == Refuse(Response(500, Message("Server error: Missing secret key")))
    ensures g.Refuse? ==> g.response.status == (if HasSecret(secret) then 401 else 500)
  {
    if !HasSecret(secret) then Refuse(Response(500, Message("Server error: Missing secret key")))
    else if !HasToken(jwt) then Refuse(Response(401, Message("Unauthorized: No valid token provided")))
    else
      match verify(jwt.text, secret.value)
      case None => Refuse(Response(401, Message("Unauthorized: Invalid token")))
      case Some(id) =>
        match First(users, IdIs(id))
        case None => Refuse(Response(401, Message("Unauthorized: User not found")))
        case Some(u) => Admit(u)
  }

  /**
   * A request is admitted exactly when the secret is set, the token verifies to an id, and a user
   * with that id exists; the admitted user is that user.
   */
  lemma AdmitIff(secret: Option<string>, jwt: CookieValue, verify: (string, string) -> Option<int>,
                 users: seq<UserRow>)
    ensures Decide(secret, jwt, verify, users).Admit? <==>
              HasSecret(secret) && HasToken(jwt) && verify(jwt.text, secret.value).Some?
              && exists i :: 0 <= i < |users| && users[i].id == verify(jwt.text, secret.value).value
    ensures Decide(secret, jwt, verify, users).Admit? ==>
              var u := Decide(secret, jwt, verify, users).user;
              u in users && u.id == verify(jwt.text, secret.value).value
  {
    if HasSecret(secret) && HasToken(jwt) && verify(jwt.text, secret.value).Some? {
      var id := verify(jwt.text, secret.value).value;
      var found := First(users, IdIs(id));
      if found.None? {
        assert forall i :: 0 <= i < |users| ==> !IdIs(id)(users[i]);
      } else {
        var i :| 0 <= i < |users| && users[i] == found.value && IdIs(id)(users[i]);
      }
    }
  }

  /**
   * `authenticate`: either one refusal is sent and `next` is not called, or `req.user` is set to
   * the user and `next` is called with nothing sent.
   */
  method Authenticate(req: Request, res: Reply, users: UserTable, secret: Option<string>,
                      verify: (string, string) -> Option<int>) returns (next: bool)
    modifies req, res
    ensures next <==> res.sent == old(res.sent)
    ensures !next ==> |res.sent| == |old(res.sent)| + 1
    ensures match Decide(secret, req.jwt, verify, users.rows)
            case Refuse(r) => !next && res.sent == old(res.sent) + [r] && req.user == old(req.user)
            case Admit(u) => next && req.user == Some(u)
    ensures res.cookies == old(res.cookies)
  {
    var token := req.jwt;
    if secret.None? || secret.value == "" {
      res.Send(500, Message("Server error: Missing secret key"));
      return false;
    }
    if !token.TextCookie? || token.text == "" {
      res.Send(401, Message("Unauthorized: No valid token provided"));
      return false;
    }
    var decoded := verify(token.text, secret.value);
    if decoded.None? {
      res.Send(401, Message("Unauthorized: Invalid token"));
      return false;
    }
    var user := users.FindById(decoded.value);
    if user.None? {
      res.Send(401, Message("Unauthorized: User not found"));
      return false;
    }
    req.user := user;
    return true;
  }
}
