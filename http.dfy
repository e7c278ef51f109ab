/** What a handler can observe and write: the response object `res` and the request's `req.user`. */
module Http {
  import opened Wrappers
  import opened Records

  /** The JSON bodies the handlers send. */
  datatype Body =
    | Message(message: string)
    | MessageWithId(message: string, id: int)
    | ErrorText(error: string)
    | Uploaded(message: string, imageUrl: string)
    | Failure(success: bool, message: string)
    | GameList(games: seq<GameRow>)
    | GameItem(game: GameRow)
    | ReviewList(reviews: seq<ReviewRow>)
    | ReviewItem(review: ReviewRow)
    | UserDataItem(data: UserData)
    | Recommendations(payload: string)
    | FullUser(user: UserRow)
    | Profile(id: int, name: string, email: string, profilePic: string,
               themePreference: Option<string>, userDataId: Option<int>)
    | Registered(idText: string, name: string, email: string, profilePic: string,
                 themePreference: Option<string>, userDataId: Option<int>)
    | SignedIn(idText: string, name: string, email: string)
    | ExternalUser(id: int, name: string, email: string)
    | AuthState(loggedIn: bool, userId: Option<int>)

  datatype Response = Response(status: int, body: Body)

  /** A `Set-Cookie` for `jwt`: a token signed for a user id text, a raw value, or the clearing write. */
  datatype CookieWrite = IssueToken(userIdText: string) | SetRaw(value: string) | ClearToken

  /** What `req.cookies.jwt` holds: nothing, a string, or a parsed non-string (a `j:` JSON cookie). */
  datatype CookieValue = NoCookie | TextCookie(text: string) | OtherCookie

  /** The response object: the responses sent and the cookie writes, in order. */
  class Reply {
    var sent: seq<Response>
    var cookies: seq<CookieWrite>

    constructor ()
      ensures sent == [] && cookies == []
    {
      sent := [];
      cookies := [];
    }

    /** Exactly one response was added since `before`. */
    ghost predicate OneMoreSince(before: seq<Response>)
      reads this
    {
      |sent| == |before| + 1 && sent[..|before|] == before
    }

    /** The most recent response. */
    function Last(): Response
      reads this
      requires sent != []
    {
      sent[|sent| - 1]
    }

    /** `res.status(status).json(body)`. */
    method Send(status: int, body: Body)
      modifies this
      ensures sent == old(sent) + [Response(status, body)]
      ensures cookies == old(cookies)
    {
      sent := sent + [Response(status, body)];
    }

    /** `res.cookie('jwt', ...)` or `res.clearCookie`-style write. */
    method SetCookie(c: CookieWrite)
      modifies this
      ensures cookies == old(cookies) + [c]
      ensures sent == old(sent)
    {
      cookies := cookies + [c];
    }
  }

  /** The request: its `jwt` cookie and `req.user`, which the authentication middleware sets. */
  class Request {
    const jwt: CookieValue
    var user: Option<UserRow>

    constructor (jwt: CookieValue, user: Option<UserRow>)
      ensures this.jwt == jwt && this.user == user
    {
      this.jwt := jwt;
      this.user := user;
    }
  }
}
