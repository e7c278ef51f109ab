/** The rows of the four tables and the request shapes that write them (the server's `interfaces`). */
module Records {
  import opened Wrappers
  import opened Strings

  /**
   * A row of `games`. `tags` and `platforms` hold JSON text (`None` is SQL NULL); `genre` is one
   * comma-separated string or NULL.
   */
  datatype GameRow = GameRow(
    gameId: int,
    title: string,
    description: string,
    genre: Option<string>,
    tags: Option<string>,
    platforms: Option<string>,
    playtimeEstimate: int,
    developer: string,
    publisher: string,
    gameMode: string,
    releaseDate: Option<string>,
    reviewRating: int,
    coverImage: Option<string>)

  /** A game before insertion: no id yet, lists not yet encoded (`None` is an absent list). */
  datatype NewGame = NewGame(
    title: string,
    description: string,
    genre: Option<string>,
    tags: Option<seq<string>>,
    platforms: Option<seq<string>>,
    playtimeEstimate: int,
    developer: string,
    publisher: string,
    gameMode: string,
    releaseDate: Option<string>,
    reviewRating: int,
    coverImage: Option<string>)

  /** The characters of an unquoted SQL name: ASCII letters, digits and `_`. */
  predicate NameChar(c: char) {
    'a' <= c <= 'z' || 'A' <= c <= 'Z' || '0' <= c <= '9' || c == '_'
  }

  /** A key that the `${key} = ?` text turns into one SQL name and nothing more. */
  predicate PlainName(k: string) {
    k != [] && forall i :: 0 <= i < |k| ==> NameChar(k[i])
  }

  /** Every column of `games`, the key and the timestamps included. */
  const GameColumns: set<string> :=
    {"game_id", "title", "description", "genre", "tags", "platforms", "playtime_estimate", "developer",
     "publisher", "game_mode", "release_date", "review_rating", "cover_image", "created_at", "updated_at"}

  /** Every column of `reviews`, the key and the timestamps included. */
  const ReviewColumns: set<string> :=
    {"review_id", "user_id", "game_id", "rating", "review_text", "created_at", "updated_at"}

  /** The column names of `games` are written in lower case, so each is its own lower case. */
  lemma GameColumnsLower()
    ensures forall n :: n in GameColumns ==> ToLower(n) == n
  {
    forall n | n in GameColumns ensures ToLower(n) == n {
      ToLowerOfLower(n);
    }
  }

  /** The column names of `reviews` are their own lower case too. */
  lemma ReviewColumnsLower()
    ensures forall n :: n in ReviewColumns ==> ToLower(n) == n
  {
    forall n | n in ReviewColumns ensures ToLower(n) == n {
      ToLowerOfLower(n);
    }
  }

  /**
   * A body key that names no column of `games`: a plain name that matches none of them in any
   * letter case (MySQL compares column names without regard to case).
   */
  type UnknownGameName = k: string | PlainName(k) && ToLower(k) !in GameColumns witness "x"

  /** A body key that names no column of `reviews`, in the same sense. */
  type UnknownReviewName = k: string | PlainName(k) && ToLower(k) !in ReviewColumns witness "x"

  /**
   * One entry of a `Partial<Game>` update, as `Object.entries` lists it. The body is passed on
   * unfiltered, so a key that is no column of `games` is an entry too: the statement naming it
   * fails, whatever value it carries.
   */
  datatype GameField =
    | SetTitle(title: string)
    | SetDescription(description: string)
    | SetGenre(genre: Option<string>)
    | SetTags(tags: seq<string>)
    | SetPlatforms(platforms: seq<string>)
    | SetPlaytimeEstimate(playtimeEstimate: int)
    | SetDeveloper(developer: string)
    | SetPublisher(publisher: string)
    | SetGameMode(gameMode: string)
    | SetReleaseDate(releaseDate: Option<string>)
    | SetReviewRating(reviewRating: int)
    | SetCoverImage(coverImage: Option<string>)
    | UnknownGameKey(key: UnknownGameName)

  /** A row of `reviews`. */
  datatype ReviewRow = ReviewRow(reviewId: int, userId: int, gameId: int, rating: int, reviewText: string)

  /**
   * One entry of a `Partial<Review>` update (the request body, passed on unfiltered); a key that is
   * no column of `reviews` makes the statement fail.
   */
  datatype ReviewField =
    | SetUserId(userId: int)
    | SetGameId(gameId: int)
    | SetRating(rating: int)
    | SetReviewText(reviewText: string)
    | UnknownReviewKey(key: UnknownReviewName)

  /** A row of `users`; `password` holds the hash. */
  datatype UserRow = UserRow(
    id: int,
    name: string,
    email: string,
    password: string,
    profilePic: string,
    themePreference: Option<string>,
    userDataId: Option<int>)

  /** A stored column value of `user_data`: JSON text, or anything that is not a string. */
  datatype Cell = Text(text: string) | NonText

  /** A row of `user_data`: five list columns holding JSON text. */
  datatype UserDataRow = UserDataRow(
    id: int,
    searchHistory: Cell,
    interests: Cell,
    viewHistory: Cell,
    reviewHistory: Cell,
    genres: Cell)

  /** A `user_data` row as the application sees it: the lists decoded. */
  datatype UserData = UserData(
    id: int,
    searchHistory: seq<string>,
    interests: seq<string>,
    viewHistory: seq<string>,
    reviewHistory: seq<string>,
    genres: seq<string>)

  /** A `Partial<UserData>` as it arrives in a request body: any list may be absent. */
  datatype UserDataInput = UserDataInput(
    searchHistory: Option<seq<string>>,
    interests: Option<seq<string>>,
    viewHistory: Option<seq<string>>,
    reviewHistory: Option<seq<string>>,
    genres: Option<seq<string>>)
}
