# Game catalogue server — a Dafny model

This project models the request handling of an Express/MySQL game-catalogue and review server.
It covers the four tables and the handlers in front of them:

- **`games`**: insert, the filtered search, the dynamic update, lookup by id, the limited
  listing and delete. The catalogue handlers sit on top: status selection and `limit`
  normalisation.
- **The RAWG import**: the HTML stripper, how one RAWG record becomes a `games` row (rating
  clamp, game mode, defaults), and the loop that skips bad records and stored titles before one
  bulk insert.
- **`user_data`**: five list columns stored as JSON text. The model includes a JSON
  encoder/decoder for lists of strings, in the shape `JSON.stringify` writes (section 5 and
  section 7 of RFC 8259), with its round trip proved. On top of it sit the ownership-gated
  handlers.
- **`reviews`**: the review table and its handlers, with the 401/400 checks on create and the
  404-then-403 check on update and delete.
- **`users`**: accounts, the `authenticate` middleware, registration, login, logout, the
  session status, the Google callback, the user lookups, the profile-picture update and the
  error handler.

How the source becomes Dafny:

- **Tables** are classes (`GameTable`, `ReviewTable`, `UserTable`, `UserDataTable`). Each holds
  its rows as a sequence in primary-key order, plus the auto-increment counter. `Valid()` states
  that ids increase strictly and lie below the counter. Row order matters to the source: `LIMIT`,
  "first row with this email", and the order of search results.
- **Statements** the models build (`WHERE 1=1 AND ...`, `UPDATE ... SET k = ?, ...`) are token
  sequences with their bound values. Their effect on the rows is stated as a filter or a row
  update.
- **Handlers** are methods that write `(status, body)` responses and cookie writes to a `Reply`
  object. `req.user` is a field of a `Request` object.
- **Foreign code** enters as function parameters:
  - `jsonwebtoken` signing is `sign` and verification is `verify`;
  - bcrypt hashing is `hash` and `bcrypt.compare` is `matches`;
  - the recommendation service is `recommend`.
- **`Number(x)`** of a path or query parameter is an `Option<int>`, with `None` for `NaN`. A `NaN`
  id reaches the database as `WHERE id = NaN`, which the database rejects, so the handler ends in
  its 500 branch. The model writes that 500 out where it follows from the id alone.

All source paths below are under `application/server/src/`, and the table cites them in full.

## Model

| member | source | states |
|---|---|---|
| GameModel.GameTable.AddGame | application/server/src/models/GameModel.ts:11-35 | one row is appended under the next id, with tags and platforms JSON-encoded; the other rows and the table invariant are kept |
| GameModel.StoredListsDecode | application/server/src/models/GameModel.ts:23-24 | the stored tags and platforms decode to the lists that were given, in the same order |
| GameModel.GameTable.FindGames | application/server/src/models/GameModel.ts:46-83 | the result is exactly the rows, in table order, that meet every active filter: title contains the query, genre contains one of the trimmed comma-separated terms, rating at least the minimum, mode equal |
| GameModel.SearchClausesMeaning | application/server/src/models/GameModel.ts:53-82 | a row satisfies the conditions the statement appends exactly when it meets the promised search |
| GameModel.SearchFilterMeaning | application/server/src/models/GameModel.ts:53-82 | filtering the table by the statement's conditions keeps the same rows as filtering by the promised search |
| GameModel.GenreClausesMeaning | application/server/src/models/GameModel.ts:63-67 | the `OR` of one `genre LIKE %term%` per trimmed term holds exactly when the genre contains one of the terms |
| GameModel.TitleClausesMeaning | application/server/src/models/GameModel.ts:57-60 | the title condition, present only for a non-empty query, holds exactly when the title contains the query |
| GameModel.RatingClausesMeaning | application/server/src/models/GameModel.ts:70-73 | the rating condition, present only for a number other than 0 or NaN, holds exactly when the rating reaches it |
| GameModel.ModeClausesMeaning | application/server/src/models/GameModel.ts:76-79 | the mode condition, present only for a non-empty mode, holds exactly when the mode is equal |
| GameModel.LikePattern | application/server/src/models/GameModel.ts:58-59 | `LIKE '%term%'` holds exactly when the column contains the term |
| GameModel.BuildSearch | application/server/src/models/GameModel.ts:53-82 | the bound values are those of the conditions the statement stands for, in their order, and there is one placeholder per value: one for the title, one per genre term, one for the rating, one for the mode |
| GameModel.SearchValues | application/server/src/models/GameModel.ts:53-82 | the conditions bind the `%query%` pattern, then one `%term%` pattern per genre term, then the rating, then the mode, each only when its filter is active |
| GameModel.ClauseValuesAppend | application/server/src/models/GameModel.ts:53-82 | the values of two condition lists in a row are the values of the first followed by those of the second |
| GameModel.DefaultSearchKeepsAll | application/server/src/models/GameModel.ts:46-51 | with no query, no genres, no rating and no mode, the search returns the whole table |
| GameModel.TrailingCommaMatchesAnyGenre | application/server/src/models/GameModel.ts:64-66 | a genre filter ending in a comma has an empty last term, so every row with a non-NULL genre passes |
| GameModel.LastGenreTermEmpty | application/server/src/models/GameModel.ts:64 | splitting and trimming a filter that ends in a comma gives an empty last term |
| GameModel.SplitEndingInSeparator | application/server/src/models/GameModel.ts:64 | `split` of a string ending in the separator ends with the empty piece |
| GameModel.Apply | application/server/src/models/GameModel.ts:113-124 | one `key = ?` assignment gives its column the bound value |
| GameModel.ApplyFrame | application/server/src/models/GameModel.ts:113-124 | one assignment leaves every other column as it was |
| Updates.LastWriteNone | application/server/src/models/GameModel.ts:113-121 | a column is written exactly when some update entry names it |
| Updates.LastWriteSingle | application/server/src/models/GameModel.ts:113-121 | a one-entry list writes only the column its entry names |
| Updates.LastWriteAppend | application/server/src/models/GameModel.ts:113-121 | in `a + b` the last write to a column is `b`'s when `b` writes it, else `a`'s |
| Updates.ApplyAllColumns | application/server/src/models/GameModel.ts:113-124 | when one assignment sets its column and leaves the others, the whole `SET` list leaves each column at its last written value or its old one |
| GameModel.ApplyAllColumns | application/server/src/models/GameModel.ts:113-124 | after the `SET` list each column holds the value of the last entry naming it, or its old value |
| GameModel.ApplyAllKeepsId | application/server/src/models/GameModel.ts:113-124 | no entry the model can express names `game_id`, so an update never changes it |
| GameModel.EntryColumnName | application/server/src/models/GameModel.ts:113-121 | the name an entry puts before its `= ?` is a column of `games` exactly when the entry is a known field, and it is never `game_id` in any letter case |
| GameModel.BuildSetList | application/server/src/models/GameModel.ts:113-121 | the loop yields one key and one bound value per entry, in order; only tags and platforms are JSON-encoded |
| GameModel.BuildUpdate | application/server/src/models/GameModel.ts:113-124 | the statement assigns the entries in order, `game_id` is the last value, and there are as many placeholders as values (entries plus one) |
| Sql.UpdateParams | application/server/src/models/GameModel.ts:122-124 | an `UPDATE ... SET ... WHERE key = ?` statement has one placeholder per assignment plus one for the key |
| Sql.Assignments | application/server/src/models/GameModel.ts:113-121 | one `key = ?` piece per key, in order, each with one placeholder |
| GameModel.UpdatedRows | application/server/src/models/GameModel.ts:104-126 | after an update, the row with that id has each named column at its last written value and every other column as before; every other row is unchanged |
| GameModel.GameTable.UpdateGame | application/server/src/models/GameModel.ts:104-126 | an update that is non-empty and names only columns of `games` rewrites the row with that id and nothing else; an empty one, or one with a key that is no column, makes a failing statement and changes nothing |
| GameModel.GameTable.GetGameById | application/server/src/models/GameModel.ts:134-140 | the result is a stored row with that id, and is absent exactly when no row has the id |
| GameModel.GameTable.GetGameByIdFindsRow | application/server/src/models/GameModel.ts:134-140 | ids are unique, so the lookup by a row's id finds that row |
| GameModel.GameTable.GetAllGames | application/server/src/models/GameModel.ts:148-156 | the result is the first `limit` rows in table order, or all rows when there are fewer |
| GameModel.GameTable.DeleteGame | application/server/src/models/GameModel.ts:91-95 | every row with the id is removed and the others stay in order |
| GameModel.DeleteGameEffect | application/server/src/models/GameModel.ts:91-95 | after a delete no row has the id, every other row is kept, and deleting again changes nothing |
| GameController.NormalizeLimit | application/server/src/controllers/gameController.ts:139-144 | the limit is always at least 1: the parsed value when it is positive, otherwise 50 |
| GameController.NormalizeLimitOfDecimal | application/server/src/controllers/gameController.ts:139-144 | a positive decimal limit is used as it is; zero or an absent parameter gives 50 |
| GameController.WithListDefaults | application/server/src/controllers/gameController.ts:21-25 | missing tags and platforms become present |
| GameController.CreatedGameLists | application/server/src/controllers/gameController.ts:21-27 | a created game's stored lists decode to the ones sent, or to `[]` |
| GameController.CreateGame | application/server/src/controllers/gameController.ts:16-32 | the row with list defaults is appended and the answer is 201 'Game created successfully' |
| GameController.ListReply | application/server/src/controllers/gameController.ts:53-57 | the answer is 404 exactly for an empty list, otherwise 200 with the list |
| GameController.SearchGames | application/server/src/controllers/gameController.ts:40-62 | absent parameters are empty and the rating goes through `Number`; the answer is 404 exactly when no row matches, otherwise 200 with the matching rows |
| GameController.RemoveGame | application/server/src/controllers/gameController.ts:70-82 | the id's rows are deleted and the answer is 200 whether or not the id existed; a path id that is not a number gives 500 'Error deleting game' and deletes nothing |
| GameController.WritesListsIff | application/server/src/controllers/gameController.ts:93-98 | the body names tags (platforms) exactly when it writes that column |
| GameController.WithListEntries | application/server/src/controllers/gameController.ts:93-98 | the update entries are never empty |
| GameController.EditWrites | application/server/src/controllers/gameController.ts:93-98 | an edit always writes tags and platforms, resetting omitted ones to `[]`; every other column is written as the body writes it |
| GameController.WithListEntriesKeys | application/server/src/controllers/gameController.ts:93-99 | the added list entries name columns, so the update fails exactly when the body has a key that is no column |
| GameController.EditGame | application/server/src/controllers/gameController.ts:90-104 | the row is updated with the list entries added, and the answer is 200 whether or not the id existed; a path id that is not a number, or a body key that is no column, gives 500 'Error updating game' and changes nothing |
| GameController.GetGame | application/server/src/controllers/gameController.ts:112-126 | 404 'Game not found' exactly when no row has the id, otherwise 200 with the row; a path id that is not a number gives 500 'Error fetching game' |
| GameController.GetAllGames | application/server/src/controllers/gameController.ts:134-158 | the answer lists the first rows up to the normalised limit; it is 404 exactly when the table is empty |
| Rawg.StripHtmlTags | application/server/src/api/rawg.ts:38-41 | null and the empty string give the empty string; the output is never longer than the input |
| Rawg.StripTags | application/server/src/api/rawg.ts:40 | the output is never longer than the input |
| Rawg.AfterTag | application/server/src/api/rawg.ts:40 | skipping a tag body always consumes at least one character |
| Rawg.StripTagsNoTag | application/server/src/api/rawg.ts:40 | text without `<` is returned unchanged |
| Rawg.StripTagsPlainPrefix | application/server/src/api/rawg.ts:40 | a prefix without `<` is kept and stripping goes on after it |
| Rawg.AfterTagBody | application/server/src/api/rawg.ts:40 | a tag body without `>` is skipped through the closing `>`, or to the end of the text |
| Rawg.StripTagsRemovesTag | application/server/src/api/rawg.ts:40 | `<t>` with a non-empty body free of `>` is removed with its brackets; an unclosed `<t` removes the rest of the text |
| Rawg.StripTagsKeepsEmptyBrackets | application/server/src/api/rawg.ts:40 | `<>` is not a match and both characters stay |
| Rawg.StripTagsClean | application/server/src/api/rawg.ts:40 | no `<` in the output is followed by a character other than `>` |
| Rawg.StripTagsOfClean | application/server/src/api/rawg.ts:40 | text with no tag start is returned unchanged |
| Rawg.StripTagsIdempotent | application/server/src/api/rawg.ts:40 | stripping twice is the same as stripping once |
| Rawg.Round | application/server/src/api/rawg.ts:134 | `Math.round` gives the integer within one half of the number, rounding halves up |
| Rawg.ReviewRating | application/server/src/api/rawg.ts:134-135 | the rating always lies in [1,10]: the rounded rating when it is in range, otherwise the nearer bound |
| Rawg.MissingRatingIsOne | application/server/src/api/rawg.ts:134-135 | a missing rating, or a rating of 0, is stored as 1 |
| Rawg.GameMode | application/server/src/api/rawg.ts:126-132 | 'multiplayer' if the lower-cased platforms text contains it, else 'both' if it contains 'both', else 'single-player' |
| Rawg.MultiplayerPlatform | application/server/src/api/rawg.ts:117-132 | a platform name that mentions multiplayer in any letter case makes the game multiplayer |
| Rawg.EncodeItemsContainsQuoted | application/server/src/api/rawg.ts:117-119 | each quoted platform name occurs in the JSON text of the list |
| Rawg.LowerContainsThrough | application/server/src/api/rawg.ts:127 | a needle found in the lower-cased text of a part is found in the lower-cased whole |
| Rawg.GenreOf | application/server/src/api/rawg.ts:115 | the genre names joined by ', ', or NULL when the join is empty |
| Rawg.FirstOr | application/server/src/api/rawg.ts:121-124 | the first developer or publisher, or 'Unknown' when there is none |
| Rawg.ToGame | application/server/src/api/rawg.ts:108-135 | the row values keep the record's name as title, have a rating in [1,10], and store both lists, `[]` when absent |
| Rawg.Survivors | application/server/src/api/rawg.ts:101-146 | every kept record is an object with a name, and its title is not in the table |
| Rawg.SurvivorsSound | application/server/src/api/rawg.ts:101-161 | every kept record is one of the input records |
| Rawg.SurvivorsComplete | application/server/src/api/rawg.ts:101-161 | every object with a name whose title the table lacks is kept |
| Rawg.SurvivorsAppend | application/server/src/api/rawg.ts:101-161 | the records kept from a concatenation are those kept from each part, in order |
| Rawg.BatchDuplicatesKept | application/server/src/api/rawg.ts:140-146 | titles are checked against the table only, so a new title that occurs twice in one batch is inserted twice |
| Rawg.SurvivorsStep | application/server/src/api/rawg.ts:101-161 | one more record either adds its row values to those collected so far or leaves them unchanged |
| Rawg.NewRows | application/server/src/api/rawg.ts:167-173 | the rows of a bulk insert, under consecutive ids |
| Rawg.InsertGames | application/server/src/api/rawg.ts:167-173 | the bulk insert appends the batch in order under consecutive ids |
| Rawg.AddNewGamesToDatabase | application/server/src/api/rawg.ts:97-181 | the table gains exactly the surviving records' rows, in input order; it is unchanged when nothing survives |
| JsonLists.EncodeList | application/server/src/models/UserDataModel.ts:14-18 | the text of a list always starts with `[` and ends with `]` |
| JsonLists.DecodeEncode | application/server/src/models/UserDataModel.ts:12-44 | `JSON.parse(JSON.stringify(xs))` gives back `xs`, order included |
| JsonLists.EncodeInjective | application/server/src/models/UserDataModel.ts:12-20 | different lists are stored as different texts |
| JsonLists.StringRoundTrip | application/server/src/models/UserDataModel.ts:31 | a quoted string decodes to itself and leaves the text after its closing quote |
| JsonLists.ItemsRoundTrip | application/server/src/models/UserDataModel.ts:31 | the encoded elements of a non-empty list decode to the same elements, in order |
| JsonLists.EscapedCharDecodes | application/server/src/models/UserDataModel.ts:31 | every escaped character decodes to itself and decoding continues after it |
| JsonLists.HexValueOfDigit | application/server/src/models/UserDataModel.ts:31 | a written hexadecimal digit reads back as its value |
| JsonLists.Hex4OfText | application/server/src/models/UserDataModel.ts:31 | four written hexadecimal digits read back as the code unit they spell |
| JsonLists.SurrogatePairDecodes | application/server/src/models/UserDataModel.ts:31 | a character beyond U+FFFF written as the `\u` escapes of its two surrogates decodes to that character |
| UserDataModel.StringifyFields | application/server/src/models/UserDataModel.ts:12-20 | all five keys, in order |
| UserDataModel.StringifyFieldsDecode | application/server/src/models/UserDataModel.ts:12-20 | each stored text decodes to the given list, or to `[]` for an absent one |
| UserDataModel.SafeParse | application/server/src/models/UserDataModel.ts:29-35 | a non-string value or text that does not parse gives `[]`; otherwise the decoded list |
| UserDataModel.ParseFields | application/server/src/models/UserDataModel.ts:28-45 | the row's id is kept |
| UserDataModel.ParseStoredRow | application/server/src/models/UserDataModel.ts:12-45 | reading a stored row back gives the lists that were written, absent ones as `[]` |
| UserDataModel.CollectEntries | application/server/src/models/UserDataModel.ts:113-116 | the loop yields one key and one bound text per entry, in order |
| UserDataModel.BuildUserDataUpdate | application/server/src/models/UserDataModel.ts:104-127 | all five columns are assigned whatever the input holds, the id is the last value, and there is one placeholder per value |
| UserDataModel.ReadRow | application/server/src/models/UserDataModel.ts:84-95 | absent exactly when no row has the id; otherwise a row with the id, decoded |
| UserDataModel.ReadAfterCreate | application/server/src/models/UserDataModel.ts:53-95 | a new row is read back under its id with the lists it was given |
| UserDataModel.ReadAfterUpdate | application/server/src/models/UserDataModel.ts:104-127 | every update rewrites all five columns, so a list missing from the update reads back as `[]` |
| UserDataModel.ReadAfterDelete | application/server/src/models/UserDataModel.ts:135-145 | after a delete the id is gone and every other row is still there |
| UserDataModel.UserDataTable.CreateUserData | application/server/src/models/UserDataModel.ts:53-76 | the stringified row is appended and its fresh id is answered; that id then reads back with the given lists |
| UserDataModel.UserDataTable.GetUserDataById | application/server/src/models/UserDataModel.ts:84-95 | null exactly when no row has the id; otherwise that row, decoded |
| UserDataModel.UserDataTable.UpdateUserData | application/server/src/models/UserDataModel.ts:104-127 | the row with the id gets all five columns rewritten; the other rows stay |
| UserDataModel.UserDataTable.DeleteUserData | application/server/src/models/UserDataModel.ts:135-145 | only the row with the id is removed; the others stay in order |
| UserDataController.GetUserDataById | application/server/src/controllers/userDataController.ts:17-36 | a caller whose id is not the path id gets 403; the owner gets 404 for a missing row, otherwise 200 with the decoded row |
| UserDataController.UpdateUserData | application/server/src/controllers/userDataController.ts:44-60 | a non-owner gets 403 and the table is untouched; the owner's update is written, then 200 |
| UserDataController.GetRecommendations | application/server/src/controllers/userDataController.ts:68-94 | 403 for a non-owner; for the owner a missing row ends as 500, not 404; otherwise 200 with the service's answer |
| UserDataController.CreateUserData | application/server/src/controllers/userDataController.ts:102-119 | the row is appended and the answer is 201 with its id |
| UserDataController.DeleteUserData | application/server/src/controllers/userDataController.ts:127-139 | there is no ownership check: any caller deletes any id and gets 200; a NaN id gives 500 and nothing is deleted |
| UserDataController.FetchUserData | application/server/src/controllers/userDataController.ts:147-162 | there is no ownership check: 404 for a missing row, otherwise 200 with the decoded row |
| Ownership.VerifyOwnership | application/server/src/controllers/helper/auth.ts:13-26 | true exactly when the signed-in id equals the target id; on false exactly one 403 is sent, on true nothing |
| AuthMiddleware.Decide | application/server/src/middleware/authMiddleware.ts:15-60 | a missing secret gives 500 before the token is looked at; every other refusal is 401 |
| AuthMiddleware.AdmitIff | application/server/src/middleware/authMiddleware.ts:20-55 | a request is admitted exactly when the secret is set, the token verifies to an id, and a user has that id; the admitted user is that user |
| AuthMiddleware.Authenticate | application/server/src/middleware/authMiddleware.ts:15-60 | on every path exactly one of these happens: one refusal is sent, or `req.user` is set and `next` is called |
| ReviewModel.ReviewTable.CreateReview | application/server/src/models/ReviewModel.ts:12-28 | one row with the four given values is appended under a fresh id, which is answered and then found |
| ReviewModel.ReviewTable.GetReviewById | application/server/src/models/ReviewModel.ts:36-42 | a stored row with that review id, absent exactly when none has it |
| ReviewModel.ReviewTable.GetReviewByIdFindsRow | application/server/src/models/ReviewModel.ts:36-42 | review ids are unique, so the lookup finds the row |
| ReviewModel.ReviewTable.GetReviewByGameId | application/server/src/models/ReviewModel.ts:50-56 | exactly the game's reviews, possibly none |
| ReviewModel.Apply | application/server/src/models/ReviewModel.ts:73-80 | one assignment sets its column and leaves the others, and `review_id`, as they were |
| ReviewModel.ApplyAllColumns | application/server/src/models/ReviewModel.ts:73-81 | each column ends at its last written value, or its old one |
| ReviewModel.ApplyAllKeepsReviewId | application/server/src/models/ReviewModel.ts:73-81 | no entry the model can express names `review_id`, so an update never changes it |
| ReviewModel.UpdateCanReassign | application/server/src/models/ReviewModel.ts:73-81 | the body is unfiltered, so an owner's update can hand the review to another user |
| ReviewModel.CollectUpdates | application/server/src/models/ReviewModel.ts:74-77 | the loop yields one key and one value per entry, in order |
| ReviewModel.EntryColumnName | application/server/src/models/ReviewModel.ts:65-82 | the name an entry puts before its `= ?` is a column of `reviews` exactly when the entry is a known field, and it is never `review_id` in any letter case |
| ReviewModel.BuildReviewUpdate | application/server/src/models/ReviewModel.ts:65-82 | the entries' values in order, the review id last, and one placeholder per value |
| ReviewModel.ReviewTable.UpdateReview | application/server/src/models/ReviewModel.ts:65-82 | a non-empty body naming only columns of `reviews` rewrites only the row with that id; an empty one, or one with a key that is no column, is rejected and changes nothing |
| ReviewModel.UpdatedReviews | application/server/src/models/ReviewModel.ts:65-82 | every other row is unchanged, and the row's columns hold their last written values |
| ReviewModel.ReviewTable.DeleteReview | application/server/src/models/ReviewModel.ts:90-94 | only the row with the id is removed; a missing id is not an error |
| ReviewModel.DeleteReviewEffect | application/server/src/models/ReviewModel.ts:90-94 | the review is gone, the others stay, and a second delete changes nothing |
| ReviewController.CreateRefusal | application/server/src/controllers/reviewController.ts:18-28 | no refusal exactly when a user id is set and every field is truthy; no user is 401, before the body is looked at |
| ReviewController.ZeroRatingRefused | application/server/src/controllers/reviewController.ts:24-28 | a rating of 0 is refused with 400, like a missing one |
| ReviewController.CreateReview | application/server/src/controllers/reviewController.ts:13-44 | a refusal stores nothing; otherwise the stored `user_id` is the signed-in id, never one from the body, and the answer is 201 with the new id |
| ReviewController.GetReviewById | application/server/src/controllers/reviewController.ts:53-67 | 404 when absent, 200 with the review otherwise |
| ReviewController.GetReviewByGameId | application/server/src/controllers/reviewController.ts:75-89 | 404 when the game has no reviews, 200 with all of them otherwise |
| ReviewController.OwnerRefusal | application/server/src/controllers/reviewController.ts:102-108 | a missing review is 404 before ownership is checked, then 403 for a non-author; the change passes exactly for the author |
| ReviewController.OwnerRefusalOnTable | application/server/src/controllers/reviewController.ts:102-108 | the change passes exactly when the table holds that review written by the caller |
| ReviewController.UpdateReview | application/server/src/controllers/reviewController.ts:97-116 | 404 and 403 leave the table unchanged; the author's body is applied unfiltered with 200, and an empty body or one with a key that is no column gives 500 with the table unchanged |
| ReviewController.DeleteReview | application/server/src/controllers/reviewController.ts:125-144 | 404 and 403 leave the table unchanged; the author's delete removes the review with 200 |
| UserModel.StoredUser | application/server/src/models/UserModel.ts:31-38 | the stored password is the hash of the given one |
| UserModel.FindAfterInsert | application/server/src/models/UserModel.ts:41-47 | after an insert with a new email, the lookup by that email finds the new row |
| UserModel.UserTable.Create | application/server/src/models/UserModel.ts:24-48 | the row with the hashed password is appended; the answer is the first row with the email, which is the new row when the email was new |
| UserModel.UserTable.FindByEmail | application/server/src/models/UserModel.ts:56-64 | a stored row with the email, absent exactly when none has it |
| UserModel.UserTable.FindByUsername | application/server/src/models/UserModel.ts:86-96 | a stored row with the name, absent exactly when none has it |
| UserModel.UserTable.FindById | application/server/src/models/UserModel.ts:104-112 | a stored row with the id, absent exactly when none has it |
| UserModel.UserTable.FindByIdFindsRow | application/server/src/models/UserModel.ts:104-112 | ids are unique, so the lookup finds the row |
| UserModel.UserTable.UpdateUserProfilePicture | application/server/src/models/UserModel.ts:121-134 | only the matching row's picture changes; the answer is whether a row has the id |
| UserModel.PictureUpdateEffect | application/server/src/models/UserModel.ts:121-134 | the matching row keeps every other column, and every other row stays as it was |
| AuthController.IdTextRoundTrip | application/server/src/controllers/authController.ts:92-93 | the id text `Number` reads back is the id it was written from |
| AuthController.ClientCookie | application/server/src/utils/auth.ts:10-35 | the last cookie write wins: clearing removes the token, and issuing stores the signed id text |
| AuthController.AuthStatusBody | application/server/src/controllers/authController.ts:18-37 | logged in exactly when the middleware's ladder would admit the cookie, with that user's id; otherwise logged out with no id |
| AuthController.AuthStatus | application/server/src/controllers/authController.ts:18-37 | always exactly one 200 answer and no cookie write |
| AuthController.IssuedTokenAdmits | application/server/src/utils/auth.ts:10-23 | a cookie issued for a stored user is admitted as that user and reported logged in |
| AuthController.LogoutEndsSession | application/server/src/controllers/authController.ts:143-146 | after the logout's cookie write, the session is logged out and `authenticate` refuses |
| AuthController.PictureOrDefault | application/server/src/controllers/authController.ts:49 | the given picture when truthy, otherwise the default picture |
| AuthController.EmptyListsReadBack | application/server/src/controllers/authController.ts:68-79 | a new account's user data reads back as five empty lists |
| AuthController.RegisterRefusal | application/server/src/controllers/authController.ts:53-65 | a taken email gives 400 'A user with this email already exists' whatever the name; a free email with a taken name gives 400 'This username is already taken'; no refusal exactly when both are free |
| AuthController.NewAccount | application/server/src/controllers/authController.ts:82-89 | the new user is linked to the new user-data row and carries the body's fields |
| AuthController.GenerateToken | application/server/src/utils/auth.ts:10-23 | an empty or missing secret throws before any cookie is written; otherwise exactly the token cookie for the id text is written; nothing is answered |
| AuthController.RegisterUser | application/server/src/controllers/authController.ts:45-107 | a refusal creates nothing; otherwise a user-data row of five empty lists, then the linked user, then a token cookie and 201 with the id as text and no password; without a secret both rows stay, no cookie is set and the answer is 500 'Error registering user' |
| AuthController.AnswerRegistered | application/server/src/controllers/authController.ts:91-106 | with a secret, the token cookie for the new id and 201 with the id as text and no password; without one, no cookie and 500 'Error registering user' |
| AuthController.SignedInUser | application/server/src/controllers/authController.ts:116-122 | the first row with the email (when the email is truthy), else the first with the name, and only when the password matches its hash; there is a signed-in user exactly when that first row exists and matches |
| Seqs.FirstAtFirstIndex | application/server/src/models/UserModel.ts:56-64 | the first-row lookup finds a row exactly when there is a first matching index, and then the row at that index |
| AuthController.RegisteredUserSignsIn | application/server/src/controllers/authController.ts:45-135 | whoever registered can sign in with the same email and password |
| AuthController.AuthenticateUser | application/server/src/controllers/authController.ts:115-135 | a signed-in user gets a token cookie and 200; an unknown user and a wrong password get the same 401 and no cookie; without a secret a signed-in user gets no cookie and no answer |
| AuthController.LogoutUser | application/server/src/controllers/authController.ts:143-146 | the token is cleared and the answer is 200 'User logged out' |
| AuthController.GoogleCallbackAsWritten | application/server/src/controllers/authController.ts:163-189 | on failure, or without a secret, 400 with no cookie; otherwise the token cookie and then the text "undefined" are written, followed by 200 with id, name and email |
| AuthController.GoogleSessionLost | application/server/src/controllers/authController.ts:175-180 | after the callback as written the session is refused and reported logged out |
| AuthController.GoogleCallback | application/server/src/controllers/authController.ts:163-189 | on failure, or without a secret, 400 with no cookie; otherwise the token cookie is the only cookie write, then 200 with id, name and email |
| UserController.ProfileHidesPassword | application/server/src/controllers/userController.ts:27-35 | the profile answered does not depend on the password |
| UserController.GetUser | application/server/src/controllers/userController.ts:12-40 | 401 without a user id, 404 for a user no longer stored, otherwise 200 with the profile |
| UserController.GetUserByEmail | application/server/src/controllers/userController.ts:48-67 | 400 for an empty email, 404 for an unknown one, otherwise 200 with the stored row unchanged, password included |
| UserController.GetUserByUserName | application/server/src/controllers/userController.ts:75-94 | 400 for an empty name, 404 for an unknown one, otherwise 200 with the stored row |
| UserController.UploadUrl | application/server/src/controllers/userController.ts:113 | the upload address is the prefix followed by the file name |
| UserController.UploadUrlInjective | application/server/src/controllers/userController.ts:113 | distinct files get distinct addresses |
| UserController.PictureReadsBack | application/server/src/controllers/userController.ts:113-125 | after the update, the lookup by that id finds the new address |
| UserController.UpdateUserProfilePicture | application/server/src/controllers/userController.ts:103-130 | 400 without a file and nothing changes; otherwise the picture becomes the upload address, 404 when no row has the id, else 200 |
| ErrorMiddleware.ErrorName | application/server/src/middleware/errorMiddleware.ts:36-45 | the name is 'AuthenticationError' exactly for an authentication error |
| ErrorMiddleware.ErrorHandler | application/server/src/middleware/errorMiddleware.ts:11-29 | 401 exactly for an authentication error; anything else is 500 with `success: false` and its message, or 'Internal Server Error' when the message is empty |
| ErrorMiddleware.AuthenticationMessageRecoverable | application/server/src/middleware/errorMiddleware.ts:19-21 | the 401 message is 'Unauthorized: ' followed by the original message |
| ErrorMiddleware.AuthenticationResponsesDistinct | application/server/src/middleware/errorMiddleware.ts:19-21 | two authentication errors get the same answer exactly when their messages are equal |
| JsNumbers.ParseNatToString | application/server/src/controllers/gameController.ts:139 | `parseInt` reads back the decimal text of a non-negative number |
| JsNumbers.NumberOfNatToString | application/server/src/controllers/gameController.ts:49 | `Number` reads back the decimal text of a non-negative number |
| JsNumbers.NumberOfSignedDigits | application/server/src/controllers/gameController.ts:49 | `Number` of a minus sign followed by digits is the negated value |
| JsNumbers.NatToStringInjective | application/server/src/controllers/authController.ts:92 | distinct ids have distinct decimal texts |
| JsNumbers.DigitsOfNatToString | application/server/src/controllers/authController.ts:92 | the decimal text of a number has that number as its value |
| JsNumbers.ParseDigits | application/server/src/controllers/gameController.ts:139 | `parseInt` of a run of decimal digits is their value |
| Strings.TrimStartShape | application/server/src/models/GameModel.ts:64 | `trimStart` gives a suffix of the text that does not start with white space |
| Strings.TrimEndShape | application/server/src/models/GameModel.ts:64 | `trimEnd` gives a prefix of the text that does not end with white space |
| Strings.TrimUnspaced | application/server/src/models/GameModel.ts:64 | text without white space at either end is unchanged by `trim` |
| Strings.TrimEachEmptyLast | application/server/src/models/GameModel.ts:64 | trimming every piece keeps an empty last piece empty |
| Strings.SplitPieces | application/server/src/models/GameModel.ts:64 | a split has one more piece than the text has separators |
| Strings.JoinSplit | application/server/src/models/GameModel.ts:64 | joining the pieces of a split with the separator gives back the text |
| Strings.SplitJoin | application/server/src/models/GameModel.ts:64 | splitting pieces joined by a separator they lack gives back the pieces |
| Strings.SplitNoSeparator | application/server/src/models/GameModel.ts:64 | text without the separator splits into itself alone |
| Strings.ToLower | application/server/src/api/rawg.ts:127 | each ASCII upper-case letter becomes lower case and every other character is kept, so the length is kept |
| Seqs.FilterKeepsIncreasing | application/server/src/models/GameModel.ts:91-95 | deleting rows keeps the ids in increasing order |
| Seqs.FilterIdempotent | application/server/src/models/GameModel.ts:91-95 | filtering twice by the same test is filtering once |
| Seqs.FirstOfUnique | application/server/src/models/UserModel.ts:104-112 | with unique keys, the first row with a key is the row that has it |

## Left out

- The database itself is not modelled: connections, failures of a statement, and the 500 branches those failures reach. The tables never fail. The modelled 500s are the ones the input alone decides: a `NaN` id, an empty update body, an update key that is no column of the table, and a missing row in `getRecommendations`.
- GameModel.GameTable.FindGames: `LIKE` is modelled as a plain substring test. The case-insensitivity that comes from the database collation is not modelled, and `%` and `_` typed inside a query are not treated as wildcards. The rows come back in id order; the statement has no `ORDER BY`, so SQL itself promises no order.
- GameModel.GameTable.GetAllGames: takes the first `limit` rows in id order. `SELECT * FROM games LIMIT ?` has no `ORDER BY`, so SQL does not say which rows `LIMIT` keeps; the model follows InnoDB, which scans the table in primary-key order in practice.
- UserModel.UserTable.FindByEmail: compares emails exactly. Under the database's case-insensitive collation, `WHERE email = ?` also finds a row whose email differs only in letter case.
- UserModel.UserTable.FindByUsername: compares names exactly, where the collation makes `WHERE name = ?` case-insensitive.
- AuthController.RegisterRefusal: an email or a name that differs from a stored one only in letter case counts as free here. The database would find it and refuse the registration.
- AuthController.SignedInUser: the lookup by email or by name is exact, where the database's is case-insensitive. A login whose email differs from the stored one only in case is refused here and accepted by the source.
- Rawg.TitleTaken: the stored-title check is exact, where `WHERE title = ?` is case-insensitive. A RAWG title that differs from a stored one only in case is inserted here and skipped by the source.
- Rawg.Survivors: inherits the exact title comparison of Rawg.TitleTaken.
- GameModel.GameTable.UpdateGame: the body can name `game_id`, and the source passes it on. The database then renumbers the row, or fails when another row has that id. This renumbering is not modelled: the model keeps the rows in id order with fixed ids, so its update entries cannot name `game_id` (GameModel.EntryColumnName). Keys naming the `created_at` and `updated_at` columns are not modelled either. A key that is a plain name (ASCII letters, digits, `_`) and matches no column in any letter case is modelled, and it makes the statement fail. A key holding any other character is not modelled: `${key} = ?` pastes it into the statement as SQL text, so it can form a valid assignment (`title = title, genre`) as well as a syntax error.
- GameModel.ApplyAllKeepsId: holds because no modelled entry names `game_id`. In the source, a body with `game_id` changes it.
- GameController.EditGame: inherits the update of GameModel.GameTable.UpdateGame. A body naming `game_id` is not modelled.
- ReviewModel.ReviewTable.UpdateReview: the body can name `review_id`, and the source passes it on, which renumbers the review or fails on a taken id. This is not modelled, for the same reason as `game_id` in GameModel.GameTable.UpdateGame (ReviewModel.EntryColumnName). Keys naming the timestamp columns are not modelled either. As for games, a plain-name key that matches no column is modelled and fails the statement; a key holding other characters is SQL text and is not modelled.
- ReviewModel.Apply: its promise that `review_id` is kept holds because no modelled entry names `review_id`.
- ReviewModel.ApplyAllKeepsReviewId: holds because no modelled entry names `review_id`. In the source, a body with `review_id` changes it.
- ReviewController.UpdateReview: inherits the update of ReviewModel.ReviewTable.UpdateReview. A body naming `review_id` is not modelled.
- `Number` and `parseInt` are modelled on integers only: decimal digits with an optional sign, surrounded by white space. Fractions, exponents, hexadecimal and `Infinity` are not modelled. `NaN` is `None`, and so is every text the model cannot read. One consequence: `review_rating=7.5` is `None` in the model, so GameController.SearchGames drops the rating filter, where the source filters on `review_rating >= 7.5`.
- Rawg.Round: `Math.round` is taken on exact reals, rounding halves up, not on IEEE doubles.
- Strings.ToLower: lower-cases ASCII letters only, not the full Unicode case mapping.
- Strings.TrimStart and Strings.TrimEnd: their own contracts state only the length bound. What they remove is stated by Strings.TrimStartShape, Strings.TrimEndShape, Strings.TrimStartDropsSpace and Strings.TrimEndDropsSpace.
- Strings.TrimEach: states only that the number of pieces is kept. Each piece is `Trim` of the input piece by definition.
- UserDataModel.SafeParse: for text that parses to something other than an array of strings (`null`, a number, a string, an object, a nested array), the source returns that parsed value, and the model returns `[]`. The model's lists hold strings only, so they cannot carry such a value. JsonLists.DecodeList decodes arrays of strings only, and gives nothing for every other JSON value.
- JsonLists.Unescape: a `\u` escape of a lone surrogate, without its partner, is refused. `JSON.parse` accepts it and yields a string holding that code unit. The model's characters are Unicode scalar values and cannot hold a lone surrogate. Surrogate pairs are decoded.
- GameController.CreateGame: the body is a `NewGame`, whose title, description, playtime, developer, publisher, mode and rating are always present. In the source a field missing from the body is bound as `undefined` and stored as NULL; that case is not modelled.
- The `created_at` and `updated_at` timestamps (`NOW()`) and the release dates are not modelled. `getUser` also answers `created_at`; the modelled profile leaves it out.
- The RAWG fetch functions (`getMostPopularGames`, `getGameById`, `fetchNewGames`, `testAddGames`) and their date arithmetic are not modelled: they are network I/O and the clock. So is the per-record `try/catch` of the import loop, which no modelled record can reach.
- The recommendation service is the parameter `recommend`. Its prompt and the OpenAI call are not part of this model.
- Signing and verifying tokens (`jsonwebtoken`) are the parameters `sign` and `verify`. The one failure of `jwt.sign` the handlers can meet, an empty secret (`JWT_SECRET || ''`), is modelled by AuthController.GenerateToken; the secret is a parameter, as in the middleware. AuthController.TokenScheme states the assumption the session lemmas use: a signed token verifies, under the same secret, to the id it carries.
- bcrypt is the parameters `hash` and `matches`. The fresh salt is part of what `hash` stands for. `comparePassword` is `matches`, and AuthController.RegisteredUserSignsIn assumes `matches(p, hash(p))`.
- Passport's Google strategy, `googleLogin` and the multer upload middleware are framework calls. The callback receives their outcome as a parameter, and the profile-picture handler receives the uploaded file name. The strategy calls the verify function of `app.ts` inside a `try`, and that function calls `done` at once, so a throw in the callback comes back to it as `err`: that is why AuthController.GoogleCallbackAsWritten and AuthController.GoogleCallback answer 400 when the token cannot be signed.
- AuthController.AuthenticateUser: when the token cannot be signed the handler has no `catch`, so the model sends nothing. What the framework then does with the rejected promise (an unanswered request, or the error handler) is not modelled.
- `UserModel.updateProfilePicture` always throws and nothing calls it, so it is not modelled.
- The legacy `models/User.ts` is not part of this model.
- Routing is not modelled. `POST /api/reviews` is not behind `authenticate`, so ReviewController.CreateReview takes `req.user` as optional and checks it itself. The other protected handlers require it to be set.
- `affectedRows > 0` is modelled as "some row has the id". MySQL's count of changed rows, where an unchanged value counts as not affected, is not modelled.
- The `error` object sent with some 500 answers is not modelled. The answer keeps its status and message.
- Missing `email`, `password` or `username` fields in the register and login bodies are not modelled: the body fields are strings. An absent login name is modelled, and it matches no row.
- Two expectations in the server's tests contradict the code, and the model follows the code:
  - `tests/auth.test.ts:63-74` expects a missing-email refusal that `registerUser` does not have.
  - `tests/review.test.ts:91-95` expects a 401 text that neither `createReview` nor `authenticate` sends.
- Atomicity and concurrency are not modelled: the handlers run one at a time. The user-data insert and the user insert of a registration are not one transaction.
- The Google callback's cookie options (`httpOnly`, `secure`, `maxAge`) and those of the token cookie are not modelled. Only the cookie's value is.

## Findings

| source | as written | input that shows it | evidently intended | confidence | as-written member | corrected member |
|---|---|---|---|---|---|---|
| application/server/src/controllers/authController.ts:175-180 | `generateToken` (application/server/src/utils/auth.ts:10-23) sets the `jwt` cookie and returns nothing. The callback keeps that `undefined` as `token` and writes it as the `jwt` cookie, overwriting the real token with the text "undefined". | any successful Google sign-in | the cookie set by `generateToken` stays, so the Google user is signed in | not executed | AuthController.GoogleCallbackAsWritten, with AuthController.GoogleSessionLost | AuthController.GoogleCallback, with AuthController.IssuedTokenAdmits |
