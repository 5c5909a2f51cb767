# The Reel Score API: sessions, users, reviews and housekeeping in Dafny

This project models the service layer of a NestJS media-review backend and proves
properties of that model. The backend stores users, refresh-token rows, reviews and
media rows in a relational database through Prisma. The model covers:

- **Sessions (`Auth`).** The auth service does registration, login with a bcrypt-checked
  password, rotation of thirty-day refresh tokens, logout and the one-day e-mail
  verification handshake.
  - Its state is the shared database, the cache of verification keys and the queue of
    confirmation mails.
  - The cache is a `map` from key to value and time-to-live; the queue is a `seq` of jobs.
- **Users (`Users`).** The users service supplies the salt, looks users up by username,
  and creates, updates and deletes users.
- **Reviews (`Reviews`).** The reviews service has:
  - an error classifier and a Movie/TV metadata normaliser;
  - paginated listings;
  - the owner-or-admin rule for editing and deleting a review;
  - review creation, which also upserts the media row the review refers to.
- **Housekeeping (`Cron`).** Two nightly sweeps delete unverified users older than a day
  and expired refresh tokens.
- **Upstream errors (`AxiosFilter`).** This global filter maps errors of the external
  metadata API to HTTP exceptions.
- **Request validation (`AuthDto`, `UserDto`, `ReviewDto`, `MediaDto`).** The rules of
  the class-validator DTOs are written as predicates over raw JSON bodies (`Validation`).
  Each DTO also has a parse function that yields the typed value exactly when its
  predicate holds.

These modules provide the shared pieces:

- **`Db.Store`** is the database: a class with one `seq` field per table. Its `Valid()`
  predicate states the table's unique indexes:
  - users: `id`, `username` and `email`;
  - tokens: `id` and `token`;
  - reviews: `id` and the pair `(userId, mediaId)`;
  - media: `id`.
  Every service is a class holding the same `Store`. Every state-changing method states
  all of its new state and keeps `Valid()`.
- **`Tables`** holds the Prisma bulk operations as functions on rows in storage order:
  `count`, `findFirst`, `findMany` with `skip`/`take`, `updateMany` and `deleteMany`.
- **`Common`** holds the services' exceptions as a `Result` datatype:
  - the NestJS HTTP exceptions by kind and message;
  - Prisma's known request errors by code and `meta.target`;
  - Axios errors by response status;
  - plain runtime errors.
- **`Crypto`** holds the cryptographic collaborators as symbolic values:
  - a bcrypt digest records its salt and secret, and `Compare` accepts exactly the
    password that was hashed;
  - a signed JWT records its payload and its `expiresIn`.

Nondeterminism and the outside world become parameters of the methods:

- The clock is a `now` parameter in milliseconds, read once per call.
- `randomBytes`, `uuidv4` and the keys the database generates are parameters. Each comes
  with a `requires` that it is fresh, which is the promise of the generator.
- The TMDB metadata request is a `fetched: Result<MediaDetails>` parameter of createReview.
- The errors that the store, the cache and the queue may raise during registration are a
  `Faults` parameter.

Some behaviour the model follows as the code has it:

- A duplicate review, a delete of a missing user and an update of a missing user surface
  as the raw Prisma error or the generic internal error; the code maps them that way.
- Login with an unknown username raises NotFound from the user lookup, not Unauthorized.
- The unit tests of `register` describe an older version that first looked the user up.
  The model follows the code: the username and e-mail clash is detected by the unique
  indexes and reported through the P2002 handler.

## Model

| member | source | states |
|---|---|---|
| Crypto.Hash | src/users/users.service.ts:34 | the digest keeps the salt, and comparing a candidate with it succeeds exactly when the candidate is the hashed password |
| Crypto.Compare | src/auth/auth.service.ts:79 | `bcrypt.compare` accepts a stored value exactly when it is a digest of the candidate, under whatever salt |
| Crypto.Sign | src/auth/auth.service.ts:87-89 | the signed token carries the payload and the `expiresIn` option it was signed with |
| Common.SubstringAt | src/auth/auth.service.ts:60-63 | the substring search used for a string target finds the needle exactly when it occurs at some position |
| Common.Includes | src/auth/auth.service.ts:58-63 | `target.includes` is a TypeError iff the target is missing; on a column list it is membership, on an index name it is occurrence as a substring |
| Users.GetSalt | src/users/users.service.ts:15-18 | the configured SALT when it is truthy, else 10 rounds; the result is never falsy |
| Users.Violations | src/users/users.service.ts:36-38 | the P2002 target names `username` iff another user has that username, and `email` iff another user has that e-mail |
| Users.PasswordUpdate | src/users/users.service.ts:44-50 | an absent password leaves the column alone, a non-empty one is written as its digest, an empty one is written unhashed |
| Users.UsersService.GetUserByUsername | src/users/users.service.ts:20-30 | the stored user with that username, unique when the table is valid; NotFound "User with such username is not found" iff none exists |
| Users.UsersService.CreateUser | src/users/users.service.ts:32-41 | appends exactly one row with the given username and e-mail, the digest in place of the password, role USER, not verified; a clash is P2002 naming the clashing columns and adds nothing; the indexes stay unique |
| Users.UsersService.UpdateUser | src/users/users.service.ts:43-56 | rewrites only the row with that username with the patch; absent fields keep their values and every other row is unchanged; a missing user is P2025; a clash with another user is P2002; it settles with no value |
| Users.UsersService.DeleteUser | src/users/users.service.ts:58-64 | removes exactly the user with that username and reports "User with username X has been deleted"; a later lookup of X is NotFound; a missing user is P2025 |
| Users.UsersService.MarkVerified | src/auth/auth.service.ts:162-166 | sets the verified flag of the user with that id and yields it, or yields nothing and changes nothing when there is no such user |
| Tables.FindFirst | src/auth/auth.service.ts:107-109 | a found row is in the table and matches; nothing is found iff no row matches |
| Tables.Select | src/reviews/reviews.service.ts:90-91 | the `where` filter of findMany: exactly the stored rows that match, as many as Count gives |
| Tables.DeleteWhereKeepsPairwise | src/cron/cron.service.ts:14-19 | deleteMany keeps the remaining rows in order, so a pairwise unique-index condition still holds afterwards |
| Db.DeleteKeepsUniqueUsers | src/users/users.service.ts:58-62 | deleting users keeps id, username and e-mail unique |
| Db.DeleteKeepsUniqueTokens | src/auth/auth.service.ts:146-148 | deleting token rows keeps id and token value unique |
| Db.DeleteKeepsUniqueReviews | src/reviews/reviews.service.ts:222-224 | deleting reviews keeps the id and the (userId, mediaId) pair unique |
| Tables.Count | src/reviews/reviews.service.ts:95 | the number of matching rows, at most the table size |
| Tables.DeleteWhere | src/auth/auth.service.ts:146-148 | exactly the non-matching rows remain, and the number removed is the count of matches |
| Tables.UpdateWhere | src/reviews/reviews.service.ts:202 | each matching row is rewritten in place, every other row is kept at its position, and the length is unchanged |
| Tables.Window | src/reviews/reviews.service.ts:90-94 | the rows from position `skip` on, at most `take` of them, in order |
| Tables.CountZero | src/auth/auth.service.ts:150 | a count of zero means that no row matches, and conversely |
| Tables.DeleteWhereIdempotent | src/cron/cron.service.ts:27-33 | after a deleteMany nothing matches, so repeating it removes nothing |
| Tables.FindFirstAppendMiss | src/auth/auth.service.ts:92-98 | appending a row that does not match leaves every lookup unchanged |
| Db.UpdateOneUserKeepsUnique | src/users/users.service.ts:52-55 | rewriting one user to a username and e-mail no other user has keeps the user indexes unique and touches no other user |
| Db.ReviewUpdateKeepsUnique | src/reviews/reviews.service.ts:201-203 | an update that keeps id, userId and mediaId keeps the review indexes unique |
| Auth.RegisterFailure | src/auth/auth.service.ts:55-71 | P2002 becomes a Conflict, or a TypeError when the target is missing; every other error becomes InternalServerError "Failed to register user" |
| Auth.ConflictMessages | src/auth/auth.service.ts:56-66 | the target decides the message: "email" gives "Email already exists" even when "username" is present too; otherwise "username" gives "Username already exists"; otherwise "Account already exists" |
| Auth.RegisterConflictFromTable | src/auth/auth.service.ts:38-66 | a registration with a taken e-mail is "Email already exists"; one with only a taken username is "Username already exists" |
| Auth.Authenticate | src/auth/auth.service.ts:77-83 | success only for the user with that username whose digest accepts the password; NotFound iff no such user; Unauthorized "Wrong username or password" iff that user's digest rejects the password |
| Auth.RegisteredUserAuthenticates | src/auth/auth.service.ts:38-54 | right after the user is created, its username with the plaintext password logs in as that user |
| Auth.CheckRefresh | src/auth/auth.service.ts:107-121 | accepts only a row holding the token with `now <= expiresIn`, along with the row's owner; Unauthorized iff every row holding the token expired before `now` (or there is none); a missing owner is NotFound "User not found" |
| Auth.RotationReplacesPresented | src/auth/auth.service.ts:129-137 | rotating a row keeps the table size and its uniqueness, the old token value disappears, the new row takes the same id, and every other row stays |
| Auth.RotatedTokenIsSingleUse | src/auth/auth.service.ts:106-142 | after a rotation the presented token is refused at every later time, and the new one is accepted until its expiry while its owner exists |
| Auth.LoginKeepsOtherSessions | src/auth/auth.service.ts:92-98 | a new session row does not change how any other token is checked |
| Auth.LogoutRevokes | src/auth/auth.service.ts:145-153 | after logout no row holds the token, so refreshing with it is Unauthorized and a second logout deletes nothing |
| Auth.AuthService.Login | src/auth/auth.service.ts:74-104 | on valid credentials appends exactly one row with the user's id, the new token and an expiry of now + 30 days, and returns that token with an access token signed over username and role for "30m"; otherwise the lookup error and no new row |
| Auth.AuthService.Register | src/auth/auth.service.ts:34-72 | in order: creates the user; caches `verify:<uuid>` to the user's id for 86400000 ms; queues one "confirmation" job with e-mail, username and uuid; returns the login with the plaintext password. A failed step leaves the earlier effects and is reported through RegisterFailure |
| Auth.AuthService.RefreshToken | src/auth/auth.service.ts:106-143 | when CheckRefresh accepts, the same row id is rotated to the new token with expiry now + 30 days and a new access token is returned; otherwise CheckRefresh's error and no change |
| Auth.AuthService.Logout | src/auth/auth.service.ts:145-153 | deletes every row holding the token and no other; Unauthorized "Invalid refresh token" iff none held it |
| Auth.AuthService.EmailVerification | src/auth/auth.service.ts:155-173 | with a cached, non-empty user id that names a user: marks that user verified, deletes the key and returns "Email verified successfully"; otherwise NotFound "Invalid token" and no change |
| Auth.RefreshTwice | src/auth/auth.service.ts:106-142 | refreshing a live token succeeds, refreshing it again is Unauthorized, and the token it was exchanged for is accepted |
| Auth.LogoutTwice | src/auth/auth.service.ts:145-153 | after a logout the token neither refreshes nor logs out again |
| Auth.VerifyTwice | src/auth/auth.service.ts:155-173 | a verification token that succeeded once is refused the second time |
| Cron.InactiveSweepIsExact | src/cron/cron.service.ts:13-20 | exactly the unverified users created before now - 24 h are removed; verified and recent users survive; the count is the number removed |
| Cron.ExpiredSweepIsExact | src/cron/cron.service.ts:27-33 | exactly the rows with `expiresIn < now` are removed, every survivor has `expiresIn >= now`, and the count is the number removed |
| Cron.SweepsAreIdempotent | src/cron/cron.service.ts:13-35 | a second sweep at the same instant removes nothing and leaves both tables as they were |
| Cron.SweptTokensPassExpiryCheck | src/cron/cron.service.ts:28-32 | a token that survives the sweep at `t` is never refused as expired by the refresh check at `t` |
| Cron.CronService.DeleteInactiveUsers | src/cron/cron.service.ts:12-23 | the user table after the sweep and the reported count, equal to the number of rows removed; other tables untouched |
| Cron.CronService.DeleteExpiredTokens | src/cron/cron.service.ts:26-36 | the token table after the sweep and the reported count, equal to the number of rows removed; every remaining row has `expiresIn >= now` |
| Cron.SweepTwice | src/cron/cron.service.ts:11-36 | running both sweeps twice at the same instant, the second run reports zero for each |
| Reviews.HandleError | src/reviews/reviews.service.ts:36-53 | success is returned unchanged; an HTTP exception is rethrown as it is; P2025 becomes NotFound "The requested record was not found."; everything else becomes InternalServerError "Internal error processing data"; every error that leaves is an HTTP exception |
| Reviews.HandleErrorIdempotent | src/reviews/reviews.service.ts:150-192 | nesting the handler, as createReview does around handleReview, changes nothing |
| Reviews.MetadataErrorsBecomeInternal | src/reviews/reviews.service.ts:158-162 | a failed metadata request inside createReview is reported as the generic internal error, whatever its status |
| Reviews.NormalizeMediaData | src/reviews/reviews.service.ts:55-79 | id and type are the request's; a movie supplies title and release date, a show its name and first air date; a null or empty poster path becomes undefined |
| Reviews.NormalizedMediaValidity | src/reviews/reviews.service.ts:55-79 | the normalised record satisfies the CreateMediaDto rules iff the fields read for its type are present and non-empty |
| Reviews.TotalPages | src/reviews/reviews.service.ts:101 | `max(1, ceil(total / take))`: at least one page; the pages hold every result; one page fewer would not |
| Reviews.PageNumber | src/reviews/reviews.service.ts:99 | the requested page, or 1 when it is absent or zero |
| Reviews.WhereClause | src/reviews/reviews.service.ts:112-115 | the clause is `{id}` for an ADMIN and `{id, username}` for any other role |
| Reviews.WhereClauseSelects | src/reviews/reviews.service.ts:112-115 | a review matches iff it has that id and the caller is an admin or wrote it |
| Reviews.OwnerOrAdminDisambiguation | src/reviews/reviews.service.ts:117-129 | with unique ids, the clause selects nothing iff the review is missing, or the caller is not an admin and the review is someone else's |
| Reviews.ApplyPatchKeeps | src/reviews/reviews.service.ts:201-203 | a patch keeps id, owner and media, replaces only the fields it carries, and the empty patch changes nothing |
| Reviews.ReviewRecordIsValid | src/reviews/reviews.service.ts:166-172 | a request that passed HandleReviewDataDto, with a UUID user id and a non-empty username, yields a record that passes CreateReviewDto |
| Reviews.ReviewsService.FindReviews | src/reviews/reviews.service.ts:81-105 | the page number; the results are the matching reviews from position `skip` on, `take` of them or as many as remain, in order; `total_results` is the number of matches and `total_pages` is TotalPages of it |
| Reviews.ReviewsService.GetReviewsByMediaId | src/reviews/reviews.service.ts:132-137 | the listing of the reviews of that media: `total_results` is their number, the results are their `skip`/`take` window in order, and the page number and page count follow FindReviews |
| Reviews.ReviewsService.GetReviewsByUsername | src/reviews/reviews.service.ts:139-144 | the listing of the reviews by that username: `total_results` is their number, the results are their `skip`/`take` window in order, and the page number and page count follow FindReviews |
| Reviews.ReviewsService.AuthorizeAndExecute | src/reviews/reviews.service.ts:107-130 | the action runs under the owner-or-admin clause; success iff it touched a row; otherwise the table is unchanged and the error is NotFound "Review with ID … is not found" for a missing review, Forbidden for another's |
| Reviews.ReviewsService.UpdateReview | src/reviews/reviews.service.ts:195-217 | only the review with that id changes, only for its owner or an admin; the returned row is the stored, patched row; the re-read never fails |
| Reviews.ReviewsService.DeleteReview | src/reviews/reviews.service.ts:219-225 | on success no review has that id and every other review stays; a non-owner non-admin gets Forbidden and the table is unchanged |
| Reviews.ReviewsService.HandleReview | src/reviews/reviews.service.ts:178-193 | a record lacking a title or date fails with the internal error and nothing is stored, even when the media row already exists, because the upsert's create data is always checked. Otherwise an existing media row is returned untouched, or one is created. The review is then appended, unless the user already reviewed that media: this is an internal error, and the new media row stays |
| Reviews.ReviewsService.CreateReview | src/reviews/reviews.service.ts:146-176 | an unknown caller is NotFound; a failed metadata request goes through the handler; a created review carries the looked-up user's id, the caller's username, and the request's rating, text and media id. Once the caller and the metadata are found, it succeeds iff the user has not reviewed that media and the normalised record has a title and a date. Once the caller and the metadata are found, both tables end exactly as HandleReview leaves them; an existing media row is never modified |
| AxiosFilter.Catch | src/common/filters/axios-exception.filter.ts:12-24 | always throws an HTTP exception: NotFound iff the response status is 404, otherwise InternalServerError |
| AxiosFilter.OnlyNotFoundIsSpecial | src/common/filters/axios-exception.filter.ts:13-23 | a missing response and every status other than 404 end in the same internal error |
| AuthDto.ParseRegister | src/auth/dto/register.dto.ts:9-24 | a typed value iff the body is valid; then the username is non-empty with length at most 50, the e-mail is non-empty, recognised and at most 50 long, and the password has length 8..20 (lengths as validator.js `isLength` counts them: code points other than U+FE0E and U+FE0F) |
| AuthDto.VariationSelectorsAreNotCounted | src/auth/dto/register.dto.ts:20-23 | a password of seven letters and U+FE0F, eight code points, is rejected as too short |
| AuthDto.RegisterNeedsEveryField | src/auth/dto/register.dto.ts:10-23 | a body missing any property is rejected |
| AuthDto.RegisterPasswordBounds | src/auth/dto/register.dto.ts:20-23 | with a valid username and e-mail, the body is accepted iff the password's `isLength` count is in 8..20, inclusive at both ends |
| AuthDto.ParseLogin | src/auth/dto/login.dto.ts:3-13 | a typed value iff the body is valid: a non-empty username of length at most 50 and a password of length 8..20 (lengths as validator.js `isLength` counts them: code points other than U+FE0E and U+FE0F) |
| AuthDto.LoginBounds | src/auth/dto/login.dto.ts:4-12 | a login body is valid exactly when both are strings, the username non-empty with `isLength` count at most 50 and the password with count 8..20 |
| UserDto.ParseCreateUser | src/users/dto/create-user.dto.ts:9-24 | a typed value iff the body is valid, with the same bounds as registration (lengths as validator.js `isLength` counts them: code points other than U+FE0E and U+FE0F) |
| UserDto.SameRulesAsRegister | src/users/dto/create-user.dto.ts:9-24 | CreateUserDto accepts exactly the bodies RegisterDto accepts |
| ReviewDto.ParseHandleReviewData | src/reviews/dto/review/handle-review-data.dto.ts:14-33 | a typed value iff the body is valid under the intended rules: a numeric rating in 1..5; an optional text whose `isLength` count is at most 10000; a media type in {Movie, TV}; a numeric media id |
| Validation.IsLengthCount | src/auth/dto/register.dto.ts:11-22 | the length the length decorators measure: the string's size less its U+FE0E and U+FE0F characters |
| Validation.EnumValues | src/reviews/dto/review/handle-review-data.dto.ts:27 | the values `@IsEnum` admits: an enum object's members, and none for a function argument |
| ReviewDto.ArrowFunctionEnumRejectsEveryBody | src/reviews/dto/review/handle-review-data.dto.ts:26-28 | with `@IsEnum(() => MediaType)` as written, every body is rejected, including a well-formed movie review the intended rule accepts |
| ReviewDto.RatingBounds | src/reviews/dto/review/handle-review-data.dto.ts:15-19 | ratings 0 and 6 are rejected, 1 and 5 accepted |
| ReviewDto.RequiredFields | src/reviews/dto/review/handle-review-data.dto.ts:15-32 | a body without rating, media type or media id is rejected |
| ReviewDto.ParseUpdateReview | src/reviews/dto/review/update-review.dto.ts:10-21 | a typed patch iff the body is valid: each property may be omitted; a present rating is in 1..5 and a present text has an `isLength` count of at most 10000 |
| ReviewDto.PatchExamples | src/reviews/dto/review/update-review.dto.ts:11-15 | the empty patch is valid and a rating of 10 is not |
| ReviewDto.CreateReviewRules | src/reviews/dto/review/create-review.dto.ts:12-35 | a record passes iff its rating is in 1..5, its text (if any) has an `isLength` count of at most 10000, its user id is a non-empty UUID and its username is non-empty |
| MediaDto.CreateMediaRules | src/reviews/dto/media/create-media.dto.ts:10-30 | a media record passes iff title and release date are present and non-empty; id, type and poster path always pass |

## Left out

- The Prisma schema is not part of this model. Its unique indexes are taken to be the ones
  the services rely on: users by id, username and e-mail; tokens by id and token; reviews
  by id and by `(userId, mediaId)`; media by id. Foreign keys and cascades are not
  modelled: deleting a user leaves its tokens and reviews in place.
- `UpdateUserDto` is not part of this model. The patch is taken to carry optional
  username, e-mail and password.
- The target of a modelled P2002 error lists every clashing column. Prisma reports the one
  index that failed.
- The cache's time-to-live is recorded with each entry, but entries never expire in the
  model. A lookup after the day has passed is not modelled.
- Every call reads the clock once. The second reading refreshToken takes for the new
  expiry is the same instant as the first.
- Concurrency is not modelled. The model is sequential, so interleaved refresh and logout
  requests are out of scope.
- Crypto.Hash: the bcrypt digest is an injective symbolic value, so bcrypt's cut of a
  password at its first 72 UTF-8 bytes (two longer passwords sharing those bytes compare
  equal) is not modelled. One-wayness, cost and bcrypt's rejection of a malformed salt
  string are not modelled either.
- JWT signing, `randomBytes`, `uuidv4` and the pagination helper are foreign calls. They
  are values or fresh parameters; `take > 0` is required of the helper's result.
- JavaScript numbers are reals. NaN and the infinities are not modelled, and neither is
  Prisma's rejection of a fractional value for an integer column.
- A `null` property in a review patch is treated as absent. Prisma would write the null.
- createUser overwrites the password of the object it is given. That object is not
  observable anywhere in the model: register passes a fresh object.
- ReviewDto.ParseHandleReviewData: uses the evident media-type rule, membership in
  {Movie, TV}, rather than the as-written `@IsEnum(() => MediaType)`, which admits no value
  (see "## Findings"). Nested validation through PostReviewDto is not modelled.
- The mail worker, the Handlebars templates and the mail API are not modelled. A queued
  job is only appended to the queue.
- HTTP transport, controllers, guards, `console.error` and the loggers of the cron jobs
  are not modelled. Sweep counts are returned instead of logged.
- Store, cache and queue failures are modelled only in register and createUser (the
  `failure` and `Faults` parameters). In login, refreshToken, logout, emailVerification,
  updateUser, deleteUser, the cron sweeps and the reviews service these calls always
  succeed; in the code such an error would propagate raw, or through handleError as the
  generic internal error in the reviews service.
- The TMDB client is not modelled. Its result enters createReview as a parameter.
- The reviews controller hands deleteReview the whole request instead of its user
  (src/reviews/reviews.controller.ts:61). Only the service's contract is modelled, with
  the caller's payload.
- findMany has no `orderBy`. The model pages through the matching reviews in storage
  order, which is one order the database may return.
- The "Failed to retrieve the review after a successful update." branch of updateReview
  is kept as written. The contract of the update method shows that it is never taken.

## Findings

| source | as written | input that shows it | evidently intended | confidence | as-written member | corrected member |
|---|---|---|---|---|---|---|
| src/reviews/dto/review/handle-review-data.dto.ts:27 | `@IsEnum(() => MediaType)` hands the validator a function; its values are those of the argument's own keys, and a function has none, so no media type passes | `{ rating: 3, mediaType: "Movie", mediaId: 550 }` is rejected | `@IsEnum(MediaType)`, as in src/reviews/dto/media/create-media.dto.ts:16: the media type is Movie or TV | medium; not executed | ReviewDto.ArrowFunctionEnumRejectsEveryBody | ReviewDto.ParseHandleReviewData |
