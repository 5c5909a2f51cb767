/** The reviews service: the error classifier, the Movie/TV normaliser, paginated review
    listings, the owner-or-admin rule for edits and deletions, and review creation with
    the media row it refers to. */
module Reviews {
  import opened Common
  import opened Schema
  import opened Tables
  import opened Db
  import opened Users
  import opened ReviewDto
  import opened MediaDto

  const RecordNotFound := Http(NotFound, "The requested record was not found.")
  const ProcessingFailed := Http(InternalServerError, "Internal error processing data")
  const NoPermission := Http(Forbidden, "You do not have permission to edit or delete this review.")
  const RereadFailed := Http(InternalServerError, "Failed to retrieve the review after a successful update.")
  /** What Prisma raises when a required column of a created row is undefined. */
  const MissingColumn := Runtime("PrismaClientValidationError")
  /** The unique index of the review table. */
  const ReviewKey := ["userId", "mediaId"]

  function ReviewNotFound(id: Id): (e: Exception)
    ensures e.Http? && e.kind == NotFound
  {
    Http(NotFound, "Review with ID " + id + " is not found")
  }

  /** handleError: the action's outcome on success; an HTTP exception passes through, a
      Prisma "record not found" becomes NotFound, anything else the generic internal error. */
  function HandleError<T>(outcome: Result<T>): (r: Result<T>)
    ensures outcome.Ok? ==> r == outcome
    ensures r.Err? ==> outcome.Err? && r.error.Http?
    ensures outcome.Err? && outcome.error.Http? ==> r == outcome
    ensures outcome.Err? && outcome.error.PrismaKnown? && outcome.error.code == RecordMissing ==> r == Err(RecordNotFound)
    ensures outcome.Err? && !outcome.error.Http? && !(outcome.error.PrismaKnown? && outcome.error.code == RecordMissing) ==>
      r == Err(ProcessingFailed)
  {
    match outcome
    case Ok(_) => outcome
    case Err(e) =>
      if e.Http? then outcome
      else if e.PrismaKnown? && e.code == RecordMissing then Err(RecordNotFound)
      else Err(ProcessingFailed)
  }

  /** Nesting handlers, as createReview does around handleReview, changes nothing. */
  lemma HandleErrorIdempotent<T>(outcome: Result<T>)
    ensures HandleError(HandleError(outcome)) == HandleError(outcome)
  {
  }

  /** A failed metadata request inside createReview is not an HTTP exception, so the
      handler reports the generic internal error whatever the upstream status was. */
  lemma MetadataErrorsBecomeInternal<T>(e: AxiosError)
    ensures HandleError<T>(Err(Axios(e))) == Err(ProcessingFailed)
  {
  }

  /** The metadata fields the normaliser reads from a movie or a TV show; absent or null
      fields are None. */
  datatype MediaDetails = MediaDetails(
    title: Option<string>,
    releaseDate: Option<string>,
    name: Option<string>,
    firstAirDate: Option<string>,
    posterPath: Option<string>)

  /** normalizeMediaData: a movie's title and release date, or a show's name and first
      air date; a falsy poster path becomes undefined. */
  function NormalizeMediaData(media: MediaDetails, mediaType: MediaType, mediaId: real): (d: CreateMediaDto)
    ensures d.id == mediaId && d.mediaType == mediaType
    ensures mediaType == Movie ==> d.title == media.title && d.releaseDate == media.releaseDate
    ensures mediaType == TV ==> d.title == media.name && d.releaseDate == media.firstAirDate
    ensures d.posterPath.Some? <==> media.posterPath.Some? && media.posterPath.value != ""
    ensures d.posterPath.Some? ==> d.posterPath == media.posterPath
  {
    var poster := if media.posterPath.Some? && media.posterPath.value != "" then media.posterPath else None;
    if mediaType == Movie then
      CreateMediaDto(mediaId, mediaType, media.title, media.releaseDate, poster)
    else
      CreateMediaDto(mediaId, mediaType, media.name, media.firstAirDate, poster)
  }

  /** The normalised record passes the CreateMediaDto rules exactly when the fields read
      for its type are present and non-empty. */
  lemma NormalizedMediaValidity(media: MediaDetails, mediaType: MediaType, mediaId: real)
    ensures var title := if mediaType == Movie then media.title else media.name;
      var date := if mediaType == Movie then media.releaseDate else media.firstAirDate;
      ValidCreateMedia(CreateMediaBodyOf(NormalizeMediaData(media, mediaType, mediaId))) <==>
        title.Some? && title.value != "" && date.Some? && date.value != ""
  {
    CreateMediaRules(NormalizeMediaData(media, mediaType, mediaId));
  }

  /** `Math.max(1, Math.ceil(total / take))`: the fewest pages, never less than one,
      that hold every result. */
  function TotalPages(total: nat, take: int): (pages: int)
    requires take > 0
    ensures pages >= 1
    ensures pages * take >= total
    ensures pages > 1 ==> (pages - 1) * take < total
  {
    var q := (total + take - 1) / take;
    var rem := (total + take - 1) % take;
    assert q * take + rem == total + take - 1;
    if q < 1 then 1 else q
  }

  /** `page ? page : 1`: an absent or zero page number reads as the first page. */
  function PageNumber(page: Option<int>): (n: int)
    ensures page.Some? && page.value != 0 ==> n == page.value
    ensures page.None? || page == Some(0) ==> n == 1
    ensures n != 0
  {
    if page.Some? && page.value != 0 then page.value else 1
  }

  /** The pagination envelope of a listing. */
  datatype ApiResponse<T> = ApiResponse(page: int, results: seq<T>, totalPages: int, totalResults: nat)

  /** A Prisma where-object over reviews: each present property must be equal. */
  datatype ReviewWhere = ReviewWhere(id: Option<Id>, username: Option<string>, mediaId: Option<real>)

  function Matches(w: ReviewWhere): Review -> bool {
    (r: Review) =>
      && (w.id.None? || r.id == w.id.value)
      && (w.username.None? || r.username == w.username.value)
      && (w.mediaId.None? || r.mediaId == w.mediaId.value)
  }

  /** authorizeAndExecute's where-clause: the id, and the caller's username unless the
      caller is an admin. */
  function WhereClause(user: Payload, reviewId: Id): (w: ReviewWhere)
    ensures w.id == Some(reviewId) && w.mediaId.None?
    ensures w.username == if user.role == ADMIN then None else Some(user.username)
  {
    ReviewWhere(Some(reviewId), if user.role != ADMIN then Some(user.username) else None, None)
  }

  /** The rows the where-clause selects: the review with that id, if the caller is an
      admin or wrote it. */
  lemma WhereClauseSelects(user: Payload, reviewId: Id, r: Review)
    ensures Matches(WhereClause(user, reviewId))(r) <==> r.id == reviewId && (user.role == ADMIN || r.username == user.username)
  {
  }

  /** With unique ids the clause selects nothing exactly when the review is missing or
      belongs to someone else and the caller is not an admin; so NotFound is reported
      for a missing review and Forbidden only for another user's review. */
  lemma OwnerOrAdminDisambiguation(rows: seq<Review>, user: Payload, reviewId: Id)
    requires UniqueReviews(rows)
    ensures var missing := FindFirst(rows, ReviewIdIs(reviewId)).None?;
      && (Count(rows, Matches(WhereClause(user, reviewId))) == 0 <==>
          missing || (user.role != ADMIN && FindFirst(rows, ReviewIdIs(reviewId)).value.username != user.username))
  {
    var p := Matches(WhereClause(user, reviewId));
    CountZero(rows, p);
    var found := FindFirst(rows, ReviewIdIs(reviewId));
    if found.Some? {
      assert forall x :: x in rows && x.id == reviewId ==> x == found.value;
    }
  }

  /** The two actions authorizeAndExecute runs. */
  datatype ReviewAction = UpdateMany(patch: UpdateReviewDto) | DeleteMany

  /** The data of updateMany: the properties present in the patch replace the row's. */
  function ApplyPatch(patch: UpdateReviewDto): Review -> Review {
    (r: Review) => r.(
      rating := if patch.rating.Some? then patch.rating.value else r.rating,
      text := if patch.text.Some? then patch.text else r.text)
  }

  /** A patched row keeps its key and owner, takes the patched properties and keeps the rest. */
  lemma ApplyPatchKeeps(patch: UpdateReviewDto, r: Review)
    ensures var s := ApplyPatch(patch)(r);
      && s.id == r.id && s.userId == r.userId && s.username == r.username && s.mediaId == r.mediaId
      && s.rating == (if patch.rating.Some? then patch.rating.value else r.rating)
      && s.text == (if patch.text.Some? then patch.text else r.text)
    ensures patch == UpdateReviewDto(None, None) ==> ApplyPatch(patch)(r) == r
  {
  }

  /** The review table after the action runs with where-predicate `p`. */
  function Execute(rows: seq<Review>, p: Review -> bool, action: ReviewAction): seq<Review> {
    match action
    case UpdateMany(patch) => UpdateWhere(rows, p, ApplyPatch(patch))
    case DeleteMany => DeleteWhere(rows, p)
  }

  /** The media row created from a normalised record that has a title and a date. */
  function MediaRow(d: CreateMediaDto): (m: Media)
    requires d.title.Some? && d.releaseDate.Some?
    ensures m.id == d.id && m.mediaType == d.mediaType && m.title == d.title.value
    ensures m.releaseDate == d.releaseDate.value && m.posterPath == d.posterPath
  {
    Media(d.id, d.mediaType, d.title.value, d.releaseDate.value, d.posterPath)
  }

  /** The review row created from a CreateReviewDto under the generated id. */
  function ReviewRow(d: CreateReviewDto, id: Id): (r: Review)
    ensures r.id == id && r.rating == d.rating && r.text == d.text
    ensures r.userId == d.userId && r.username == d.username && r.mediaId == d.mediaId
  {
    Review(id, d.rating, d.text, d.userId, d.username, d.mediaId)
  }

  /** The review record createReview builds: the looked-up user's id, the caller's
      username, and the rating, text and media id of the request. */
  function ReviewRecord(data: HandleReviewData, user: User, username: string): (d: CreateReviewDto)
    ensures d.rating == data.rating && d.text == data.text && d.mediaId == data.mediaId
    ensures d.userId == user.id && d.username == username
  {
    CreateReviewDto(data.rating, data.text, user.id, data.mediaId, username)
  }

  /** A request that passed HandleReviewDataDto yields a record that passes
      CreateReviewDto, given a UUID user id and a non-empty username. */
  lemma ReviewRecordIsValid(b: HandleReviewDataBody, user: User, username: string, isUuid: string -> bool)
    requires ParseHandleReviewData(b).Some?
    requires user.id != "" && isUuid(user.id) && username != ""
    ensures ValidCreateReview(CreateReviewBodyOf(ReviewRecord(ParseHandleReviewData(b).value, user, username)), isUuid)
  {
    CreateReviewRules(ReviewRecord(ParseHandleReviewData(b).value, user, username), isUuid);
  }

  /** Whether a review by that user of that media exists, which the unique index refuses. */
  predicate Reviewed(rows: seq<Review>, userId: Id, mediaId: real) {
    exists x :: x in rows && x.userId == userId && x.mediaId == mediaId
  }

  /** handleReview's outcome, from the media and review tables before (`media`, `reviews`)
      to the tables after (`media'`, `reviews'`) and the result `r`: an undefined title or
      date fails the upsert, whose create data is checked even when the row exists, and
      nothing is stored; otherwise an existing media row is kept untouched and a missing
      one is created; a second review of the same media by the same user fails after the media row is
      stored; otherwise the review row is appended. */
  ghost predicate Handled(media: seq<Media>, reviews: seq<Review>, mediaDto: CreateMediaDto, reviewDto: CreateReviewDto,
                          reviewId: Id, media': seq<Media>, reviews': seq<Review>, r: Result<(Media, Review)>)
  {
    var existing := FindFirst(media, MediaIdIs(mediaDto.id));
    if mediaDto.title.None? || mediaDto.releaseDate.None? then
      r == Err(ProcessingFailed) && media' == media && reviews' == reviews
    else
      var row := if existing.Some? then existing.value else MediaRow(mediaDto);
      && media' == (if existing.Some? then media else media + [row])
      && if Reviewed(reviews, reviewDto.userId, reviewDto.mediaId) then
           r == Err(ProcessingFailed) && reviews' == reviews
         else
           && r == Ok((row, ReviewRow(reviewDto, reviewId)))
           && reviews' == reviews + [ReviewRow(reviewDto, reviewId)]
  }

  class ReviewsService {
    const db: Store
    const users: UsersService

    ghost predicate Valid()
      reads this, users, db
    {
      users.db == db && db.Valid()
    }

    constructor (users: UsersService)
      requires users.db.Valid()
      ensures Valid() && this.users == users
    {
      this.users := users;
      this.db := users.db;
    }

    /** findReviews: one page of the matching reviews, with the page number, the number
        of matches and the number of pages. `take` and `skip` come from the pagination
        helper. */
    function FindReviews(where: ReviewWhere, page: Option<int>, take: int, skip: nat): (r: ApiResponse<Review>)
      requires take > 0
      reads db
      ensures r.page == PageNumber(page)
      ensures r.totalResults == Count(db.reviews, Matches(where))
      ensures r.totalPages == TotalPages(r.totalResults, take)
      ensures |r.results| <= take
      ensures forall x :: x in r.results ==> x in db.reviews && Matches(where)(x)
      ensures skip == 0 && r.totalResults <= take ==> |r.results| == r.totalResults
      ensures var m := Select(db.reviews, Matches(where));
        && |r.results| == (if skip >= |m| then 0 else if |m| - skip < take then |m| - skip else take)
        && forall i :: 0 <= i < |r.results| ==> r.results[i] == m[skip + i]
    {
      var matching := Select(db.reviews, Matches(where));
      ApiResponse(PageNumber(page), Window(matching, skip, take), TotalPages(Count(db.reviews, Matches(where)), take),
        Count(db.reviews, Matches(where)))
    }

    /** getReviewsByMediaId: a page of the reviews of that media. */
    function GetReviewsByMediaId(mediaId: real, page: Option<int>, take: int, skip: nat): (r: ApiResponse<Review>)
      requires take > 0
      reads db
      ensures forall x :: x in r.results ==> x in db.reviews && x.mediaId == mediaId
      ensures r.totalPages >= 1 && r.totalPages * take >= r.totalResults
      ensures r == FindReviews(ReviewWhere(None, None, Some(mediaId)), page, take, skip)
      ensures r.page == PageNumber(page)
      ensures var m := Select(db.reviews, (x: Review) => x.mediaId == mediaId);
        && r.totalResults == |m|
        && r.totalPages == TotalPages(|m|, take)
        && |r.results| == (if skip >= |m| then 0 else if |m| - skip < take then |m| - skip else take)
        && forall i :: 0 <= i < |r.results| ==> r.results[i] == m[skip + i]
    {
      SelectAgree(db.reviews, Matches(ReviewWhere(None, None, Some(mediaId))), (x: Review) => x.mediaId == mediaId);
      FindReviews(ReviewWhere(None, None, Some(mediaId)), page, take, skip)
    }

    /** getReviewsByUsername: a page of the reviews that user wrote. */
    function GetReviewsByUsername(username: string, page: Option<int>, take: int, skip: nat): (r: ApiResponse<Review>)
      requires take > 0
      reads db
      ensures forall x :: x in r.results ==> x in db.reviews && x.username == username
      ensures r.totalPages >= 1 && r.totalPages * take >= r.totalResults
      ensures r == FindReviews(ReviewWhere(None, Some(username), None), page, take, skip)
      ensures r.page == PageNumber(page)
      ensures var m := Select(db.reviews, (x: Review) => x.username == username);
        && r.totalResults == |m|
        && r.totalPages == TotalPages(|m|, take)
        && |r.results| == (if skip >= |m| then 0 else if |m| - skip < take then |m| - skip else take)
        && forall i :: 0 <= i < |r.results| ==> r.results[i] == m[skip + i]
    {
      SelectAgree(db.reviews, Matches(ReviewWhere(None, Some(username), None)), (x: Review) => x.username == username);
      FindReviews(ReviewWhere(None, Some(username), None), page, take, skip)
    }

    /** authorizeAndExecute: runs the action under the owner-or-admin where-clause; when
        it touches no row, a missing review is NotFound and any other Forbidden. */
    method AuthorizeAndExecute(user: Payload, reviewId: Id, action: ReviewAction) returns (r: Result<()>)
      requires Valid()
      modifies db
      ensures Valid()
      ensures db.users == old(db.users) && db.tokens == old(db.tokens) && db.media == old(db.media)
      ensures db.reviews == Execute(old(db.reviews), Matches(WhereClause(user, reviewId)), action)
      ensures var count := Count(old(db.reviews), Matches(WhereClause(user, reviewId)));
        if count > 0 then r == Ok(())
        else
          && db.reviews == old(db.reviews)
          && r == Err(if FindFirst(old(db.reviews), ReviewIdIs(reviewId)).None? then ReviewNotFound(reviewId) else NoPermission)
    {
      var p := Matches(WhereClause(user, reviewId));
      var count := Count(db.reviews, p);
      CountZero(db.reviews, p);
      var before := db.reviews;
      match action {
        case UpdateMany(patch) =>
          ReviewUpdateKeepsUnique(db.reviews, p, ApplyPatch(patch));
          db.reviews := UpdateWhere(db.reviews, p, ApplyPatch(patch));
          if count == 0 {
            UpdateNothing(before, p, ApplyPatch(patch));
          }
        case DeleteMany =>
          DeleteKeepsUniqueReviews(db.reviews, p);
          db.reviews := DeleteWhere(db.reviews, p);
          if count == 0 {
            DeleteNothing(before, p);
          }
      }
      if count == 0 {
        var exists_ := FindFirst(db.reviews, ReviewIdIs(reviewId));
        if exists_.None? {
          r := Err(ReviewNotFound(reviewId));
        } else {
          r := Err(NoPermission);
        }
        return;
      }
      r := Ok(());
    }

    /** updateReview: patches the review under the owner-or-admin rule and returns the
        stored row as re-read after the update. */
    method UpdateReview(user: Payload, reviewId: Id, patch: UpdateReviewDto) returns (r: Result<Review>)
      requires Valid()
      modifies db
      ensures Valid()
      ensures db.users == old(db.users) && db.tokens == old(db.tokens) && db.media == old(db.media)
      ensures var p := Matches(WhereClause(user, reviewId));
        var before := FindFirst(old(db.reviews), ReviewIdIs(reviewId));
        if Count(old(db.reviews), p) == 0 then
          && db.reviews == old(db.reviews)
          && r == Err(if before.None? then ReviewNotFound(reviewId) else NoPermission)
        else
          && before.Some?
          && db.reviews == UpdateWhere(old(db.reviews), p, ApplyPatch(patch))
          && r == Ok(ApplyPatch(patch)(before.value))
      ensures r.Ok? ==> r.value in db.reviews && r.value.id == reviewId
      ensures forall i :: 0 <= i < |old(db.reviews)| && old(db.reviews)[i].id != reviewId ==> db.reviews[i] == old(db.reviews)[i]
    {
      ghost var rows := db.reviews;
      var p := Matches(WhereClause(user, reviewId));
      var authorized := AuthorizeAndExecute(user, reviewId, UpdateMany(patch));
      if authorized.Err? {
        r := HandleError(Err(authorized.error));
        return;
      }
      CountZero(rows, p);
      ghost var target :| target in rows && p(target);
      assert forall x :: x in rows && x.id == reviewId ==> x == target;
      ReviewUpdateKeepsUnique(rows, p, ApplyPatch(patch));
      assert ApplyPatch(patch)(target) in db.reviews by {
        var k :| 0 <= k < |rows| && rows[k] == target;
        assert db.reviews[k] == ApplyPatch(patch)(target);
      }
      var updated := FindFirst(db.reviews, ReviewIdIs(reviewId));
      if updated.None? {
        r := Err(RereadFailed);
        return;
      }
      r := HandleError(Ok(updated.value));
    }

    /** deleteReview: deletes the review under the owner-or-admin rule. */
    method DeleteReview(user: Payload, reviewId: Id) returns (r: Result<()>)
      requires Valid()
      modifies db
      ensures Valid()
      ensures db.users == old(db.users) && db.tokens == old(db.tokens) && db.media == old(db.media)
      ensures var p := Matches(WhereClause(user, reviewId));
        var before := FindFirst(old(db.reviews), ReviewIdIs(reviewId));
        if Count(old(db.reviews), p) == 0 then
          && db.reviews == old(db.reviews)
          && r == Err(if before.None? then ReviewNotFound(reviewId) else NoPermission)
        else
          && r == Ok(())
          && db.reviews == DeleteWhere(old(db.reviews), p)
      ensures r.Ok? ==> forall x :: x in db.reviews ==> x.id != reviewId
      ensures r.Ok? ==> forall x :: x in old(db.reviews) && x.id != reviewId ==> x in db.reviews
    {
      ghost var rows := db.reviews;
      var p := Matches(WhereClause(user, reviewId));
      var outcome := AuthorizeAndExecute(user, reviewId, DeleteMany);
      r := HandleError(outcome);
      if r.Ok? {
        CountZero(rows, p);
        ghost var target :| target in rows && p(target);
        assert forall x :: x in rows && x.id == reviewId ==> x == target;
      }
    }

    /** handleReview: upserts the media row with an empty update, so an existing row is
        returned untouched, then creates the review. An undefined title or date fails
        the upsert whether or not the row exists, since Prisma checks the create data of
        every upsert; a second review of the same media by the same user violates
        the unique index after the media row is already stored. */
    method HandleReview(mediaDto: CreateMediaDto, reviewDto: CreateReviewDto, reviewId: Id) returns (r: Result<(Media, Review)>)
      requires Valid()
      requires forall x :: x in db.reviews ==> x.id != reviewId
      modifies db
      ensures Valid()
      ensures db.users == old(db.users) && db.tokens == old(db.tokens)
      ensures Handled(old(db.media), old(db.reviews), mediaDto, reviewDto, reviewId, db.media, db.reviews, r)
    {
      var existing := FindFirst(db.media, MediaIdIs(mediaDto.id));
      var media: Media;
      if mediaDto.title.None? || mediaDto.releaseDate.None? {
        r := HandleError(Err(MissingColumn));
        return;
      } else if existing.Some? {
        media := existing.value;
      } else {
        media := MediaRow(mediaDto);
        ghost var before := db.media;
        db.media := db.media + [media];
        forall i, j | 0 <= i < j < |db.media| ensures db.media[i].id != db.media[j].id {
          assert before[i] in before;
          if j < |before| {
            assert before[j] in before;
          }
        }
      }
      if Reviewed(db.reviews, reviewDto.userId, reviewDto.mediaId) {
        r := HandleError(Err(PrismaKnown(UniqueViolation, Fields(ReviewKey))));
        return;
      }
      var review := ReviewRow(reviewDto, reviewId);
      db.reviews := db.reviews + [review];
      r := HandleError(Ok((media, review)));
    }

    /** createReview: looks up the caller, normalises the metadata fetched for the media
        and hands the media row and the review record to handleReview. `fetched` is the
        outcome of the metadata request and `reviewId` the key the store generates. */
    method CreateReview(currentUser: Payload, dto: HandleReviewData, fetched: Result<MediaDetails>, reviewId: Id)
      returns (r: Result<(Media, Review)>)
      requires Valid()
      requires forall x :: x in db.reviews ==> x.id != reviewId
      modifies db
      ensures Valid()
      ensures db.users == old(db.users) && db.tokens == old(db.tokens)
      ensures r.Err? ==> r.error.Http?
      ensures var found := FindFirst(old(db.users), UsernameIs(currentUser.username));
        && (found.None? ==> r == Err(UserNotFound) && db.reviews == old(db.reviews) && db.media == old(db.media))
        && (found.Some? && fetched.Err? ==> r == HandleError(Err(fetched.error)) && db.reviews == old(db.reviews) && db.media == old(db.media))
        && (r.Ok? ==>
              && found.Some?
              && r.value.1 == ReviewRow(ReviewRecord(dto, found.value, currentUser.username), reviewId)
              && db.reviews == old(db.reviews) + [r.value.1]
              && r.value.0 in db.media && r.value.0.id == dto.mediaId)
      ensures var found := FindFirst(old(db.users), UsernameIs(currentUser.username));
        found.Some? && fetched.Ok? ==>
          (r.Ok? <==>
             && !Reviewed(old(db.reviews), found.value.id, dto.mediaId)
             && NormalizeMediaData(fetched.value, dto.mediaType, dto.mediaId).title.Some?
             && NormalizeMediaData(fetched.value, dto.mediaType, dto.mediaId).releaseDate.Some?)
      ensures FindFirst(old(db.media), MediaIdIs(dto.mediaId)).Some? ==> db.media == old(db.media)
      ensures var found := FindFirst(old(db.users), UsernameIs(currentUser.username));
        found.Some? && fetched.Ok? ==>
          Handled(old(db.media), old(db.reviews), NormalizeMediaData(fetched.value, dto.mediaType, dto.mediaId),
                  ReviewRecord(dto, found.value, currentUser.username), reviewId, db.media, db.reviews, r)
    {
      var found := users.GetUserByUsername(currentUser.username);
      if found.Err? {
        r := HandleError(Err(found.error));
        return;
      }
      var user := found.value;
      if fetched.Err? {
        r := HandleError(Err(fetched.error));
        return;
      }
      var mediaDto := NormalizeMediaData(fetched.value, dto.mediaType, dto.mediaId);
      var reviewDto := ReviewRecord(dto, user, currentUser.username);
      var handled := HandleReview(mediaDto, reviewDto, reviewId);
      r := HandleError(handled);
    }
  }
}
