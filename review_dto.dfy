/** The review DTOs: HandleReviewDataDto (the body of a review creation), UpdateReviewDto
    (the body of a review patch) and CreateReviewDto (the review row the service builds). */
module ReviewDto {
  import opened Common
  import opened Validation
  import opened Schema

  /** The string values of the MediaType enum. */
  const MediaTypeValues: set<string> := {"Movie", "TV"}

  function MediaTypeName(t: MediaType): (s: string)
    ensures s in MediaTypeValues
  {
    match t
    case Movie => "Movie"
    case TV => "TV"
  }

  datatype HandleReviewDataBody = HandleReviewDataBody(rating: Field, text: Field, mediaType: Field, mediaId: Field)

  /** The decorators of HandleReviewDataDto. */
  predicate ValidHandleReviewData(b: HandleReviewDataBody) {
    && IsNotEmpty(b.rating) && IsNumber(b.rating) && Min(b.rating, 1.0) && Max(b.rating, 5.0)
    && (Omitted(b.text) || (IsString(b.text) && MaxLength(b.text, 10000)))
    && IsNotEmpty(b.mediaType) && IsEnum(b.mediaType, MediaTypeValues)
    && IsNotEmpty(b.mediaId) && IsNumber(b.mediaId)
  }

  /** The decorators of HandleReviewDataDto as written: `@IsEnum(() => MediaType)` hands the
      validator a function instead of the enum object. */
  predicate ValidHandleReviewDataAsWritten(b: HandleReviewDataBody) {
    && IsNotEmpty(b.rating) && IsNumber(b.rating) && Min(b.rating, 1.0) && Max(b.rating, 5.0)
    && (Omitted(b.text) || (IsString(b.text) && MaxLength(b.text, 10000)))
    && IsNotEmpty(b.mediaType) && IsEnum(b.mediaType, EnumValues(ArrowFunction))
    && IsNotEmpty(b.mediaId) && IsNumber(b.mediaId)
  }

  /** As written the media-type rule admits no value, so every review creation body is
      rejected, including a well-formed movie review that the intended rule accepts. */
  lemma ArrowFunctionEnumRejectsEveryBody(b: HandleReviewDataBody)
    ensures !ValidHandleReviewDataAsWritten(b)
    ensures var movie := HandleReviewDataBody(Some(Num(3.0)), None, Some(Str("Movie")), Some(Num(550.0)));
      ValidHandleReviewData(movie) && !ValidHandleReviewDataAsWritten(movie)
  {
  }

  /** A review creation request that passed validation. */
  datatype HandleReviewData = HandleReviewData(rating: real, text: Option<string>, mediaType: MediaType, mediaId: real)

  /** The text of an optional string property: None when null or undefined. */
  function OptionalText(f: Field): Option<string>
    requires Omitted(f) || IsString(f)
  {
    if Omitted(f) then None else Some(f.value.s)
  }

  function ParseHandleReviewData(b: HandleReviewDataBody): (r: Option<HandleReviewData>)
    ensures r.Some? <==> ValidHandleReviewData(b)
    ensures r.Some? ==>
      && b.rating == Some(Num(r.value.rating)) && 1.0 <= r.value.rating <= 5.0
      && b.mediaType == Some(Str(MediaTypeName(r.value.mediaType)))
      && b.mediaId == Some(Num(r.value.mediaId))
      && (r.value.text.None? <==> Omitted(b.text))
      && (r.value.text.Some? ==> b.text == Some(Str(r.value.text.value)) && IsLengthCount(r.value.text.value) <= 10000)
  {
    if ValidHandleReviewData(b) then
      var t := if b.mediaType.value.s == "Movie" then Movie else TV;
      Some(HandleReviewData(b.rating.value.n, OptionalText(b.text), t, b.mediaId.value.n))
    else
      None
  }

  /** Ratings 0 and 6 are rejected; 1 and 5 are accepted. */
  lemma RatingBounds(text: Field, mediaType: Field, mediaId: Field)
    requires ValidHandleReviewData(HandleReviewDataBody(Some(Num(3.0)), text, mediaType, mediaId))
    ensures !ValidHandleReviewData(HandleReviewDataBody(Some(Num(0.0)), text, mediaType, mediaId))
    ensures !ValidHandleReviewData(HandleReviewDataBody(Some(Num(6.0)), text, mediaType, mediaId))
    ensures ValidHandleReviewData(HandleReviewDataBody(Some(Num(1.0)), text, mediaType, mediaId))
    ensures ValidHandleReviewData(HandleReviewDataBody(Some(Num(5.0)), text, mediaType, mediaId))
  {
  }

  /** A body without a rating or without a media type is rejected. */
  lemma RequiredFields(b: HandleReviewDataBody)
    requires b.rating.None? || b.mediaType.None? || b.mediaId.None?
    ensures !ValidHandleReviewData(b)
  {
  }

  datatype UpdateReviewBody = UpdateReviewBody(rating: Field, text: Field)

  /** The decorators of UpdateReviewDto: both properties optional. */
  predicate ValidUpdateReview(b: UpdateReviewBody) {
    && (Omitted(b.rating) || (IsNumber(b.rating) && Min(b.rating, 1.0) && Max(b.rating, 5.0)))
    && (Omitted(b.text) || (IsString(b.text) && MaxLength(b.text, 10000)))
  }

  /** A validated review patch: None means the property is left as it is. */
  datatype UpdateReviewDto = UpdateReviewDto(rating: Option<real>, text: Option<string>)

  function ParseUpdateReview(b: UpdateReviewBody): (r: Option<UpdateReviewDto>)
    ensures r.Some? <==> ValidUpdateReview(b)
    ensures r.Some? ==>
      && (r.value.rating.None? <==> Omitted(b.rating))
      && (r.value.rating.Some? ==> b.rating == Some(Num(r.value.rating.value)) && 1.0 <= r.value.rating.value <= 5.0)
      && (r.value.text.None? <==> Omitted(b.text))
      && (r.value.text.Some? ==> b.text == Some(Str(r.value.text.value)) && IsLengthCount(r.value.text.value) <= 10000)
  {
    if ValidUpdateReview(b) then
      Some(UpdateReviewDto(if Omitted(b.rating) then None else Some(b.rating.value.n), OptionalText(b.text)))
    else
      None
  }

  /** The empty patch is valid, and a rating of 10 is not. */
  lemma PatchExamples()
    ensures ValidUpdateReview(UpdateReviewBody(None, None))
    ensures !ValidUpdateReview(UpdateReviewBody(Some(Num(10.0)), None))
  {
  }

  datatype CreateReviewBody = CreateReviewBody(rating: Field, text: Field, userId: Field, mediaId: Field, username: Field)

  /** The decorators of CreateReviewDto; `isUuid` is the UUID recogniser. */
  predicate ValidCreateReview(b: CreateReviewBody, isUuid: string -> bool) {
    && IsNotEmpty(b.rating) && IsNumber(b.rating) && Min(b.rating, 1.0) && Max(b.rating, 5.0)
    && (Omitted(b.text) || (IsString(b.text) && MaxLength(b.text, 10000)))
    && IsNotEmpty(b.userId) && Recognised(b.userId, isUuid)
    && IsNotEmpty(b.mediaId) && IsNumber(b.mediaId)
    && IsNotEmpty(b.username) && IsString(b.username)
  }

  /** The review row the service asks Prisma to create. */
  datatype CreateReviewDto = CreateReviewDto(rating: real, text: Option<string>, userId: Id, mediaId: real, username: string)

  /** The JSON shape of a CreateReviewDto (an absent text is `undefined`). */
  function CreateReviewBodyOf(d: CreateReviewDto): CreateReviewBody {
    CreateReviewBody(
      Some(Num(d.rating)),
      if d.text.Some? then Some(Str(d.text.value)) else None,
      Some(Str(d.userId)),
      Some(Num(d.mediaId)),
      Some(Str(d.username)))
  }

  /** What the CreateReviewDto rules demand of a review record. */
  lemma CreateReviewRules(d: CreateReviewDto, isUuid: string -> bool)
    ensures ValidCreateReview(CreateReviewBodyOf(d), isUuid) <==>
      && 1.0 <= d.rating <= 5.0
      && (d.text.Some? ==> IsLengthCount(d.text.value) <= 10000)
      && d.userId != "" && isUuid(d.userId)
      && d.username != ""
  {
  }
}
