/** CreateMediaDto: the media row the review service upserts, and its validation rules. */
module MediaDto {
  import opened Common
  import opened Validation
  import opened Schema
  import ReviewDto

  datatype CreateMediaBody = CreateMediaBody(id: Field, mediaType: Field, title: Field, releaseDate: Field, posterPath: Field)

  /** The decorators of CreateMediaDto. */
  predicate ValidCreateMedia(b: CreateMediaBody) {
    && IsNotEmpty(b.id) && IsNumber(b.id)
    && IsNotEmpty(b.mediaType) && IsEnum(b.mediaType, ReviewDto.MediaTypeValues)
    && IsNotEmpty(b.title) && IsString(b.title)
    && IsNotEmpty(b.releaseDate) && IsString(b.releaseDate)
    && (Omitted(b.posterPath) || IsString(b.posterPath))
  }

  /** A media record as the normaliser builds it; a property read from a metadata object
      that lacks it is `undefined` (None). */
  datatype CreateMediaDto = CreateMediaDto(id: real, mediaType: MediaType, title: Option<string>, releaseDate: Option<string>, posterPath: Option<string>)

  function StringField(s: Option<string>): Field {
    if s.Some? then Some(Str(s.value)) else None
  }

  /** The JSON shape of a CreateMediaDto. */
  function CreateMediaBodyOf(d: CreateMediaDto): CreateMediaBody {
    CreateMediaBody(
      Some(Num(d.id)),
      Some(Str(ReviewDto.MediaTypeName(d.mediaType))),
      StringField(d.title),
      StringField(d.releaseDate),
      StringField(d.posterPath))
  }

  /** A media record passes the CreateMediaDto rules exactly when it has a non-empty title
      and a non-empty release date; id, type and poster path always pass. */
  lemma CreateMediaRules(d: CreateMediaDto)
    ensures ValidCreateMedia(CreateMediaBodyOf(d)) <==>
      d.title.Some? && d.title.value != "" && d.releaseDate.Some? && d.releaseDate.value != ""
  {
  }
}
