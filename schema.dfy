/** The relational schema the services read and write (the Prisma models). */
module Schema {
  import opened Common
  import opened Crypto

  /** Primary keys of users, tokens and reviews are uuid strings. */
  type Id = string
  /** A point in time, in milliseconds since the epoch (`Date.now()`). */
  type Time = int

  datatype Role = USER | ADMIN
  datatype MediaType = Movie | TV

  datatype User = User(
    id: Id,
    username: string,
    email: string,
    password: StoredPassword,
    role: Role,
    verified: bool,
    createdAt: Time)

  /** A refresh-token row: one per live session. */
  datatype TokenRow = TokenRow(id: Id, userId: Id, token: string, expiresIn: Time)

  /** JavaScript numbers are modelled as reals (NaN and the infinities are left out). */
  datatype Media = Media(
    id: real,
    mediaType: MediaType,
    title: string,
    releaseDate: string,
    posterPath: Option<string>)

  datatype Review = Review(
    id: Id,
    rating: real,
    text: Option<string>,
    userId: Id,
    username: string,
    mediaId: real)

  /** The claims carried by an access token; the JWT guard turns them into `req.user`. */
  datatype Payload = Payload(username: string, role: Role)

  /** What login and refresh hand back to the caller. */
  datatype TokenPair = TokenPair(accessToken: AccessToken<Payload>, refreshToken: string)
}
