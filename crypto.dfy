/** Stand-ins for the two cryptographic libraries the services call: bcrypt and JWT signing. */
module Crypto {

  /** The SALT setting handed to bcrypt: configuration values are numbers or strings. */
  datatype Salt = Rounds(n: int) | Text(s: string)

  /** The value of a stored password column. A bcrypt digest is modelled symbolically:
      it records the salt and the secret it was computed from, which is what lets
      `Compare` be defined; that the real digest is one-way is not modelled.
      `Unhashed` is a column value written without going through bcrypt. */
  datatype StoredPassword = Digest(salt: Salt, secret: string) | Unhashed(text: string)

  /** bcrypt.hash: the digest verifies exactly the password it was computed from. */
  function Hash(password: string, salt: Salt): (h: StoredPassword)
    ensures h.Digest? && h.salt == salt
    ensures forall candidate :: Compare(candidate, h) <==> candidate == password
  {
    Digest(salt, password)
  }

  /** bcrypt.compare: true when `candidate` is the secret of a well-formed digest; a
      column that is not a digest never matches. */
  predicate Compare(candidate: string, stored: StoredPassword): (ok: bool)
    ensures ok <==> exists salt :: stored == Digest(salt, candidate)
  {
    stored.Digest? && stored.secret == candidate
  }

  /** A signed JWT, symbolic: the claims and the `expiresIn` option it was signed with. */
  datatype AccessToken<P> = Signed(payload: P, expiresIn: string)

  /** JwtService.signAsync(payload, { expiresIn }). */
  function Sign<P>(payload: P, expiresIn: string): (t: AccessToken<P>)
    ensures t.payload == payload && t.expiresIn == expiresIn
  {
    Signed(payload, expiresIn)
  }
}
