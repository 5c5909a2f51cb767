/** The body of a user creation (CreateUserDto) and the typed value the users service stores. */
module UserDto {
  import opened Common
  import opened Validation
  import AuthDto

  datatype CreateUserBody = CreateUserBody(username: Field, email: Field, password: Field)

  /** The decorators of CreateUserDto. */
  predicate ValidCreateUser(b: CreateUserBody, isEmail: string -> bool) {
    && IsNotEmpty(b.username) && IsString(b.username) && MaxLength(b.username, 50)
    && IsNotEmpty(b.email) && Recognised(b.email, isEmail) && MaxLength(b.email, 50)
    && IsNotEmpty(b.password) && IsString(b.password) && Length(b.password, 8, 20)
  }

  /** The fields handed to `prisma.user.create`. */
  datatype CreateUserDto = CreateUserDto(username: string, email: string, password: string)

  function ParseCreateUser(b: CreateUserBody, isEmail: string -> bool): (r: Option<CreateUserDto>)
    ensures r.Some? <==> ValidCreateUser(b, isEmail)
    ensures r.Some? ==>
      && b == CreateUserBody(Some(Str(r.value.username)), Some(Str(r.value.email)), Some(Str(r.value.password)))
      && r.value.username != "" && IsLengthCount(r.value.username) <= 50
      && r.value.email != "" && IsLengthCount(r.value.email) <= 50 && isEmail(r.value.email)
      && 8 <= IsLengthCount(r.value.password) <= 20
  {
    if ValidCreateUser(b, isEmail) then
      Some(CreateUserDto(b.username.value.s, b.email.value.s, b.password.value.s))
    else
      None
  }

  /** CreateUserDto and RegisterDto accept exactly the same bodies. */
  lemma SameRulesAsRegister(u: Field, e: Field, p: Field, isEmail: string -> bool)
    ensures ValidCreateUser(CreateUserBody(u, e, p), isEmail) <==> AuthDto.ValidRegister(AuthDto.RegisterBody(u, e, p), isEmail)
  {
  }
}
