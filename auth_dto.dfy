/** The request bodies of the authentication endpoints (RegisterDto, LoginDto): their
    validation rules and the typed values that reach the auth service. */
module AuthDto {
  import opened Common
  import opened Validation

  datatype RegisterBody = RegisterBody(username: Field, email: Field, password: Field)

  /** The decorators of RegisterDto, property by property. */
  predicate ValidRegister(b: RegisterBody, isEmail: string -> bool) {
    && IsNotEmpty(b.username) && IsString(b.username) && MaxLength(b.username, 50)
    && IsNotEmpty(b.email) && Recognised(b.email, isEmail) && MaxLength(b.email, 50)
    && IsNotEmpty(b.password) && IsString(b.password) && Length(b.password, 8, 20)
  }

  /** A registration request that passed validation. */
  datatype RegisterDto = RegisterDto(username: string, email: string, password: string)

  /** The validation pipe for RegisterDto: the typed value when the body is valid. */
  function ParseRegister(b: RegisterBody, isEmail: string -> bool): (r: Option<RegisterDto>)
    ensures r.Some? <==> ValidRegister(b, isEmail)
    ensures r.Some? ==>
      && b == RegisterBody(Some(Str(r.value.username)), Some(Str(r.value.email)), Some(Str(r.value.password)))
      && r.value.username != "" && IsLengthCount(r.value.username) <= 50
      && r.value.email != "" && IsLengthCount(r.value.email) <= 50 && isEmail(r.value.email)
      && 8 <= IsLengthCount(r.value.password) <= 20
  {
    if ValidRegister(b, isEmail) then
      Some(RegisterDto(b.username.value.s, b.email.value.s, b.password.value.s))
    else
      None
  }

  /** A registration body lacking any of its three properties is rejected. */
  lemma RegisterNeedsEveryField(b: RegisterBody, isEmail: string -> bool)
    requires b.username.None? || b.email.None? || b.password.None?
    ensures !ValidRegister(b, isEmail)
  {
  }

  /** The password bounds are inclusive: 8 and 20 characters pass, 7 and 21 do not. */
  lemma RegisterPasswordBounds(u: string, e: string, p: string, isEmail: string -> bool)
    requires u != "" && IsLengthCount(u) <= 50 && e != "" && IsLengthCount(e) <= 50 && isEmail(e)
    ensures ValidRegister(RegisterBody(Some(Str(u)), Some(Str(e)), Some(Str(p))), isEmail) <==> 8 <= IsLengthCount(p) <= 20
  {
  }

  /** Seven letters followed by U+FE0F: eight code points, seven as `isLength` counts. */
  lemma SelectorSuffixLength()
    ensures var p := "abcdefg" + ['\U{FE0F}']; |p| == 8 && IsLengthCount(p) == 7
  {
    var letters, selector := "abcdefg", ['\U{FE0F}'];
    assert '\U{FE0E}' !in letters && '\U{FE0F}' !in letters;
    assert multiset(letters + selector) == multiset(letters) + multiset(selector);
  }

  /** Variation selectors do not count towards the password length: a password of seven
      letters and U+FE0F, eight code points, is too short. */
  lemma VariationSelectorsAreNotCounted(u: string, e: string, isEmail: string -> bool)
    requires u != "" && IsLengthCount(u) <= 50 && e != "" && IsLengthCount(e) <= 50 && isEmail(e)
    ensures var p := "abcdefg" + ['\U{FE0F}'];
      |p| == 8 && !ValidRegister(RegisterBody(Some(Str(u)), Some(Str(e)), Some(Str(p))), isEmail)
  {
    SelectorSuffixLength();
  }

  datatype LoginBody = LoginBody(username: Field, password: Field)

  /** The decorators of LoginDto. */
  predicate ValidLogin(b: LoginBody) {
    && IsNotEmpty(b.username) && IsString(b.username) && MaxLength(b.username, 50)
    && IsNotEmpty(b.password) && IsString(b.password) && Length(b.password, 8, 20)
  }

  /** A login request that passed validation. */
  datatype LoginDto = LoginDto(username: string, password: string)

  function ParseLogin(b: LoginBody): (r: Option<LoginDto>)
    ensures r.Some? <==> ValidLogin(b)
    ensures r.Some? ==>
      && b == LoginBody(Some(Str(r.value.username)), Some(Str(r.value.password)))
      && r.value.username != "" && IsLengthCount(r.value.username) <= 50
      && 8 <= IsLengthCount(r.value.password) <= 20
  {
    if ValidLogin(b) then Some(LoginDto(b.username.value.s, b.password.value.s)) else None
  }

  /** A login body is accepted exactly when both properties are strings, the username
      of 1 to 50 characters and the password of 8 to 20. */
  lemma LoginBounds(username: Field, password: Field)
    ensures ValidLogin(LoginBody(username, password)) <==>
      && username.Some? && username.value.Str? && username.value.s != "" && IsLengthCount(username.value.s) <= 50
      && password.Some? && password.value.Str? && 8 <= IsLengthCount(password.value.s) <= 20
  {
  }
}
