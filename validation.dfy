/** The class-validator decorators the DTOs use, as predicates on one property of a
    request body. A property is absent (`None`, JavaScript `undefined`) or holds a JSON value. */
module Validation {
  import opened Common

  /** A JSON value; numbers are reals (NaN and the infinities are left out). */
  datatype Value = Num(n: real) | Str(s: string) | Bool(b: bool) | Null

  type Field = Option<Value>

  /** @IsNotEmpty(): not '', not null, not undefined. */
  predicate IsNotEmpty(f: Field) {
    f.Some? && f.value != Null && f.value != Str("")
  }

  /** @IsString(). */
  predicate IsString(f: Field) {
    f.Some? && f.value.Str?
  }

  /** @IsNumber(). */
  predicate IsNumber(f: Field) {
    f.Some? && f.value.Num?
  }

  /** @Min(lo): a number no smaller than lo. */
  predicate Min(f: Field, lo: real) {
    IsNumber(f) && f.value.n >= lo
  }

  /** @Max(hi): a number no larger than hi. */
  predicate Max(f: Field, hi: real) {
    IsNumber(f) && f.value.n <= hi
  }

  /** The variation selectors U+FE0E and U+FE0F, which validator.js's `isLength` leaves
      out of a string's length. */
  predicate IsVariationSelector(c: char) {
    c == '\U{FE0E}' || c == '\U{FE0F}'
  }

  /** The length `isLength` measures: the code points of `s` other than the variation
      selectors (a character outside the basic plane counts once, as `isLength` counts a
      surrogate pair). */
  function IsLengthCount(s: string): (n: nat)
    ensures n + multiset(s)['\U{FE0E}'] + multiset(s)['\U{FE0F}'] == |s|
  {
    if s == [] then 0
    else
      assert s == [s[0]] + s[1..];
      (if IsVariationSelector(s[0]) then 0 else 1) + IsLengthCount(s[1..])
  }

  /** @MaxLength(hi): a string of at most hi characters, as `isLength` counts them. */
  predicate MaxLength(f: Field, hi: nat) {
    IsString(f) && IsLengthCount(f.value.s) <= hi
  }

  /** @Length(lo, hi): a string whose length, as `isLength` counts it, lies in lo..hi. */
  predicate Length(f: Field, lo: nat, hi: nat) {
    IsString(f) && lo <= IsLengthCount(f.value.s) <= hi
  }

  /** @IsEnum(E): one of the enum's (string) values. */
  predicate IsEnum(f: Field, values: set<string>) {
    f.Some? && f.value.Str? && f.value.s in values
  }

  /** The argument handed to @IsEnum: an enum object, or a function such as `() => E`. */
  datatype EnumArg = EnumObject(members: set<string>) | ArrowFunction

  /** The values @IsEnum accepts for its argument: the values of the argument's own
      enumerable keys. A function has no such keys, so it admits no value. */
  function EnumValues(e: EnumArg): (values: set<string>)
    ensures e.EnumObject? ==> values == e.members
    ensures e.ArrowFunction? ==> values == {}
  {
    match e
    case EnumObject(members) => members
    case ArrowFunction => {}
  }

  /** @IsEmail() / @IsUUID(): a string accepted by the library's recogniser, which the
      model takes as a parameter. */
  predicate Recognised(f: Field, recogniser: string -> bool) {
    IsString(f) && recogniser(f.value.s)
  }

  /** @IsOptional(): when the property is null or undefined the other decorators of that
      property are skipped. */
  predicate Omitted(f: Field) {
    f.None? || f.value == Null
  }
}
