/** Values and exceptions shared by every service of the review backend. */
module Common {

  datatype Option<+T> = None | Some(value: T)

  /** The NestJS `HttpException` subclasses the services throw. */
  datatype HttpKind = Unauthorized | Forbidden | NotFound | Conflict | InternalServerError

  /** `meta.target` of a Prisma known-request error: the list of columns of the violated
      unique index, the name of that index, or absent altogether. */
  datatype Target = Fields(fields: seq<string>) | ConstraintName(name: string) | NoTarget

  /** An axios failure; `status` is `error.response?.status` (None when no response arrived). */
  datatype AxiosError = AxiosError(status: Option<int>)

  /** Everything a service call can reject with. */
  datatype Exception =
    | Http(kind: HttpKind, message: string)          // an HttpException
    | PrismaKnown(code: string, target: Target)      // Prisma.PrismaClientKnownRequestError
    | Axios(axios: AxiosError)                       // an AxiosError from the metadata API
    | Runtime(name: string)                          // any other Error (TypeError, validation errors, ...)

  /** How a promise settles: fulfilled with a value or rejected with an exception. */
  datatype Result<+T> = Ok(value: T) | Err(error: Exception)

  /** Prisma error code of a unique-constraint violation. */
  const UniqueViolation := "P2002"
  /** Prisma error code of "record to update or delete does not exist". */
  const RecordMissing := "P2025"

  predicate IsPrefix(p: string, s: string) {
    |p| <= |s| && s[..|p|] == p
  }

  /** JavaScript `String.prototype.includes`. */
  predicate IsSubstring(needle: string, hay: string)
    decreases |hay|
  {
    IsPrefix(needle, hay) || (|hay| > 0 && IsSubstring(needle, hay[1..]))
  }

  /** `needle` occurs in `hay` starting at position `k`. */
  predicate OccursAt(needle: string, hay: string, k: int) {
    0 <= k && k + |needle| <= |hay| && hay[k..k + |needle|] == needle
  }

  /** The recursive search finds `needle` exactly when it occurs at some position of `hay`. */
  lemma {:induction false} SubstringAt(needle: string, hay: string)
    ensures IsSubstring(needle, hay) <==> exists k :: OccursAt(needle, hay, k)
    decreases |hay|
  {
    if IsPrefix(needle, hay) {
      assert OccursAt(needle, hay, 0);
    } else if |hay| > 0 {
      SubstringAt(needle, hay[1..]);
      if IsSubstring(needle, hay[1..]) {
        var k :| OccursAt(needle, hay[1..], k);
        assert hay[1..][k..k + |needle|] == hay[k + 1..k + 1 + |needle|];
        assert OccursAt(needle, hay, k + 1);
      }
      if k :| OccursAt(needle, hay, k) {
        assert k != 0;
        assert hay[1..][k - 1..k - 1 + |needle|] == hay[k..k + |needle|];
        assert OccursAt(needle, hay[1..], k - 1);
      }
    }
  }

  /** `target.includes(item)` on a `meta.target` value: array membership for a list of
      columns, substring search for an index name, and a TypeError when the target is
      undefined. */
  function Includes(t: Target, item: string): (r: Result<bool>)
    ensures r.Err? <==> t.NoTarget?
    ensures t.Fields? ==> (r == Ok(true) <==> item in t.fields)
    ensures t.ConstraintName? ==>
      (r == Ok(true) <==> exists k :: OccursAt(item, t.name, k))
  {
    match t
    case Fields(fs) => Ok(item in fs)
    case ConstraintName(n) => SubstringAt(item, n); Ok(IsSubstring(item, n))
    case NoTarget => Err(Runtime("TypeError"))
  }
}
