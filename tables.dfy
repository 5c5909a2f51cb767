/** The bulk operations of the Prisma client over a table, as functions on the sequence
    of its rows (in storage order): `findFirst`, `count`, `findMany` with `skip`/`take`,
    `updateMany` and `deleteMany`, each driven by a where-predicate. */
module Tables {
  import opened Common

  /** `count({ where: p })`. */
  function Count<T>(s: seq<T>, p: T -> bool): (n: nat)
    ensures n <= |s|
  {
    if s == [] then 0 else (if p(s[0]) then 1 else 0) + Count(s[1..], p)
  }

  /** `findFirst({ where: p })`: some matching row, or None when no row matches. */
  function FindFirst<T>(s: seq<T>, p: T -> bool): (r: Option<T>)
    ensures r.Some? ==> r.value in s && p(r.value)
    ensures r.None? <==> forall x :: x in s ==> !p(x)
  {
    if s == [] then None else if p(s[0]) then Some(s[0]) else FindFirst(s[1..], p)
  }

  /** The rows that satisfy `p`, in storage order (`findMany({ where: p })`). */
  function Select<T>(s: seq<T>, p: T -> bool): (r: seq<T>)
    ensures |r| == Count(s, p)
    ensures forall x :: x in r ==> x in s && p(x)
    ensures forall x :: x in s && p(x) ==> x in r
  {
    if s == [] then [] else (if p(s[0]) then [s[0]] else []) + Select(s[1..], p)
  }

  /** `deleteMany({ where: p })`: the rows that remain. Exactly `Count(s, p)` rows go: the
      remaining rows and the selected ones together make up the table, row for row. */
  function DeleteWhere<T>(s: seq<T>, p: T -> bool): (r: seq<T>)
    ensures |r| + Count(s, p) == |s|
    ensures forall x :: x in r ==> x in s && !p(x)
    ensures forall x :: x in s && !p(x) ==> x in r
    ensures multiset(r) + multiset(Select(s, p)) == multiset(s)
  {
    if s == [] then []
    else
      assert s == [s[0]] + s[1..];
      (if p(s[0]) then [] else [s[0]]) + DeleteWhere(s[1..], p)
  }

  /** `updateMany({ where: p, data })`, where `f` applies the data to one row: every
      matching row is rewritten in place, every other row is kept, and the table keeps
      its length. */
  function UpdateWhere<T>(s: seq<T>, p: T -> bool, f: T -> T): (r: seq<T>)
    ensures |r| == |s|
    ensures forall i :: 0 <= i < |s| ==> r[i] == if p(s[i]) then f(s[i]) else s[i]
  {
    if s == [] then [] else [if p(s[0]) then f(s[0]) else s[0]] + UpdateWhere(s[1..], p, f)
  }

  /** `skip` / `take` paging over a result list: the rows from position `skip` on, at
      most `take` of them. */
  function Window<T>(s: seq<T>, skip: nat, take: nat): (r: seq<T>)
    ensures |r| <= take
    ensures |r| == if skip >= |s| then 0 else if |s| - skip < take then |s| - skip else take
    ensures forall i :: 0 <= i < |r| ==> r[i] == s[skip + i]
    ensures forall x :: x in r ==> x in s
  {
    var lo := if skip <= |s| then skip else |s|;
    var hi := if lo + take <= |s| then lo + take else |s|;
    s[lo..hi]
  }

  /** No row matches exactly when the count is zero. */
  lemma {:induction false} CountZero<T>(s: seq<T>, p: T -> bool)
    ensures Count(s, p) == 0 <==> forall x :: x in s ==> !p(x)
  {
    if s != [] {
      CountZero(s[1..], p);
      assert forall x :: x in s <==> x == s[0] || x in s[1..];
    }
  }

  /** A deleteMany that matches nothing leaves the table as it was. */
  lemma {:induction false} DeleteNothing<T>(s: seq<T>, p: T -> bool)
    requires forall x :: x in s ==> !p(x)
    ensures DeleteWhere(s, p) == s
  {
    if s != [] {
      assert s[0] in s;
      DeleteNothing(s[1..], p);
      assert [s[0]] + s[1..] == s;
    }
  }

  /** An updateMany that matches nothing leaves the table as it was. */
  lemma UpdateNothing<T>(s: seq<T>, p: T -> bool, f: T -> T)
    requires forall x :: x in s ==> !p(x)
    ensures UpdateWhere(s, p, f) == s
  {
    var r := UpdateWhere(s, p, f);
    forall i | 0 <= i < |s| ensures r[i] == s[i] {
      assert s[i] in s;
    }
  }

  /** After a deleteMany nothing matches its where-predicate, so repeating it removes no
      row and leaves the table unchanged. */
  lemma DeleteWhereIdempotent<T>(s: seq<T>, p: T -> bool)
    ensures Count(DeleteWhere(s, p), p) == 0
    ensures DeleteWhere(DeleteWhere(s, p), p) == DeleteWhere(s, p)
  {
    CountZero(DeleteWhere(s, p), p);
    DeleteNothing(DeleteWhere(s, p), p);
  }

  /** Appending a row that does not match leaves a findFirst unchanged. */
  lemma {:induction false} FindFirstAppendMiss<T>(s: seq<T>, x: T, p: T -> bool)
    requires !p(x)
    ensures FindFirst(s + [x], p) == FindFirst(s, p)
  {
    if s == [] {
      assert [] + [x] == [x];
      assert [x][1..] == [];
    } else {
      assert (s + [x])[0] == s[0];
      assert (s + [x])[1..] == s[1..] + [x];
      FindFirstAppendMiss(s[1..], x, p);
    }
  }

  /** Every two rows of `s`, the earlier one first, are related by `apart`: the shape of a
      unique index. */
  predicate Pairwise<T>(s: seq<T>, apart: (T, T) -> bool) {
    forall i, j :: 0 <= i < j < |s| ==> apart(s[i], s[j])
  }

  /** deleteMany keeps the remaining rows in their order, so a unique index survives it. */
  lemma {:induction false} DeleteWhereKeepsPairwise<T>(s: seq<T>, p: T -> bool, apart: (T, T) -> bool)
    requires Pairwise(s, apart)
    ensures Pairwise(DeleteWhere(s, p), apart)
  {
    if s != [] {
      var rest := DeleteWhere(s[1..], p);
      DeleteWhereKeepsPairwise(s[1..], p, apart);
      if !p(s[0]) {
        var r := [s[0]] + rest;
        forall i, j | 0 <= i < j < |r| ensures apart(r[i], r[j]) {
          if i == 0 {
            assert r[j] in s[1..];
            var k :| 0 <= k < |s[1..]| && s[1..][k] == r[j];
            assert s[k + 1] == r[j];
          } else {
            assert r[i] == rest[i - 1] && r[j] == rest[j - 1];
          }
        }
      }
    }
  }

  /** Two where-predicates that agree on every row select the same rows. */
  lemma {:induction false} SelectAgree<T>(s: seq<T>, p: T -> bool, q: T -> bool)
    requires forall x :: x in s ==> p(x) == q(x)
    ensures Select(s, p) == Select(s, q) && Count(s, p) == Count(s, q)
  {
    if s != [] {
      assert s[0] in s;
      assert forall x :: x in s[1..] ==> x in s;
      SelectAgree(s[1..], p, q);
    }
  }
}
