/** Small value types and sequence helpers shared by the other modules. */
module Common {

  datatype Option<+T> = None | Some(value: T)

  datatype Result<+T, +E> = Ok(value: T) | Err(error: E)

  /** Elements of `s` satisfying `keep`, in order (JavaScript's `Array.filter`). */
  function Filter<T>(s: seq<T>, keep: T -> bool): (r: seq<T>)
    ensures forall x :: x in r ==> x in s && keep(x)
    ensures forall x :: x in s && keep(x) ==> x in r
    ensures |r| <= |s|
  {
    if s == [] then []
    else
      var rest := Filter(s[1..], keep);
      assert s == [s[0]] + s[1..];
      if keep(s[0]) then [s[0]] + rest else rest
  }

  lemma {:induction false} FilterConcat<T>(a: seq<T>, b: seq<T>, keep: T -> bool)
    ensures Filter(a + b, keep) == Filter(a, keep) + Filter(b, keep)
  {
    if a == [] {
      assert a + b == b;
    } else {
      var rest := a[1..];
      assert (a + b)[1..] == rest + b;
      FilterConcat(rest, b, keep);
      assert [a[0]] + (Filter(rest, keep) + Filter(b, keep)) == [a[0]] + Filter(rest, keep) + Filter(b, keep);
    }
  }

  lemma {:induction false} FilterAll<T>(s: seq<T>, keep: T -> bool)
    requires forall x :: x in s ==> keep(x)
    ensures Filter(s, keep) == s
  {
    if s != [] {
      assert s[0] in s;
      FilterAll(s[1..], keep);
    }
  }

  lemma {:induction false} FilterSame<T>(s: seq<T>, p: T -> bool, q: T -> bool)
    requires forall x :: x in s ==> (p(x) <==> q(x))
    ensures Filter(s, p) == Filter(s, q)
  {
    if s != [] {
      assert s[0] in s;
      FilterSame(s[1..], p, q);
    }
  }

  lemma {:induction false} FilterTwice<T>(s: seq<T>, p: T -> bool, q: T -> bool, both: T -> bool)
    requires forall x :: x in s ==> (both(x) <==> p(x) && q(x))
    ensures Filter(Filter(s, p), q) == Filter(s, both)
  {
    if s != [] {
      assert s[0] in s;
      FilterTwice(s[1..], p, q, both);
    }
  }

  /** The last `n` elements of `s`, or all of `s` when it is shorter. */
  function LastN<T>(s: seq<T>, n: nat): (r: seq<T>)
    ensures |r| == if |s| <= n then |s| else n
  {
    if |s| <= n then s else s[|s| - n..]
  }

  /** A bounded buffer's contents; without a cap, the whole log. */
  function Trim<T>(s: seq<T>, cap: Option<nat>): seq<T> {
    if cap.None? then s else LastN(s, cap.value)
  }

  /** Trimming at every push is trimming once. */
  lemma LastNPush<T>(s: seq<T>, x: T, cap: nat)
    ensures LastN(LastN(s, cap) + [x], cap) == LastN(s + [x], cap)
  {
  }

  /** Some element of a non-empty set. */
  /** Whether a call fails, or the process stops there; never while it is calm. */
  method Fails(calm: bool) returns (stop: bool)
    ensures calm ==> !stop
  {
    stop := *;
    if calm { stop := false; }
  }

  method Pick<T(==)>(s: set<T>) returns (x: T)
    requires s != {}
    ensures x in s
  {
    EmptyWithoutMembers(s);
    x :| x in s;
  }

  lemma EmptyWithoutMembers<T>(s: set<T>)
    ensures (forall x: T :: x !in s) ==> s == {}
  {
    if forall x: T :: x !in s { assert s == {}; }
  }

  function Abs(n: int): int { if n < 0 then -n else n }

  /** BigInt division, which truncates toward zero. */
  function TruncDiv(n: int, d: int): int
    requires d != 0
  {
    if (n < 0) == (d < 0) then Abs(n) / Abs(d) else -(Abs(n) / Abs(d))
  }
}
