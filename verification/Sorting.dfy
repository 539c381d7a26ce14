/** A stable sort, and what it keeps. */
module Sorting {

  /** `le(a, b)`: the comparator puts `a` before `b`, or does not tell them apart. */
  function InsertBy<T>(x: T, s: seq<T>, le: (T, T) -> bool): seq<T> {
    if s == [] then [x] else if le(s[0], x) then [s[0]] + InsertBy(x, s[1..], le) else [x] + s
  }

  function SortBy<T>(s: seq<T>, le: (T, T) -> bool): seq<T> {
    if s == [] then [] else InsertBy(s[|s| - 1], SortBy(s[..|s| - 1], le), le)
  }

  ghost predicate Ordered<T(!new)>(s: seq<T>, le: (T, T) -> bool) {
    forall i, j :: 0 <= i < j < |s| ==> le(s[i], s[j])
  }

  ghost predicate Preorder<T(!new)>(le: (T, T) -> bool) {
    && (forall a, b :: le(a, b) || le(b, a))
    && (forall a, b, c :: le(a, b) && le(b, c) ==> le(a, c))
  }

  lemma {:induction false} InsertPermutes<T>(x: T, s: seq<T>, le: (T, T) -> bool)
    ensures multiset(InsertBy(x, s, le)) == multiset(s) + multiset{x}
  {
    if s != [] && le(s[0], x) {
      InsertPermutes(x, s[1..], le);
      assert s == [s[0]] + s[1..];
    }
  }

  lemma {:induction false} SortPermutes<T>(s: seq<T>, le: (T, T) -> bool)
    ensures multiset(SortBy(s, le)) == multiset(s)
  {
    hide InsertBy;
    if s != [] {
      var init, x := s[..|s| - 1], s[|s| - 1];
      SortPermutes(init, le);
      InsertPermutes(x, SortBy(init, le), le);
      assert s == init + [x];
    }
  }

  lemma {:induction false} InsertOrders<T(!new)>(x: T, s: seq<T>, le: (T, T) -> bool)
    requires Preorder(le) && Ordered(s, le)
    ensures Ordered(InsertBy(x, s, le), le)
    ensures forall y :: y in InsertBy(x, s, le) ==> y == x || y in s
  {
    if s != [] {
      var rest := s[1..];
      assert forall i :: 0 <= i < |rest| ==> rest[i] == s[i + 1];
      if le(s[0], x) {
        InsertOrders(x, rest, le);
        var t := InsertBy(x, rest, le);
        forall j | 0 <= j < |t| ensures le(s[0], t[j]) {
          assert t[j] in t;
        }
      } else {
        assert forall j :: 0 <= j < |s| ==> le(s[0], s[j]) || j == 0;
        assert le(x, s[0]);
      }
    }
  }

  lemma {:induction false} SortOrders<T(!new)>(s: seq<T>, le: (T, T) -> bool)
    requires Preorder(le)
    ensures Ordered(SortBy(s, le), le)
  {
    if s != [] {
      SortOrders(s[..|s| - 1], le);
      InsertOrders(s[|s| - 1], SortBy(s[..|s| - 1], le), le);
    }
  }

  /** The sum of a weight over a list. */
  function Weigh<T>(s: seq<T>, w: T -> int): int {
    if s == [] then 0 else w(s[0]) + Weigh(s[1..], w)
  }

  lemma {:induction false} WeighConcat<T>(a: seq<T>, b: seq<T>, w: T -> int)
    ensures Weigh(a + b, w) == Weigh(a, w) + Weigh(b, w)
  {
    if a == [] {
      assert a + b == b;
    } else {
      assert (a + b)[1..] == a[1..] + b;
      WeighConcat(a[1..], b, w);
    }
  }

  lemma {:induction false} InsertWeighs<T>(x: T, s: seq<T>, le: (T, T) -> bool, w: T -> int)
    ensures Weigh(InsertBy(x, s, le), w) == Weigh(s, w) + w(x)
  {
    if s != [] {
      if le(s[0], x) {
        InsertWeighs(x, s[1..], le, w);
        assert InsertBy(x, s, le)[1..] == InsertBy(x, s[1..], le);
      } else {
        assert ([x] + s)[1..] == s;
      }
    }
  }

  /** Sorting keeps every sum. */
  lemma {:induction false} SortWeighs<T>(s: seq<T>, le: (T, T) -> bool, w: T -> int)
    ensures Weigh(SortBy(s, le), w) == Weigh(s, w)
  {
    if s != [] {
      var init, x := s[..|s| - 1], s[|s| - 1];
      SortWeighs(init, le, w);
      InsertWeighs(x, SortBy(init, le), le, w);
      assert s == init + [x] && [x][1..] == [];
      WeighConcat(init, [x], w);
    }
  }

  // ---------------------------------------------------------------- strings, as some locale compares them

  /** Lists of strings, compared one by one. */
  predicate LexLe(collate: (string, string) -> bool, a: seq<string>, b: seq<string>) {
    if a == [] then true
    else if b == [] then false
    else if collate(a[0], b[0]) && collate(b[0], a[0]) then LexLe(collate, a[1..], b[1..])
    else collate(a[0], b[0])
  }

  lemma {:induction false} LexTotal(collate: (string, string) -> bool, a: seq<string>, b: seq<string>)
    requires Preorder(collate)
    ensures LexLe(collate, a, b) || LexLe(collate, b, a)
  {
    if a != [] && b != [] { LexTotal(collate, a[1..], b[1..]); }
  }

  lemma {:induction false} LexTransitive(collate: (string, string) -> bool, a: seq<string>, b: seq<string>, c: seq<string>)
    requires Preorder(collate) && LexLe(collate, a, b) && LexLe(collate, b, c)
    ensures LexLe(collate, a, c)
  {
    if a != [] && b != [] && c != [] {
      var same := collate(a[0], b[0]) && collate(b[0], a[0]) && collate(b[0], c[0]) && collate(c[0], b[0]);
      if same { LexTransitive(collate, a[1..], b[1..], c[1..]); }
    }
  }
}
