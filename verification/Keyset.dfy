/** Keyset pagination: `WHERE id > cursor ORDER BY id LIMIT n`, walked page by page. */
module Keyset {
  import opened Common

  datatype Keyed<+T> = Keyed(id: int, data: T)

  /** A table read in primary-key order. */
  ghost predicate Sorted<T>(t: seq<Keyed<T>>) {
    forall i, j :: 0 <= i < j < |t| ==> t[i].id < t[j].id
  }

  function After<T>(t: seq<Keyed<T>>, cursor: int): seq<Keyed<T>> {
    Filter(t, (r: Keyed<T>) => r.id > cursor)
  }

  function Page<T>(t: seq<Keyed<T>>, cursor: int, limit: nat): (page: seq<Keyed<T>>)
    ensures |page| <= limit
    ensures page <= After(t, cursor)
    ensures |page| < limit ==> page == After(t, cursor)
  {
    var rest := After(t, cursor);
    if |rest| <= limit then rest else rest[..limit]
  }

  lemma {:induction false} FilterSorted<T>(t: seq<Keyed<T>>, keep: Keyed<T> -> bool)
    requires Sorted(t)
    ensures Sorted(Filter(t, keep))
  {
    if t != [] {
      FilterSorted(t[1..], keep);
      var rest := Filter(t[1..], keep);
      forall j | 0 <= j < |rest| ensures t[0].id < rest[j].id { assert rest[j] in t[1..]; }
    }
  }

  lemma {:induction false} SortedAfter<T>(t: seq<Keyed<T>>, n: nat)
    requires Sorted(t) && 0 < n <= |t|
    ensures After(t, t[n - 1].id) == t[n..]
  {
    if n == 1 {
      AllAfter(t[1..], t[0].id);
    } else {
      SortedAfter(t[1..], n - 1);
    }
  }

  lemma {:induction false} AllAfter<T>(t: seq<Keyed<T>>, cursor: int)
    requires forall r :: r in t ==> r.id > cursor
    ensures After(t, cursor) == t
  {
    if t != [] {
      assert t[0] in t;
      AllAfter(t[1..], cursor);
    }
  }

  lemma {:induction false} AfterTwice<T>(t: seq<Keyed<T>>, a: int, b: int)
    requires a <= b
    ensures After(After(t, a), b) == After(t, b)
  {
    if t != [] {
      AfterTwice(t[1..], a, b);
    }
  }

  /** The page after a page starts where it ended: nothing skipped, nothing repeated. */
  lemma NextPage<T>(t: seq<Keyed<T>>, cursor: int, limit: nat)
    requires Sorted(t) && Page(t, cursor, limit) != []
    ensures var page := Page(t, cursor, limit);
            && page[|page| - 1].id > cursor
            && After(t, cursor) == page + After(t, page[|page| - 1].id)
  {
    var rest, page := After(t, cursor), Page(t, cursor, limit);
    FilterSorted(t, (r: Keyed<T>) => r.id > cursor);
    var last := page[|page| - 1];
    assert rest[|page| - 1] == last && last in rest;
    SortedAfter(rest, |page|);
    AfterTwice(t, cursor, last.id);
  }

  lemma SameIdSameRow<T>(t: seq<Keyed<T>>, a: Keyed<T>, b: Keyed<T>)
    requires Sorted(t) && a in t && b in t && a.id == b.id
    ensures a == b
  {
    var i :| 0 <= i < |t| && t[i] == a;
    var j :| 0 <= j < |t| && t[j] == b;
  }

  // ---------------------------------------------------------------- a selection of columns

  /** The rows with `columns` of their data. */
  function Mapped<T, U>(t: seq<Keyed<T>>, columns: T -> U): seq<Keyed<U>> {
    seq(|t|, (i: nat) requires i < |t| => Keyed(t[i].id, columns(t[i].data)))
  }

  lemma MappedConcat<T, U>(a: seq<Keyed<T>>, b: seq<Keyed<T>>, columns: T -> U)
    ensures Mapped([], columns) == [] && Mapped(a + b, columns) == Mapped(a, columns) + Mapped(b, columns)
  {
  }

  lemma {:induction false} FilterMapped<T, U>(t: seq<Keyed<T>>, columns: T -> U, keep: Keyed<T> -> bool, kept: Keyed<U> -> bool)
    requires forall r :: r in t ==> keep(r) == kept(Keyed(r.id, columns(r.data)))
    ensures Filter(Mapped(t, columns), kept) == Mapped(Filter(t, keep), columns)
  {
    if t != [] {
      var rest := t[1..];
      assert Mapped(t, columns)[1..] == Mapped(rest, columns);
      FilterMapped(rest, columns, keep, kept);
      MappedConcat([t[0]], Filter(rest, keep), columns);
      assert t[0] in t && Mapped([t[0]], columns) == [Keyed(t[0].id, columns(t[0].data))];
    }
  }

  lemma MappedHolds<T, U>(t: seq<Keyed<T>>, columns: T -> U)
    ensures IdsOf(Mapped(t, columns)) == IdsOf(t) && (Sorted(t) ==> Sorted(Mapped(t, columns)))
    ensures forall r :: r in t ==> Keyed(r.id, columns(r.data)) in Mapped(t, columns)
    ensures forall c :: c in Mapped(t, columns) ==> exists r :: r in t && c == Keyed(r.id, columns(r.data))
  {
    var m := Mapped(t, columns);
    forall r | r in t ensures Keyed(r.id, columns(r.data)) in m {
      var i :| 0 <= i < |t| && t[i] == r;
      assert m[i] == Keyed(r.id, columns(r.data));
    }
    forall c | c in m ensures exists r :: r in t && c == Keyed(r.id, columns(r.data)) {
      var i :| 0 <= i < |m| && m[i] == c;
      assert t[i] in t;
    }
  }

  function IdsOf<T>(t: seq<Keyed<T>>): seq<int> {
    seq(|t|, (i: nat) requires i < |t| => t[i].id)
  }

  lemma IdsOfConcat<T>(a: seq<Keyed<T>>, b: seq<Keyed<T>>)
    ensures IdsOf(a + b) == IdsOf(a) + IdsOf(b)
  {
  }

  function Flatten<T>(pages: seq<seq<T>>): seq<T> {
    if pages == [] then [] else Flatten(pages[..|pages| - 1]) + pages[|pages| - 1]
  }

  /** One more page read keeps "pages so far, then the rest" equal to the whole table. */
  lemma PageRead<T>(pages: seq<seq<Keyed<T>>>, rows: seq<Keyed<T>>, cursor: int, limit: nat, page: seq<Keyed<T>>, last: int)
    requires Sorted(rows) && Flatten(pages) + After(rows, cursor) == rows
    requires page == Page(rows, cursor, limit) && page != [] && last == page[|page| - 1].id
    ensures Flatten(pages + [page]) + After(rows, last) == rows
    ensures |After(rows, last)| < |After(rows, cursor)|
    ensures |page| < limit ==> After(rows, last) == []
  {
    var rest := After(rows, last);
    assert (pages + [page])[..|pages|] == pages;
    assert After(rows, cursor) == page + rest by { NextPage(rows, cursor, limit); }
    assert Flatten(pages) + (page + rest) == (Flatten(pages) + page) + rest;
  }

  // ---------------------------------------------------------------- ON CONFLICT DO NOTHING

  /** Inserts that skip rows whose unique key is already present. */
  function InsertMissing<K(==), T>(m: map<K, T>, rows: seq<Keyed<T>>, key: Keyed<T> -> K): map<K, T> {
    if rows == [] then m
    else
      var r, last := InsertMissing(m, rows[..|rows| - 1], key), rows[|rows| - 1];
      if key(last) in r then r else r[key(last) := last.data]
  }

  /** The primary key of a table keyed by id alone. */
  function ById<T>(): Keyed<T> -> int { (r: Keyed<T>) => r.id }

  /** Nothing present is overwritten, every row's key ends up present, and nothing else appears. */
  lemma {:induction false} InsertMissingHolds<K, T>(m: map<K, T>, rows: seq<Keyed<T>>, key: Keyed<T> -> K)
    ensures var r := InsertMissing(m, rows, key);
            && (forall k :: k in m ==> k in r && r[k] == m[k])
            && (forall row :: row in rows ==> key(row) in r)
            && (forall k :: k in r && k !in m ==> exists row :: row in rows && key(row) == k && row.data == r[k])
  {
    if rows != [] {
      var init, last := rows[..|rows| - 1], rows[|rows| - 1];
      assert rows == init + [last];
      InsertMissingHolds(m, init, key);
      var q, r := InsertMissing(m, init, key), InsertMissing(m, rows, key);
      forall k | k in r && k !in m ensures exists row :: row in rows && key(row) == k && row.data == r[k] {
        if k in q {
          var row :| row in init && key(row) == k && row.data == q[k];
          assert row in rows;
        } else {
          assert last in rows;
        }
      }
    }
  }

  lemma {:induction false} InsertMissingConcat<K, T>(m: map<K, T>, a: seq<Keyed<T>>, b: seq<Keyed<T>>, key: Keyed<T> -> K)
    ensures InsertMissing(m, a + b, key) == InsertMissing(InsertMissing(m, a, key), b, key)
  {
    if b == [] { assert a + b == a; } else {
      assert (a + b)[..|a + b| - 1] == a + b[..|b| - 1];
      InsertMissingConcat(m, a, b[..|b| - 1], key);
    }
  }

  /** Inserting twice, or concurrently after another insert, changes nothing. */
  lemma {:induction false} InsertAgain<K, T>(m: map<K, T>, rows: seq<Keyed<T>>, key: Keyed<T> -> K)
    requires forall row :: row in rows ==> key(row) in m
    ensures InsertMissing(m, rows, key) == m
  {
    if rows != [] {
      var init, last := rows[..|rows| - 1], rows[|rows| - 1];
      assert rows == init + [last];
      InsertAgain(m, init, key);
      assert last in rows;
    }
  }
}
