/** The in-memory analytics store: idempotent ingestion, time buckets, grouped totals and solver shares. */
module Analytics {
  import opened Arithmetic
  import opened Common
  import opened Sorting

  datatype Event = Event(eventId: string, timestamp: int, chain: string, dstChain: string, srcToken: string, dstToken: string,
                         solver: string, volume: int, fees: int)

  datatype Interval = Minute | Hour | Day

  datatype Query = Query(interval: Interval, from: int, to: int, chain: string, token: string, solver: string,
                         srcChain: string, dstChain: string)

  datatype Metric = Volume | Fees

  function Amount(m: Metric, e: Event): int { if m == Volume then e.volume else e.fees }

  function IntervalMs(interval: Interval): (ms: int)
    ensures ms > 0
  {
    match interval
    case Minute => 60000
    case Hour => 3600000
    case Day => 86400000
  }

  function BucketStart(t: int, ms: int): int
    requires ms > 0
  {
    t / ms * ms
  }

  /** Each time lies in one bucket, the one starting at a multiple of the interval. */
  lemma BucketHolds(t: int, interval: Interval, start: int)
    ensures var ms := IntervalMs(interval);
            start == BucketStart(t, ms) <==> start % ms == 0 && start <= t < start + ms
  {
    var ms := IntervalMs(interval);
    DivisionSplit(t, ms);
    DivisionSplit(start, ms);
    QuotientUnique(start, t / ms, ms);
    QuotientUnique(t, start / ms, ms);
  }

  /** An hour lies inside a day, and a minute inside an hour. */
  lemma BucketsNest(t: int, fine: Interval, coarse: Interval)
    requires IntervalMs(coarse) >= IntervalMs(fine)
    ensures BucketStart(BucketStart(t, IntervalMs(fine)), IntervalMs(coarse)) == BucketStart(t, IntervalMs(coarse))
  {
    var d, c := IntervalMs(fine), IntervalMs(coarse);
    var n := c / d;
    assert c == n * d && n > 0;
    NestedQuotient(t, d, n);
  }

  /** The bucket of a finer bucket's start is the bucket of the time itself. */
  lemma NestedQuotient(t: int, d: int, n: int)
    requires d > 0 && n > 0
    ensures n * d > 0 && t / d * d / (n * d) == t / (n * d)
  {
    var c := n * d;
    var q := t / c;
    DivisionSplit(t, c);
    DivisionSplit(t, d);
    assert q * c == q * n * d;
    assert q * n <= t / d by { QuotientAtLeast(t, q * n, d); }
    Scaled(q * n, t / d, d);
    QuotientUnique(t / d * d, q, c);
  }

  /** An absent filter is the empty string. */
  predicate Matches(e: Event, q: Query) {
    && q.from <= e.timestamp < q.to
    && (q.chain == "" || e.chain == q.chain)
    && (q.token == "" || e.srcToken == q.token || e.dstToken == q.token)
    && (q.solver == "" || e.solver == q.solver)
    && (q.srcChain == "" || e.chain == q.srcChain)
    && (q.dstChain == "" || e.dstChain == q.dstChain)
  }

  function Matching(events: seq<Event>, q: Query): seq<Event> {
    Filter(events, (e: Event) => Matches(e, q))
  }

  // ---------------------------------------------------------------- plain sums, the reference

  function Sum(events: seq<Event>, m: Metric): int {
    if events == [] then 0 else Sum(events[..|events| - 1], m) + Amount(m, events[|events| - 1])
  }

  lemma SumPush(events: seq<Event>, e: Event, m: Metric)
    ensures Sum(events + [e], m) == Sum(events, m) + Amount(m, e) && Sum([], m) == 0
  {
    assert (events + [e])[..|events|] == events;
  }

  /** The plain sum over the events whose key falls in class `c`. */
  ghost function SumWhere<K, C>(events: seq<Event>, key: Event -> K, f: K -> C, c: C, m: Metric): int {
    if events == [] then 0
    else
      var e := events[|events| - 1];
      SumWhere(events[..|events| - 1], key, f, c, m) + if f(key(e)) == c then Amount(m, e) else 0
  }

  // ---------------------------------------------------------------- totals per key

  /** One entry of an insertion-ordered map from keys to running totals. */
  datatype Row<K> = Row(key: K, total: int)

  function AddTotal<K(==)>(rows: seq<Row<K>>, key: K, amount: int): seq<Row<K>> {
    if rows == [] then [Row(key, amount)]
    else if rows[0].key == key then [Row(key, rows[0].total + amount)] + rows[1..]
    else [rows[0]] + AddTotal(rows[1..], key, amount)
  }

  function Tally<K(==)>(events: seq<Event>, key: Event -> K, m: Metric): seq<Row<K>> {
    if events == [] then []
    else AddTotal(Tally(events[..|events| - 1], key, m), key(events[|events| - 1]), Amount(m, events[|events| - 1]))
  }

  ghost function RowsWhere<K, C>(rows: seq<Row<K>>, f: K -> C, c: C): int {
    if rows == [] then 0 else (if f(rows[0].key) == c then rows[0].total else 0) + RowsWhere(rows[1..], f, c)
  }

  lemma {:induction false} AddTotalSums<K, C>(rows: seq<Row<K>>, key: K, amount: int, f: K -> C, c: C)
    ensures RowsWhere(AddTotal(rows, key, amount), f, c) == RowsWhere(rows, f, c) + if f(key) == c then amount else 0
  {
    if rows != [] && rows[0].key != key { AddTotalSums(rows[1..], key, amount, f, c); }
  }

  /** Totals per key, summed over any classes of keys, are the plain sums over those classes. */
  lemma {:induction false} TallySums<K, C>(events: seq<Event>, key: Event -> K, m: Metric, f: K -> C, c: C)
    ensures RowsWhere(Tally(events, key, m), f, c) == SumWhere(events, key, f, c, m)
  {
    if events != [] {
      var init, e := events[..|events| - 1], events[|events| - 1];
      TallySums(init, key, m, f, c);
      AddTotalSums(Tally(init, key, m), key(e), Amount(m, e), f, c);
    }
  }

  ghost predicate DistinctKeys<K>(rows: seq<Row<K>>) {
    forall i, j :: 0 <= i < j < |rows| ==> rows[i].key != rows[j].key
  }

  lemma {:induction false} AddTotalKeys<K>(rows: seq<Row<K>>, key: K, amount: int)
    requires DistinctKeys(rows)
    ensures var r := AddTotal(rows, key, amount);
            && DistinctKeys(r) && |rows| <= |r| <= |rows| + 1
            && (forall i :: 0 <= i < |rows| ==> r[i].key == rows[i].key)
            && (forall i :: |rows| <= i < |r| ==> r[i].key == key)
  {
    if rows != [] && rows[0].key != key {
      var rest := rows[1..];
      assert forall i, j :: 0 <= i < j < |rest| ==> rest[i] == rows[i + 1] && rest[j] == rows[j + 1];
      AddTotalKeys(rest, key, amount);
      var r, t := AddTotal(rows, key, amount), AddTotal(rest, key, amount);
      assert forall i :: 0 < i < |r| ==> r[i] == t[i - 1];
      assert forall i :: 0 < i < |rows| ==> rows[i] == rest[i - 1];
    }
  }

  lemma {:induction false} TallyKeys<K>(events: seq<Event>, key: Event -> K, m: Metric)
    ensures DistinctKeys(Tally(events, key, m))
  {
    if events != [] {
      TallyKeys(events[..|events| - 1], key, m);
      AddTotalKeys(Tally(events[..|events| - 1], key, m), key(events[|events| - 1]), Amount(m, events[|events| - 1]));
    }
  }

  // ---------------------------------------------------------------- events per bucket

  datatype Bucket = Bucket(start: int, events: seq<Event>)

  function AddEvent(buckets: seq<Bucket>, start: int, e: Event): seq<Bucket> {
    if buckets == [] then [Bucket(start, [e])]
    else if buckets[0].start == start then [Bucket(start, buckets[0].events + [e])] + buckets[1..]
    else [buckets[0]] + AddEvent(buckets[1..], start, e)
  }

  function BucketAll(events: seq<Event>, ms: int): seq<Bucket>
    requires ms > 0
  {
    if events == [] then []
    else AddEvent(BucketAll(events[..|events| - 1], ms), BucketStart(events[|events| - 1].timestamp, ms), events[|events| - 1])
  }

  function Points(buckets: seq<Bucket>, m: Metric): seq<Row<int>> {
    if buckets == [] then [] else [Row(buckets[0].start, Sum(buckets[0].events, m))] + Points(buckets[1..], m)
  }

  function StartOf(ms: int): Event -> int
    requires ms > 0
  {
    (e: Event) => BucketStart(e.timestamp, ms)
  }

  lemma {:induction false} AddEventPoints(buckets: seq<Bucket>, start: int, e: Event, m: Metric)
    ensures Points(AddEvent(buckets, start, e), m) == AddTotal(Points(buckets, m), start, Amount(m, e))
  {
    hide Sum;
    if buckets == [] {
      SumPush([], e, m);
      assert [] + [e] == [e];
      assert [Bucket(start, [e])][1..] == [];
    } else if buckets[0].start == start {
      SumPush(buckets[0].events, e, m);
    } else {
      AddEventPoints(buckets[1..], start, e, m);
    }
  }

  /** Summing the collected buckets gives the running totals per bucket start. */
  lemma {:induction false} PointsTally(events: seq<Event>, ms: int, m: Metric)
    requires ms > 0
    ensures Points(BucketAll(events, ms), m) == Tally(events, StartOf(ms), m)
  {
    if events != [] {
      var init, e := events[..|events| - 1], events[|events| - 1];
      PointsTally(init, ms, m);
      AddEventPoints(BucketAll(init, ms), BucketStart(e.timestamp, ms), e, m);
    }
  }

  ghost predicate DistinctStarts(buckets: seq<Bucket>) {
    forall i, j :: 0 <= i < j < |buckets| ==> buckets[i].start != buckets[j].start
  }

  /** The events of one bucket, in order. */
  function At(events: seq<Event>, ms: int, start: int): seq<Event>
    requires ms > 0
  {
    if events == [] then []
    else
      var e := events[|events| - 1];
      At(events[..|events| - 1], ms, start) + if BucketStart(e.timestamp, ms) == start then [e] else []
  }

  lemma AtPush(events: seq<Event>, e: Event, ms: int, start: int)
    requires ms > 0
    ensures At(events + [e], ms, start) == At(events, ms, start) + if BucketStart(e.timestamp, ms) == start then [e] else []
  {
    assert (events + [e])[..|events|] == events;
  }

  lemma {:induction false} AtHas(events: seq<Event>, ms: int, start: int, e: Event)
    requires ms > 0
    ensures e in At(events, ms, start) <==> e in events && BucketStart(e.timestamp, ms) == start
  {
    if events != [] {
      AtHas(events[..|events| - 1], ms, start, e);
      assert events == events[..|events| - 1] + [events[|events| - 1]];
    }
  }

  /** The event goes to the end of its bucket, or to a new last one. */
  lemma {:induction false} AddEventAt(buckets: seq<Bucket>, at: int, e: Event)
    ensures var r := AddEvent(buckets, at, e);
            && |buckets| <= |r| <= |buckets| + 1
            && (forall i :: |buckets| <= i < |r| ==> r[i] == Bucket(at, [e]))
            && (|r| > |buckets| <==> forall i :: 0 <= i < |buckets| ==> buckets[i].start != at)
            && (forall i :: 0 <= i < |buckets| ==> r[i].start == buckets[i].start)
            && (DistinctStarts(buckets) ==>
                  forall i :: 0 <= i < |buckets| ==> r[i].events == buckets[i].events + if buckets[i].start == at then [e] else [])
  {
    if buckets != [] && buckets[0].start != at {
      var rest, r := buckets[1..], AddEvent(buckets, at, e);
      AddEventAt(rest, at, e);
      assert forall i :: 0 < i < |r| ==> r[i] == AddEvent(rest, at, e)[i - 1];
      assert forall i :: 0 < i < |buckets| ==> buckets[i] == rest[i - 1];
    }
  }

  ghost predicate Collected(buckets: seq<Bucket>, events: seq<Event>, ms: int)
    requires ms > 0
  {
    && DistinctStarts(buckets)
    && (forall i :: 0 <= i < |buckets| ==> buckets[i].events == At(events, ms, buckets[i].start))
    && (forall start :: (forall i :: 0 <= i < |buckets| ==> buckets[i].start != start) ==> At(events, ms, start) == [])
  }

  lemma {:induction false} BucketsCollected(events: seq<Event>, ms: int)
    requires ms > 0
    ensures Collected(BucketAll(events, ms), events, ms)
  {
    if events != [] {
      var init, e := events[..|events| - 1], events[|events| - 1];
      BucketsCollected(init, ms);
      assert events == init + [e];
      CollectedNext(BucketAll(init, ms), init, e, ms);
    }
  }

  lemma CollectedNext(buckets: seq<Bucket>, init: seq<Event>, e: Event, ms: int)
    requires ms > 0 && Collected(buckets, init, ms)
    ensures Collected(AddEvent(buckets, BucketStart(e.timestamp, ms), e), init + [e], ms)
  {
    hide AddEvent, At, BucketStart;
    var at, events := BucketStart(e.timestamp, ms), init + [e];
    var r := AddEvent(buckets, at, e);
    AddEventAt(buckets, at, e);
    assert exists i :: 0 <= i < |r| && r[i].start == at by {
      if |r| == |buckets| {
        var i :| 0 <= i < |buckets| && buckets[i].start == at;
        assert r[i].start == at;
      } else {
        assert r[|buckets|].start == at;
      }
    }
    forall start ensures At(events, ms, start) == At(init, ms, start) + if at == start then [e] else [] { AtPush(init, e, ms, start); }
    forall i | 0 <= i < |r| ensures r[i].events == At(events, ms, r[i].start) {
      if i == |buckets| { assert At(init, ms, at) == [] && [] + [e] == [e]; }
    }
    forall start | forall i :: 0 <= i < |r| ==> r[i].start != start ensures At(events, ms, start) == [] {
      assert forall i :: 0 <= i < |buckets| ==> buckets[i].start == r[i].start;
    }
  }

  // ---------------------------------------------------------------- sorting by bucket start

  function ByStart(): (Row<int>, Row<int>) -> bool { (a: Row<int>, b: Row<int>) => a.key <= b.key }

  function Sort(rows: seq<Row<int>>): seq<Row<int>> { SortBy(rows, ByStart()) }

  lemma {:induction false} RowsWeigh<K, C>(rows: seq<Row<K>>, f: K -> C, c: C, w: Row<K> -> int)
    requires forall r :: r in rows ==> w(r) == if f(r.key) == c then r.total else 0
    ensures RowsWhere(rows, f, c) == Weigh(rows, w)
  {
    if rows != [] {
      assert rows[0] in rows;
      RowsWeigh(rows[1..], f, c, w);
    }
  }

  lemma {:induction false} RowsWhereConcat<K, C>(a: seq<Row<K>>, b: seq<Row<K>>, f: K -> C, c: C)
    ensures RowsWhere(a + b, f, c) == RowsWhere(a, f, c) + RowsWhere(b, f, c)
  {
    if a == [] {
      assert a + b == b;
    } else {
      assert (a + b)[1..] == a[1..] + b;
      RowsWhereConcat(a[1..], b, f, c);
    }
  }

  lemma SortSums<C>(rows: seq<Row<int>>, f: int -> C, c: C)
    ensures RowsWhere(Sort(rows), f, c) == RowsWhere(rows, f, c)
  {
    var w := (r: Row<int>) => if f(r.key) == c then r.total else 0;
    RowsWeigh(rows, f, c, w);
    RowsWeigh(Sort(rows), f, c, w);
    SortWeighs(rows, ByStart(), w);
  }

  ghost predicate Increasing(rows: seq<Row<int>>) {
    forall i, j :: 0 <= i < j < |rows| ==> rows[i].key < rows[j].key
  }

  lemma {:induction false} InsertStrict(p: Row<int>, rows: seq<Row<int>>)
    requires Increasing(rows) && forall i :: 0 <= i < |rows| ==> rows[i].key != p.key
    ensures Increasing(InsertBy(p, rows, ByStart()))
    ensures forall r :: r in InsertBy(p, rows, ByStart()) ==> r == p || r in rows
  {
    if rows != [] && rows[0].key < p.key {
      var rest := rows[1..];
      assert forall i :: 0 <= i < |rest| ==> rest[i] == rows[i + 1];
      InsertStrict(p, rest);
      var t := InsertBy(p, rest, ByStart());
      forall i | 0 <= i < |t| ensures rows[0].key < t[i].key {
        assert t[i] in t;
      }
    }
  }

  lemma {:induction false} SortStrict(rows: seq<Row<int>>)
    requires DistinctKeys(rows)
    ensures Increasing(Sort(rows))
    ensures forall r :: r in Sort(rows) ==> r in rows
  {
    if rows != [] {
      var init, p := rows[..|rows| - 1], rows[|rows| - 1];
      SortStrict(init);
      forall i | 0 <= i < |Sort(init)| ensures Sort(init)[i].key != p.key {
        assert Sort(init)[i] in init;
      }
      InsertStrict(p, Sort(init));
    }
  }

  // ---------------------------------------------------------------- volume and fees over time

  /** The points of `queryVolume` and `queryFees`. */
  function Series(events: seq<Event>, q: Query, m: Metric): seq<Row<int>> {
    Sort(Points(BucketAll(Matching(events, q), IntervalMs(q.interval)), m))
  }

  /** The points, summed over any classes of bucket starts, are the plain sums of the matching events. */
  lemma SeriesSums<C>(events: seq<Event>, q: Query, m: Metric, f: int -> C, c: C)
    ensures RowsWhere(Series(events, q, m), f, c) == SumWhere(Matching(events, q), StartOf(IntervalMs(q.interval)), f, c, m)
  {
    var ms, all := IntervalMs(q.interval), Matching(events, q);
    PointsTally(all, ms, m);
    SortSums(Points(BucketAll(all, ms), m), f, c);
    TallySums(all, StartOf(ms), m, f, c);
  }

  function Total(rows: seq<Row<int>>): int {
    if rows == [] then 0 else rows[0].total + Total(rows[1..])
  }

  /** Bucketing neither loses nor counts twice: the collected points in time order, one per bucket, adding up to the matching total. */
  lemma SeriesConserves(events: seq<Event>, q: Query, m: Metric)
    ensures Total(Series(events, q, m)) == Sum(Matching(events, q), m)
    ensures Increasing(Series(events, q, m))
    ensures multiset(Series(events, q, m)) == multiset(Tally(Matching(events, q), StartOf(IntervalMs(q.interval)), m))
  {
    var ms, all := IntervalMs(q.interval), Matching(events, q);
    var every := (k: int) => true;
    SeriesSums(events, q, m, every, true);
    SumWhereEvery(all, StartOf(ms), every, m);
    RowsWhereEvery(Series(events, q, m), every);
    PointsTally(all, ms, m);
    TallyKeys(all, StartOf(ms), m);
    SortStrict(Points(BucketAll(all, ms), m));
    SortPermutes(Points(BucketAll(all, ms), m), ByStart());
  }

  lemma {:induction false} SumWhereEvery(events: seq<Event>, key: Event -> int, f: int -> bool, m: Metric)
    requires forall k :: f(k)
    ensures SumWhere(events, key, f, true, m) == Sum(events, m)
  {
    if events != [] { SumWhereEvery(events[..|events| - 1], key, f, m); }
  }

  lemma {:induction false} RowsWhereEvery(rows: seq<Row<int>>, f: int -> bool)
    requires forall k :: f(k)
    ensures RowsWhere(rows, f, true) == Total(rows)
  {
    if rows != [] { RowsWhereEvery(rows[1..], f); }
  }

  function BucketOf(ms: int): int -> int
    requires ms > 0
  {
    (start: int) => BucketStart(start, ms)
  }

  /** The finer points inside each coarser bucket add up to that bucket's own point. */
  lemma FinerSumsToCoarser(events: seq<Event>, q: Query, fine: Interval, coarse: Interval, m: Metric, start: int)
    requires IntervalMs(coarse) >= IntervalMs(fine)
    ensures RowsWhere(Series(events, q.(interval := fine), m), BucketOf(IntervalMs(coarse)), start)
            == RowsWhere(Series(events, q.(interval := coarse), m), BucketOf(IntervalMs(coarse)), start)
            == SumWhere(Matching(events, q), StartOf(IntervalMs(coarse)), BucketOf(IntervalMs(coarse)), start, m)
  {
    var f := BucketOf(IntervalMs(coarse));
    SameMatching(events, q, q.(interval := fine));
    SameMatching(events, q, q.(interval := coarse));
    SeriesSums(events, q.(interval := fine), m, f, start);
    SeriesSums(events, q.(interval := coarse), m, f, start);
    NestedSums(Matching(events, q), fine, coarse, start, m);
  }

  lemma {:induction false} NestedSums(events: seq<Event>, fine: Interval, coarse: Interval, start: int, m: Metric)
    requires IntervalMs(coarse) >= IntervalMs(fine)
    ensures var f := BucketOf(IntervalMs(coarse));
            SumWhere(events, StartOf(IntervalMs(fine)), f, start, m) == SumWhere(events, StartOf(IntervalMs(coarse)), f, start, m)
  {
    if events != [] {
      var t := events[|events| - 1].timestamp;
      NestedSums(events[..|events| - 1], fine, coarse, start, m);
      BucketsNest(t, fine, coarse);
      BucketsNest(t, coarse, coarse);
    }
  }

  /** The interval does not take part in the match. */
  lemma {:induction false} SameMatching(events: seq<Event>, q: Query, r: Query)
    requires r == q.(interval := r.interval)
    ensures Matching(events, r) == Matching(events, q)
  {
    if events != [] { SameMatching(events[1..], q, r); }
  }

  // ---------------------------------------------------------------- grouped queries

  datatype Dimension = ByChain | ByToken | BySolver

  function DimensionValue(e: Event, d: Dimension): string {
    match d
    case ByChain => e.chain
    case ByToken => e.srcToken
    case BySolver => e.solver
  }

  /** The requested dimensions in canonical order. */
  function Normalize(groupBy: seq<Dimension>): seq<Dimension> {
    Filter([ByChain, ByToken, BySolver], (d: Dimension) => d in groupBy)
  }

  function Values(dims: seq<Dimension>): Event -> seq<string> {
    (e: Event) => seq(|dims|, (i: nat) requires i < |dims| => DimensionValue(e, dims[i]))
  }

  datatype GroupedPoint = GroupedPoint(start: int, values: seq<string>, total: int)

  function PointsOf(start: int, rows: seq<Row<seq<string>>>): seq<GroupedPoint> {
    if rows == [] then [] else [GroupedPoint(start, rows[0].key, rows[0].total)] + PointsOf(start, rows[1..])
  }

  /** The rows of a grouped query, before they are put in display order. */
  function GroupBuckets(buckets: seq<Bucket>, dims: seq<Dimension>, m: Metric): seq<GroupedPoint> {
    if buckets == [] then []
    else PointsOf(buckets[0].start, Tally(buckets[0].events, Values(dims), m)) + GroupBuckets(buckets[1..], dims, m)
  }

  function Grouped(events: seq<Event>, q: Query, dims: seq<Dimension>, m: Metric): seq<GroupedPoint> {
    GroupBuckets(BucketAll(Matching(events, q), IntervalMs(q.interval)), dims, m)
  }

  /** By bucket, then by each dimension as the locale compares strings. */
  function ByValues(collate: (string, string) -> bool): (GroupedPoint, GroupedPoint) -> bool {
    (a: GroupedPoint, b: GroupedPoint) => a.start < b.start || (a.start == b.start && LexLe(collate, a.values, b.values))
  }

  /** The rows of `queryGrouped`. */
  function GroupedRows(events: seq<Event>, q: Query, dims: seq<Dimension>, m: Metric, collate: (string, string) -> bool): seq<GroupedPoint> {
    SortBy(Grouped(events, q, dims, m), ByValues(collate))
  }

  lemma GroupedOrdered(events: seq<Event>, q: Query, dims: seq<Dimension>, m: Metric, collate: (string, string) -> bool)
    requires Preorder(collate)
    ensures Ordered(GroupedRows(events, q, dims, m, collate), ByValues(collate))
  {
    var le := ByValues(collate);
    forall a, b ensures le(a, b) || le(b, a) { LexTotal(collate, a.values, b.values); }
    forall a, b, c | le(a, b) && le(b, c) ensures le(a, c) {
      if a.start == b.start == c.start { LexTransitive(collate, a.values, b.values, c.values); }
    }
    SortOrders(Grouped(events, q, dims, m), le);
  }

  lemma {:induction false} GroupedWeigh<C>(rows: seq<GroupedPoint>, start: int, f: seq<string> -> C, c: C, w: GroupedPoint -> int)
    requires forall p :: w(p) == if p.start == start && f(p.values) == c then p.total else 0
    ensures GroupedWhere(rows, start, f, c) == Weigh(rows, w)
  {
    if rows != [] { GroupedWeigh(rows[1..], start, f, c, w); }
  }

  lemma GroupedSortSums<C>(rows: seq<GroupedPoint>, le: (GroupedPoint, GroupedPoint) -> bool, start: int, f: seq<string> -> C, c: C)
    ensures GroupedWhere(SortBy(rows, le), start, f, c) == GroupedWhere(rows, start, f, c)
  {
    var w := (p: GroupedPoint) => if p.start == start && f(p.values) == c then p.total else 0;
    GroupedWeigh(rows, start, f, c, w);
    GroupedWeigh(SortBy(rows, le), start, f, c, w);
    SortWeighs(rows, le, w);
  }

  /** Grouped rows of one bucket whose values fall in class `c`. */
  ghost function GroupedWhere<C>(rows: seq<GroupedPoint>, start: int, f: seq<string> -> C, c: C): int {
    if rows == [] then 0
    else (if rows[0].start == start && f(rows[0].values) == c then rows[0].total else 0) + GroupedWhere(rows[1..], start, f, c)
  }

  /** Plain sum over the events of one bucket whose values fall in class `c`. */
  ghost function SumBucket<C>(events: seq<Event>, ms: int, start: int, dims: seq<Dimension>, f: seq<string> -> C, c: C, m: Metric): int
    requires ms > 0
  {
    if events == [] then 0
    else
      var e := events[|events| - 1];
      SumBucket(events[..|events| - 1], ms, start, dims, f, c, m)
      + if BucketStart(e.timestamp, ms) == start && f(Values(dims)(e)) == c then Amount(m, e) else 0
  }

  lemma {:induction false} GroupedConcat<C>(a: seq<GroupedPoint>, b: seq<GroupedPoint>, start: int, f: seq<string> -> C, c: C)
    ensures GroupedWhere(a + b, start, f, c) == GroupedWhere(a, start, f, c) + GroupedWhere(b, start, f, c)
  {
    if a == [] {
      assert a + b == b;
    } else {
      assert (a + b)[1..] == a[1..] + b;
      GroupedConcat(a[1..], b, start, f, c);
    }
  }

  lemma {:induction false} PointsOfSums<C>(at: int, rows: seq<Row<seq<string>>>, start: int, f: seq<string> -> C, c: C)
    ensures GroupedWhere(PointsOf(at, rows), start, f, c) == if at == start then RowsWhere(rows, f, c) else 0
  {
    if rows != [] { PointsOfSums(at, rows[1..], start, f, c); }
  }

  ghost function BucketsWhere<C>(buckets: seq<Bucket>, start: int, dims: seq<Dimension>, f: seq<string> -> C, c: C, m: Metric): int {
    if buckets == [] then 0
    else (if buckets[0].start == start then SumWhere(buckets[0].events, Values(dims), f, c, m) else 0)
         + BucketsWhere(buckets[1..], start, dims, f, c, m)
  }

  lemma {:induction false} GroupBucketsSums<C>(buckets: seq<Bucket>, start: int, dims: seq<Dimension>, f: seq<string> -> C, c: C, m: Metric)
    ensures GroupedWhere(GroupBuckets(buckets, dims, m), start, f, c) == BucketsWhere(buckets, start, dims, f, c, m)
  {
    if buckets != [] {
      var b := buckets[0];
      var rows := Tally(b.events, Values(dims), m);
      GroupBucketsSums(buckets[1..], start, dims, f, c, m);
      GroupedConcat(PointsOf(b.start, rows), GroupBuckets(buckets[1..], dims, m), start, f, c);
      PointsOfSums(b.start, rows, start, f, c);
      TallySums(b.events, Values(dims), m, f, c);
    }
  }

  lemma SumWherePush<K, C>(events: seq<Event>, e: Event, key: Event -> K, f: K -> C, c: C, m: Metric)
    ensures SumWhere(events + [e], key, f, c, m) == SumWhere(events, key, f, c, m) + if f(key(e)) == c then Amount(m, e) else 0
  {
    assert (events + [e])[..|events|] == events;
  }

  lemma {:induction false} AddEventSums<C>(buckets: seq<Bucket>, at: int, e: Event, start: int, dims: seq<Dimension>, f: seq<string> -> C, c: C, m: Metric)
    ensures BucketsWhere(AddEvent(buckets, at, e), start, dims, f, c, m)
            == BucketsWhere(buckets, start, dims, f, c, m) + if at == start && f(Values(dims)(e)) == c then Amount(m, e) else 0
  {
    if buckets == [] {
      SumWherePush([], e, Values(dims), f, c, m);
      assert [] + [e] == [e];
    } else if buckets[0].start == at {
      SumWherePush(buckets[0].events, e, Values(dims), f, c, m);
    } else {
      AddEventSums(buckets[1..], at, e, start, dims, f, c, m);
    }
  }

  lemma {:induction false} BucketAllSums<C>(events: seq<Event>, ms: int, start: int, dims: seq<Dimension>, f: seq<string> -> C, c: C, m: Metric)
    requires ms > 0
    ensures BucketsWhere(BucketAll(events, ms), start, dims, f, c, m) == SumBucket(events, ms, start, dims, f, c, m)
  {
    if events != [] {
      var init, e := events[..|events| - 1], events[|events| - 1];
      BucketAllSums(init, ms, start, dims, f, c, m);
      AddEventSums(BucketAll(init, ms), BucketStart(e.timestamp, ms), e, start, dims, f, c, m);
    }
  }

  /** Grouped rows of a bucket, summed over any classes of their values, are the plain sums of that bucket's events. */
  lemma GroupedSums<C>(events: seq<Event>, q: Query, dims: seq<Dimension>, m: Metric, collate: (string, string) -> bool,
                       start: int, f: seq<string> -> C, c: C)
    ensures GroupedWhere(GroupedRows(events, q, dims, m, collate), start, f, c)
            == SumBucket(Matching(events, q), IntervalMs(q.interval), start, dims, f, c, m)
  {
    var ms, all := IntervalMs(q.interval), Matching(events, q);
    GroupedSortSums(Grouped(events, q, dims, m), ByValues(collate), start, f, c);
    GroupBucketsSums(BucketAll(all, ms), start, dims, f, c, m);
    BucketAllSums(all, ms, start, dims, f, c, m);
  }

  /** Summed over all their dimensions, the grouped rows of a bucket give that bucket's ungrouped point. */
  lemma GroupedSumsToSeries(events: seq<Event>, q: Query, dims: seq<Dimension>, m: Metric, collate: (string, string) -> bool, start: int)
    ensures GroupedWhere(GroupedRows(events, q, dims, m, collate), start, (v: seq<string>) => true, true)
            == RowsWhere(Series(events, q, m), (k: int) => k == start, true)
  {
    var ms, all := IntervalMs(q.interval), Matching(events, q);
    var every, here := (v: seq<string>) => true, (k: int) => k == start;
    GroupedSums(events, q, dims, m, collate, start, every, true);
    SeriesSums(events, q, m, here, true);
    BucketSums(all, ms, start, dims, every, here, m);
  }

  lemma {:induction false} BucketSums(events: seq<Event>, ms: int, start: int, dims: seq<Dimension>, every: seq<string> -> bool, here: int -> bool, m: Metric)
    requires ms > 0 && (forall v :: every(v)) && (forall k :: here(k) <==> k == start)
    ensures SumBucket(events, ms, start, dims, every, true, m) == SumWhere(events, StartOf(ms), here, true, m)
  {
    if events != [] { BucketSums(events[..|events| - 1], ms, start, dims, every, here, m); }
  }

  /** Without dimensions a grouped query returns the rows of the ungrouped query, in the same order. */
  lemma UngroupedIsSeries(events: seq<Event>, q: Query, m: Metric, collate: (string, string) -> bool)
    ensures GroupedRows(events, q, [], m, collate) == PlainPoints(Series(events, q, m))
  {
    var ms, all := IntervalMs(q.interval), Matching(events, q);
    BucketsFilled(all, ms);
    UngroupedBuckets(BucketAll(all, ms), m);
    PlainSorted(Points(BucketAll(all, ms), m), collate);
  }

  function Plain(r: Row<int>): GroupedPoint { GroupedPoint(r.key, [], r.total) }

  lemma {:induction false} PlainInserted(p: Row<int>, rows: seq<Row<int>>, collate: (string, string) -> bool)
    ensures InsertBy(Plain(p), PlainPoints(rows), ByValues(collate)) == PlainPoints(InsertBy(p, rows, ByStart()))
  {
    if rows != [] {
      assert ByValues(collate)(Plain(rows[0]), Plain(p)) == ByStart()(rows[0], p);
      assert PlainPoints(rows)[1..] == PlainPoints(rows[1..]);
      PlainInserted(p, rows[1..], collate);
      assert ([p] + rows)[1..] == rows;
      assert ([rows[0]] + InsertBy(p, rows[1..], ByStart()))[1..] == InsertBy(p, rows[1..], ByStart());
    } else {
      assert [p][1..] == [];
    }
  }

  lemma {:induction false} PlainPush(rows: seq<Row<int>>, p: Row<int>)
    ensures PlainPoints(rows + [p]) == PlainPoints(rows) + [Plain(p)]
  {
    if rows == [] {
      assert rows + [p] == [p] && [p][1..] == [];
    } else {
      assert (rows + [p])[1..] == rows[1..] + [p];
      PlainPush(rows[1..], p);
    }
  }

  lemma {:induction false} PlainSorted(rows: seq<Row<int>>, collate: (string, string) -> bool)
    ensures SortBy(PlainPoints(rows), ByValues(collate)) == PlainPoints(Sort(rows))
  {
    if rows != [] {
      var init, p := rows[..|rows| - 1], rows[|rows| - 1];
      PlainSorted(init, collate);
      PlainPush(init, p);
      assert rows == init + [p];
      var points := PlainPoints(rows);
      assert points[..|points| - 1] == PlainPoints(init) && points[|points| - 1] == Plain(p);
      PlainInserted(p, Sort(init), collate);
    }
  }

  function PlainPoints(rows: seq<Row<int>>): seq<GroupedPoint> {
    if rows == [] then [] else [Plain(rows[0])] + PlainPoints(rows[1..])
  }

  ghost predicate Filled(buckets: seq<Bucket>) {
    forall i :: 0 <= i < |buckets| ==> buckets[i].events != []
  }

  lemma {:induction false} AddEventFilled(buckets: seq<Bucket>, start: int, e: Event)
    requires Filled(buckets)
    ensures Filled(AddEvent(buckets, start, e))
  {
    if buckets != [] && buckets[0].start != start { AddEventFilled(buckets[1..], start, e); }
  }

  lemma {:induction false} BucketsFilled(events: seq<Event>, ms: int)
    requires ms > 0
    ensures Filled(BucketAll(events, ms))
  {
    if events != [] {
      BucketsFilled(events[..|events| - 1], ms);
      AddEventFilled(BucketAll(events[..|events| - 1], ms), BucketStart(events[|events| - 1].timestamp, ms), events[|events| - 1]);
    }
  }

  lemma {:induction false} UngroupedTally(events: seq<Event>, m: Metric)
    ensures Tally(events, Values([]), m) == if events == [] then [] else [Row([], Sum(events, m))]
  {
    if events != [] {
      UngroupedTally(events[..|events| - 1], m);
      assert Values([])(events[|events| - 1]) == [];
      assert events[..|events| - 1] == [] ==> Sum(events[..|events| - 1], m) == 0;
    }
  }

  lemma {:induction false} UngroupedBuckets(buckets: seq<Bucket>, m: Metric)
    requires Filled(buckets)
    ensures GroupBuckets(buckets, [], m) == PlainPoints(Points(buckets, m))
  {
    if buckets != [] {
      UngroupedTally(buckets[0].events, m);
      UngroupedBuckets(buckets[1..], m);
      var row: Row<seq<string>> := Row([], Sum(buckets[0].events, m));
      assert PointsOf(buckets[0].start, [row]) == [GroupedPoint(buckets[0].start, [], row.total)];
    }
  }

  // ---------------------------------------------------------------- solver shares

  const PPM := 1000000

  /** A share in millionths, truncated. */
  function Share(volume: int, total: int): int {
    if total == 0 then 0 else TruncDiv(volume * PPM, total)
  }

  function Shares(rows: seq<Row<string>>, total: int): int {
    if rows == [] then 0 else Share(rows[0].total, total) + Shares(rows[1..], total)
  }

  function RowTotal(rows: seq<Row<string>>): int {
    if rows == [] then 0 else rows[0].total + RowTotal(rows[1..])
  }

  lemma ShareBounds(volume: int, total: int)
    requires volume >= 0 && total > 0
    ensures volume * PPM - total < Share(volume, total) * total <= volume * PPM
  {
    var n := volume * PPM;
    assert n == n / total * total + n % total;
  }

  lemma {:induction false} SharesBounds(rows: seq<Row<string>>, total: int)
    requires total > 0 && forall r :: r in rows ==> r.total >= 0
    ensures RowTotal(rows) * PPM - |rows| * total <= Shares(rows, total) * total <= RowTotal(rows) * PPM
    ensures rows != [] ==> RowTotal(rows) * PPM - |rows| * total < Shares(rows, total) * total
  {
    if rows != [] {
      assert rows == [rows[0]] + rows[1..];
      ShareBounds(rows[0].total, total);
      SharesBounds(rows[1..], total);
      hide Share;
      Distribute(Share(rows[0].total, total), Shares(rows[1..], total), total);
      Distribute(1, |rows[1..]|, total);
    }
  }

  /** The shares of the k solvers of a bucket add up to a million, less fewer than k millionths. */
  lemma SharesAddUp(rows: seq<Row<string>>)
    requires (forall r :: r in rows ==> r.total >= 0) && RowTotal(rows) > 0
    ensures PPM - |rows| < Shares(rows, RowTotal(rows)) <= PPM
  {
    var total := RowTotal(rows);
    SharesBounds(rows, total);
    Between(Shares(rows, total), PPM - |rows|, PPM, total);
  }

  function SolverOf(): Event -> string { (e: Event) => e.solver }

  lemma {:induction false} AddTotalTotal(rows: seq<Row<string>>, key: string, amount: int)
    requires amount >= 0 && forall r :: r in rows ==> r.total >= 0
    ensures RowTotal(AddTotal(rows, key, amount)) == RowTotal(rows) + amount
    ensures forall r :: r in AddTotal(rows, key, amount) ==> r.total >= 0
  {
    if rows != [] {
      assert rows == [rows[0]] + rows[1..];
      if rows[0].key != key { AddTotalTotal(rows[1..], key, amount); }
    }
  }

  lemma {:induction false} TallyTotal(events: seq<Event>)
    requires Each(events, NonNegative())
    ensures RowTotal(Tally(events, SolverOf(), Volume)) == Sum(events, Volume)
    ensures forall r :: r in Tally(events, SolverOf(), Volume) ==> r.total >= 0
  {
    if events != [] {
      var init, e := events[..|events| - 1], events[|events| - 1];
      TallyTotal(init);
      AddTotalTotal(Tally(init, SolverOf(), Volume), e.solver, e.volume);
    }
  }

  lemma SharesOfBucket(events: seq<Event>)
    requires Each(events, NonNegative()) && Sum(events, Volume) > 0
    ensures var rows := Tally(events, SolverOf(), Volume);
            PPM - |rows| < Shares(rows, Sum(events, Volume)) <= PPM
  {
    TallyTotal(events);
    SharesAddUp(Tally(events, SolverOf(), Volume));
  }

  datatype SharePoint = SharePoint(start: int, solver: string, volume: int, ppm: int)

  function SharePoints(start: int, rows: seq<Row<string>>, total: int): seq<SharePoint> {
    if rows == [] then []
    else SharePoints(start, rows[..|rows| - 1], total)
         + [SharePoint(start, rows[|rows| - 1].key, rows[|rows| - 1].total, Share(rows[|rows| - 1].total, total))]
  }

  function ShareRows(buckets: seq<Bucket>): seq<SharePoint> {
    if buckets == [] then []
    else
      var b := buckets[|buckets| - 1];
      ShareRows(buckets[..|buckets| - 1]) + SharePoints(b.start, Tally(b.events, SolverOf(), Volume), Sum(b.events, Volume))
  }

  /** By bucket, then by share, the largest first. */
  function ByShare(): (SharePoint, SharePoint) -> bool {
    (a: SharePoint, b: SharePoint) => a.start < b.start || (a.start == b.start && a.ppm >= b.ppm)
  }

  /** The rows of `querySolverShare`. */
  function SolverShares(events: seq<Event>, q: Query): seq<SharePoint> {
    SortBy(ShareRows(BucketAll(Matching(events, q), IntervalMs(q.interval))), ByShare())
  }

  lemma SolverSharesOrdered(events: seq<Event>, q: Query)
    ensures Ordered(SolverShares(events, q), ByShare())
  {
    SortOrders(ShareRows(BucketAll(Matching(events, q), IntervalMs(q.interval))), ByShare());
  }

  /** The share of a row of one bucket; and one for each of its rows. */
  function PpmAt(start: int): SharePoint -> int { (p: SharePoint) => if p.start == start then p.ppm else 0 }

  function RowAt(start: int): SharePoint -> int { (p: SharePoint) => if p.start == start then 1 else 0 }

  lemma {:induction false} SharesSnoc(rows: seq<Row<string>>, r: Row<string>, total: int)
    ensures Shares(rows + [r], total) == Shares(rows, total) + Share(r.total, total)
  {
    if rows == [] {
      assert rows + [r] == [r] && [r][1..] == [];
    } else {
      assert (rows + [r])[1..] == rows[1..] + [r];
      SharesSnoc(rows[1..], r, total);
    }
  }

  lemma {:induction false} SharePointsWeigh(at: int, rows: seq<Row<string>>, total: int, start: int)
    ensures Weigh(SharePoints(at, rows, total), PpmAt(start)) == if at == start then Shares(rows, total) else 0
    ensures Weigh(SharePoints(at, rows, total), RowAt(start)) == if at == start then |rows| else 0
  {
    if rows != [] {
      var init, r := rows[..|rows| - 1], rows[|rows| - 1];
      var p := SharePoint(at, r.key, r.total, Share(r.total, total));
      SharePointsWeigh(at, init, total, start);
      SharesSnoc(init, r, total);
      assert rows == init + [r] && [p][1..] == [];
      WeighConcat(SharePoints(at, init, total), [p], PpmAt(start));
      WeighConcat(SharePoints(at, init, total), [p], RowAt(start));
    }
  }

  /** Only the bucket of a start contributes rows with that start. */
  lemma {:induction false} ShareRowsWeigh(buckets: seq<Bucket>, i: nat)
    requires i < |buckets| && DistinctStarts(buckets)
    ensures var b := buckets[i];
            var rows := Tally(b.events, SolverOf(), Volume);
            && Weigh(ShareRows(buckets), PpmAt(b.start)) == Shares(rows, Sum(b.events, Volume))
            && Weigh(ShareRows(buckets), RowAt(b.start)) == |rows|
  {
    hide Tally, Sum, Shares;
    var init, last, start := buckets[..|buckets| - 1], buckets[|buckets| - 1], buckets[i].start;
    var more := SharePoints(last.start, Tally(last.events, SolverOf(), Volume), Sum(last.events, Volume));
    WeighConcat(ShareRows(init), more, PpmAt(start));
    WeighConcat(ShareRows(init), more, RowAt(start));
    SharePointsWeigh(last.start, Tally(last.events, SolverOf(), Volume), Sum(last.events, Volume), start);
    if i < |init| {
      ShareRowsWeigh(init, i);
    } else {
      NoRowsAt(init, start);
    }
  }

  lemma {:induction false} NoRowsAt(buckets: seq<Bucket>, start: int)
    requires forall i :: 0 <= i < |buckets| ==> buckets[i].start != start
    ensures Weigh(ShareRows(buckets), PpmAt(start)) == 0 && Weigh(ShareRows(buckets), RowAt(start)) == 0
  {
    if buckets != [] {
      var init, last := buckets[..|buckets| - 1], buckets[|buckets| - 1];
      var more := SharePoints(last.start, Tally(last.events, SolverOf(), Volume), Sum(last.events, Volume));
      NoRowsAt(init, start);
      WeighConcat(ShareRows(init), more, PpmAt(start));
      WeighConcat(ShareRows(init), more, RowAt(start));
      SharePointsWeigh(last.start, Tally(last.events, SolverOf(), Volume), Sum(last.events, Volume), start);
    }
  }

  lemma {:induction false} PointsAt(buckets: seq<Bucket>, m: Metric)
    ensures |Points(buckets, m)| == |buckets|
    ensures forall i :: 0 <= i < |buckets| ==> Points(buckets, m)[i] == Row(buckets[i].start, Sum(buckets[i].events, m))
  {
    if buckets != [] { PointsAt(buckets[1..], m); }
  }

  ghost predicate Each(events: seq<Event>, p: Event -> bool) {
    forall i :: 0 <= i < |events| ==> p(events[i])
  }

  ghost predicate EachBucket(buckets: seq<Bucket>, p: Event -> bool) {
    forall i :: 0 <= i < |buckets| ==> Each(buckets[i].events, p)
  }

  lemma {:induction false} AddEventEach(buckets: seq<Bucket>, start: int, e: Event, p: Event -> bool)
    requires p(e) && EachBucket(buckets, p)
    ensures EachBucket(AddEvent(buckets, start, e), p)
  {
    if buckets == [] {
      assert Each([e], p);
    } else {
      var b, rest := buckets[0], buckets[1..];
      assert Each(b.events, p);
      forall i | 0 <= i < |rest| ensures Each(rest[i].events, p) { assert rest[i] == buckets[i + 1]; }
      if b.start != start {
        AddEventEach(rest, start, e, p);
        EachCons(b, AddEvent(rest, start, e), p);
      } else {
        EachCons(Bucket(start, b.events + [e]), rest, p);
      }
    }
  }

  lemma EachCons(b: Bucket, rest: seq<Bucket>, p: Event -> bool)
    requires Each(b.events, p) && EachBucket(rest, p)
    ensures EachBucket([b] + rest, p)
  {
  }

  /** What holds of every event holds of every event of every bucket. */
  lemma {:induction false} BucketsEach(events: seq<Event>, ms: int, p: Event -> bool)
    requires ms > 0 && Each(events, p)
    ensures EachBucket(BucketAll(events, ms), p)
  {
    if events != [] {
      BucketsEach(events[..|events| - 1], ms, p);
      AddEventEach(BucketAll(events[..|events| - 1], ms), BucketStart(events[|events| - 1].timestamp, ms), events[|events| - 1], p);
    }
  }

  lemma MatchingEach(events: seq<Event>, q: Query, p: Event -> bool)
    requires Each(events, p)
    ensures Each(Matching(events, q), p)
  {
    var all := Matching(events, q);
    forall k | 0 <= k < |all| ensures p(all[k]) { assert all[k] in all; }
  }

  function NonNegative(): Event -> bool { (e: Event) => e.volume >= 0 }

  function IsStart(start: int): int -> bool { (k: int) => k == start }

  lemma {:induction false} AbsentTotal(rows: seq<Row<int>>, start: int)
    requires forall i :: 0 <= i < |rows| ==> rows[i].key != start
    ensures RowsWhere(rows, IsStart(start), true) == 0
  {
    if rows != [] { AbsentTotal(rows[1..], start); }
  }

  lemma {:induction false} TotalAt(rows: seq<Row<int>>, start: int) returns (i: nat)
    requires DistinctKeys(rows) && RowsWhere(rows, IsStart(start), true) != 0
    ensures i < |rows| && rows[i].key == start && rows[i].total == RowsWhere(rows, IsStart(start), true)
  {
    var rest := rows[1..];
    assert forall k :: 0 <= k < |rest| ==> rest[k] == rows[k + 1];
    if rows[0].key == start {
      i := 0;
      AbsentTotal(rest, start);
    } else {
      var k := TotalAt(rest, start);
      i := k + 1;
    }
  }

  /** The bucket of a start with some volume. */
  lemma BucketAt(all: seq<Event>, ms: int, start: int) returns (i: nat)
    requires ms > 0 && SumWhere(all, StartOf(ms), IsStart(start), true, Volume) != 0
    ensures var buckets := BucketAll(all, ms);
            && i < |buckets| && DistinctStarts(buckets) && buckets[i].start == start
            && Sum(buckets[i].events, Volume) == SumWhere(all, StartOf(ms), IsStart(start), true, Volume)
  {
    var buckets := BucketAll(all, ms);
    var points := Points(buckets, Volume);
    PointsTally(all, ms, Volume);
    TallyKeys(all, StartOf(ms), Volume);
    TallySums(all, StartOf(ms), Volume, IsStart(start), true);
    PointsAt(buckets, Volume);
    assert DistinctStarts(buckets) by {
      forall a, b | 0 <= a < b < |buckets| ensures buckets[a].start != buckets[b].start { assert points[a].key != points[b].key; }
    }
    i := TotalAt(points, start);
  }

  /**
   * In every bucket with some volume, the shares of the k rows the query returns
   * for it add up to a million, less fewer than k millionths.
   */
  lemma SolverSharesAddUp(events: seq<Event>, q: Query, start: int)
    requires Each(events, NonNegative())
    requires SumWhere(Matching(events, q), StartOf(IntervalMs(q.interval)), IsStart(start), true, Volume) > 0
    ensures var rows := SolverShares(events, q);
            PPM - Weigh(rows, RowAt(start)) < Weigh(rows, PpmAt(start)) <= PPM
  {
    var ms, all := IntervalMs(q.interval), Matching(events, q);
    var i := BucketAt(all, ms, start);
    var buckets := BucketAll(all, ms);
    MatchingEach(events, q, NonNegative());
    BucketsEach(all, ms, NonNegative());
    assert Each(buckets[i].events, NonNegative());
    ShareRowsWeigh(buckets, i);
    SharesOfBucket(buckets[i].events);
    SortWeighs(ShareRows(buckets), ByShare(), PpmAt(start));
    SortWeighs(ShareRows(buckets), ByShare(), RowAt(start));
  }

  // ---------------------------------------------------------------- ingestion

  ghost predicate Stored(events: seq<Event>, id: string) {
    exists i :: 0 <= i < |events| && events[i].eventId == id
  }

  ghost predicate UniqueIds(events: seq<Event>) {
    forall i, j :: 0 <= i < j < |events| ==> events[i].eventId != events[j].eventId
  }

  ghost function IngestAll(stored: seq<Event>, batch: seq<Event>): seq<Event> {
    if batch == [] then stored
    else
      var s, e := IngestAll(stored, batch[..|batch| - 1]), batch[|batch| - 1];
      if Stored(s, e.eventId) then s else s + [e]
  }

  /** What is stored stays first and unchanged, each new id enters once, and no other id enters. */
  lemma {:induction false} IngestHolds(stored: seq<Event>, batch: seq<Event>)
    requires UniqueIds(stored)
    ensures var s := IngestAll(stored, batch);
            && stored <= s && UniqueIds(s)
            && (forall id :: Stored(s, id) <==> Stored(stored, id) || Stored(batch, id))
            && (forall i :: |stored| <= i < |s| ==> s[i] in batch)
  {
    var s := IngestAll(stored, batch);
    if batch != [] {
      var init, e := batch[..|batch| - 1], batch[|batch| - 1];
      IngestHolds(stored, init);
      var t := IngestAll(stored, init);
      forall id ensures Stored(batch, id) <==> Stored(init, id) || id == e.eventId {
        StoredPush(init, e, id);
        assert batch == init + [e];
      }
      forall id ensures Stored(t + [e], id) <==> Stored(t, id) || id == e.eventId {
        StoredPush(t, e, id);
      }
      forall i | |stored| <= i < |t| ensures t[i] in batch {
        assert t[i] in init;
      }
    }
  }

  lemma StoredPush(events: seq<Event>, e: Event, id: string)
    ensures Stored(events + [e], id) <==> Stored(events, id) || id == e.eventId
  {
    var s := events + [e];
    assert s[|events|] == e;
    if Stored(events, id) {
      var i :| 0 <= i < |events| && events[i].eventId == id;
      assert s[i] == events[i];
    }
  }

  lemma {:induction false} KnownBatch(stored: seq<Event>, batch: seq<Event>)
    requires forall i :: 0 <= i < |batch| ==> Stored(stored, batch[i].eventId)
    ensures IngestAll(stored, batch) == stored
  {
    if batch != [] {
      assert batch[|batch| - 1] in batch;
      KnownBatch(stored, batch[..|batch| - 1]);
    }
  }

  /** Delivering again, in any order and any number of times, events already ingested changes nothing. */
  lemma IngestIdempotent(stored: seq<Event>, batch: seq<Event>, again: seq<Event>)
    requires UniqueIds(stored) && forall i :: 0 <= i < |again| ==> Stored(batch, again[i].eventId) || Stored(stored, again[i].eventId)
    ensures IngestAll(IngestAll(stored, batch), again) == IngestAll(stored, batch)
  {
    IngestHolds(stored, batch);
    KnownBatch(IngestAll(stored, batch), again);
  }

  // ---------------------------------------------------------------- the store

  lemma {:induction false} PointsPush(buckets: seq<Bucket>, b: Bucket, m: Metric)
    ensures Points(buckets + [b], m) == Points(buckets, m) + [Row(b.start, Sum(b.events, m))]
  {
    if buckets == [] {
      assert buckets + [b] == [b] && [b][1..] == [];
    } else {
      assert (buckets + [b])[1..] == buckets[1..] + [b];
      PointsPush(buckets[1..], b, m);
    }
  }

  lemma {:induction false} GroupBucketsPush(buckets: seq<Bucket>, b: Bucket, dims: seq<Dimension>, m: Metric)
    ensures GroupBuckets(buckets + [b], dims, m) == GroupBuckets(buckets, dims, m) + PointsOf(b.start, Tally(b.events, Values(dims), m))
  {
    if buckets == [] {
      assert buckets + [b] == [b] && [b][1..] == [];
    } else {
      assert (buckets + [b])[1..] == buckets[1..] + [b];
      GroupBucketsPush(buckets[1..], b, dims, m);
    }
  }

  class InMemoryAnalyticsStore {
    /** The event map in insertion order. */
    var events: seq<Event>

    ghost predicate Valid()
      reads this
    {
      UniqueIds(events)
    }

    constructor ()
      ensures Valid() && events == []
    {
      events := [];
    }

    method Has(id: string) returns (r: bool)
      ensures r <==> Stored(events, id)
    {
      var i := 0;
      while i < |events|
        invariant 0 <= i <= |events| && forall j :: 0 <= j < i ==> events[j].eventId != id
      {
        if events[i].eventId == id { return true; }
        i := i + 1;
      }
      return false;
    }

    method Ingest(batch: seq<Event>) returns (inserted: nat)
      requires Valid()
      modifies this
      ensures Valid() && events == IngestAll(old(events), batch)
      ensures inserted == |events| - |old(events)|
    {
      inserted := 0;
      var i := 0;
      while i < |batch|
        invariant 0 <= i <= |batch| && events == IngestAll(old(events), batch[..i])
        invariant inserted == |events| - |old(events)|
      {
        assert batch[..i + 1][..i] == batch[..i];
        var known := Has(batch[i].eventId);
        if !known {
          events := events + [batch[i]];
          inserted := inserted + 1;
        }
        i := i + 1;
      }
      assert batch[..i] == batch;
      IngestHolds(old(events), batch);
    }

    method BucketEvents(q: Query) returns (buckets: seq<Bucket>)
      ensures buckets == BucketAll(Matching(events, q), IntervalMs(q.interval))
    {
      var ms, all := IntervalMs(q.interval), Matching(events, q);
      buckets := [];
      var i := 0;
      while i < |all|
        invariant 0 <= i <= |all| && buckets == BucketAll(all[..i], ms)
      {
        assert all[..i + 1][..i] == all[..i];
        buckets := AddEvent(buckets, BucketStart(all[i].timestamp, ms), all[i]);
        i := i + 1;
      }
      assert all[..i] == all;
    }

    method QueryMetric(q: Query, m: Metric) returns (points: seq<Row<int>>)
      ensures points == Series(events, q, m)
    {
      hide Sum, BucketAll, Matching;
      var buckets := BucketEvents(q);
      points := [];
      var i := 0;
      while i < |buckets|
        invariant 0 <= i <= |buckets| && points == Points(buckets[..i], m)
      {
        assert buckets[..i + 1] == buckets[..i] + [buckets[i]];
        PointsPush(buckets[..i], buckets[i], m);
        points := points + [Row(buckets[i].start, Sum(buckets[i].events, m))];
        i := i + 1;
      }
      assert buckets[..i] == buckets;
      points := Sort(points);
    }

    method QuerySolverShare(q: Query) returns (points: seq<SharePoint>)
      ensures points == SolverShares(events, q)
    {
      hide Sum, BucketAll, Matching, Tally, Share;
      var buckets := BucketEvents(q);
      points := [];
      var i := 0;
      while i < |buckets|
        invariant 0 <= i <= |buckets| && points == ShareRows(buckets[..i])
      {
        var rows, total := SolverTotals(buckets[i].events);
        assert buckets[..i + 1][..i] == buckets[..i];
        var k := 0;
        while k < |rows|
          invariant 0 <= k <= |rows| && points == ShareRows(buckets[..i]) + SharePoints(buckets[i].start, rows[..k], total)
        {
          assert rows[..k + 1][..k] == rows[..k];
          points := points + [SharePoint(buckets[i].start, rows[k].key, rows[k].total, Share(rows[k].total, total))];
          k := k + 1;
        }
        assert rows[..k] == rows;
        i := i + 1;
      }
      assert buckets[..i] == buckets;
      points := SortBy(points, ByShare());
    }

    method QueryGrouped(q: Query, groupBy: seq<Dimension>, m: Metric, collate: (string, string) -> bool) returns (points: seq<GroupedPoint>)
      ensures points == GroupedRows(events, q, Normalize(groupBy), m, collate)
    {
      hide BucketAll, Matching, Tally, PointsOf, Normalize, Values;
      var dims := Normalize(groupBy);
      var buckets := BucketEvents(q);
      points := [];
      var i := 0;
      while i < |buckets|
        invariant 0 <= i <= |buckets| && points == GroupBuckets(buckets[..i], dims, m)
      {
        var groups := GroupTotals(buckets[i].events, dims, m);
        assert buckets[..i + 1] == buckets[..i] + [buckets[i]];
        GroupBucketsPush(buckets[..i], buckets[i], dims, m);
        points := points + PointsOf(buckets[i].start, groups);
        i := i + 1;
      }
      assert buckets[..i] == buckets;
      points := SortBy(points, ByValues(collate));
    }
  }

  /** Running totals per solver of one bucket. */
  method SolverTotals(events: seq<Event>) returns (rows: seq<Row<string>>, total: int)
    ensures rows == Tally(events, SolverOf(), Volume) && total == Sum(events, Volume)
  {
    rows, total := [], 0;
    var i := 0;
    while i < |events|
      invariant 0 <= i <= |events| && rows == Tally(events[..i], SolverOf(), Volume) && total == Sum(events[..i], Volume)
    {
      assert events[..i + 1][..i] == events[..i];
      rows := AddTotal(rows, events[i].solver, events[i].volume);
      total := total + events[i].volume;
      i := i + 1;
    }
    assert events[..i] == events;
  }

  /** Running totals per combination of dimension values of one bucket. */
  method GroupTotals(events: seq<Event>, dims: seq<Dimension>, m: Metric) returns (groups: seq<Row<seq<string>>>)
    ensures groups == Tally(events, Values(dims), m)
  {
    groups := [];
    var i := 0;
    while i < |events|
      invariant 0 <= i <= |events| && groups == Tally(events[..i], Values(dims), m)
    {
      assert events[..i + 1][..i] == events[..i];
      groups := AddTotal(groups, Values(dims)(events[i]), if m == Volume then events[i].volume else events[i].fees);
      i := i + 1;
    }
    assert events[..i] == events;
  }
}
