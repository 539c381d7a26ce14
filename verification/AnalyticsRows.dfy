/** Whose rows the analytics queries return: each one related to the events it stands for. */
module AnalyticsRows {
  import opened Common
  import opened Sorting
  import opened Analytics

  // ---------------------------------------------------------------- which events a query is about

  /** Without filters a query is about a stretch of time, its end excluded; each filter that is given narrows it by itself. */
  lemma FiltersNarrow(e: Event, q: Query)
    ensures Matches(e, q.(chain := "", token := "", solver := "", srcChain := "", dstChain := "")) <==> q.from <= e.timestamp && e.timestamp < q.to
    ensures Matches(e, q) <==> Matches(e, q.(chain := "")) && (q.chain != "" ==> e.chain == q.chain)
    ensures Matches(e, q) <==> Matches(e, q.(token := "")) && (q.token != "" ==> q.token in {e.srcToken, e.dstToken})
    ensures Matches(e, q) <==> Matches(e, q.(solver := "")) && (q.solver != "" ==> e.solver == q.solver)
    ensures Matches(e, q) <==> Matches(e, q.(srcChain := "")) && (q.srcChain != "" ==> e.chain == q.srcChain)
    ensures Matches(e, q) <==> Matches(e, q.(dstChain := "")) && (q.dstChain != "" ==> e.dstChain == q.dstChain)
  {
  }

  /** Adjacent stretches of time neither share nor miss an event: their totals add up. */
  lemma {:induction false} WindowsAddUp(events: seq<Event>, q: Query, split: int, m: Metric)
    requires q.from <= split <= q.to
    ensures SumIf(events, IsMatch(q), m) == SumIf(events, IsMatch(q.(to := split)), m) + SumIf(events, IsMatch(q.(from := split)), m)
  {
    if events != [] { WindowsAddUp(events[..|events| - 1], q, split, m); }
  }

  function IsMatch(q: Query): Event -> bool { (e: Event) => Matches(e, q) }

  /** A minute, sixty of them, and a day of twenty-four hours, in milliseconds. */
  lemma IntervalLengths()
    ensures IntervalMs(Minute) == 60 * 1000 && IntervalMs(Hour) == 60 * IntervalMs(Minute) && IntervalMs(Day) == 24 * IntervalMs(Hour)
  {
  }

  /** Plain sum over the events that satisfy `p`. */
  ghost function SumIf(events: seq<Event>, p: Event -> bool, m: Metric): int {
    if events == [] then 0
    else
      var e := events[|events| - 1];
      SumIf(events[..|events| - 1], p, m) + if !p(e) then 0 else if m == Volume then e.volume else e.fees
  }

  lemma SumIfPush(events: seq<Event>, e: Event, p: Event -> bool, m: Metric)
    ensures SumIf(events + [e], p, m) == SumIf(events, p, m) + if !p(e) then 0 else if m == Volume then e.volume else e.fees
  {
    assert (events + [e])[..|events|] == events;
  }

  // ---------------------------------------------------------------- rows per key

  ghost predicate HasKey<K>(rows: seq<Row<K>>, k: K) {
    exists i :: 0 <= i < |rows| && rows[i].key == k
  }

  ghost predicate SomeEvent<K>(events: seq<Event>, key: Event -> K, k: K) {
    exists i :: 0 <= i < |events| && key(events[i]) == k
  }

  lemma HasKeyCons<K>(r: Row<K>, rows: seq<Row<K>>, k: K)
    ensures HasKey([r] + rows, k) <==> r.key == k || HasKey(rows, k)
  {
    var all := [r] + rows;
    if i :| 0 <= i < |rows| && rows[i].key == k { assert all[i + 1].key == k; }
    if i :| 0 <= i < |all| && all[i].key == k { if i > 0 { assert rows[i - 1].key == k; } }
    assert all[0] == r;
  }

  lemma {:induction false} AddTotalHas<K>(rows: seq<Row<K>>, key: K, amount: int, k: K)
    ensures HasKey(AddTotal(rows, key, amount), k) <==> k == key || HasKey(rows, k)
  {
    hide HasKey;
    if rows == [] {
      NoKeys(k);
      HasKeyCons(Row(key, amount), [], k);
      assert [Row(key, amount)] + [] == [Row(key, amount)];
    } else {
      var r, rest := rows[0], rows[1..];
      assert rows == [r] + rest;
      HasKeyCons(r, rest, k);
      if r.key == key {
        HasKeyCons(Row(key, r.total + amount), rest, k);
      } else {
        AddTotalHas(rest, key, amount, k);
        HasKeyCons(r, AddTotal(rest, key, amount), k);
      }
    }
  }

  lemma NoKeys<K>(k: K)
    ensures !HasKey([], k)
  {
  }

  /** The keys with a row are those of the events. */
  lemma {:induction false} TallyHas<K>(events: seq<Event>, key: Event -> K, m: Metric, k: K)
    ensures HasKey(Tally(events, key, m), k) <==> SomeEvent(events, key, k)
  {
    if events != [] {
      hide HasKey;
      var init, e := events[..|events| - 1], events[|events| - 1];
      TallyHas(init, key, m, k);
      AddTotalHas(Tally(init, key, m), key(e), Amount(m, e), k);
      if SomeEvent(init, key, k) {
        var i :| 0 <= i < |init| && key(init[i]) == k;
        assert key(events[i]) == k;
      }
      if i :| 0 <= i < |events| && key(events[i]) == k { if i < |init| { assert key(init[i]) == k; } }
    } else {
      NoKeys(k);
      assert Tally(events, key, m) == [];
    }
  }

  function IsKey<K(==)>(key: K): K -> bool { (k: K) => k == key }

  lemma {:induction false} RowsAbsent<K>(rows: seq<Row<K>>, key: K)
    requires forall r :: r in rows ==> r.key != key
    ensures RowsWhere(rows, IsKey(key), true) == 0
  {
    if rows != [] {
      assert rows[0] in rows;
      RowsAbsent(rows[1..], key);
    }
  }

  lemma {:induction false} RowTotalIs<K>(rows: seq<Row<K>>, i: nat)
    requires DistinctKeys(rows) && i < |rows|
    ensures RowsWhere(rows, IsKey(rows[i].key), true) == rows[i].total
  {
    var rest := rows[1..];
    assert forall j :: 0 <= j < |rest| ==> rest[j] == rows[j + 1];
    if i == 0 {
      RowsAbsent(rest, rows[0].key);
    } else {
      RowTotalIs(rest, i - 1);
    }
  }

  lemma {:induction false} SumWhereIf<K>(events: seq<Event>, key: Event -> K, k: K, p: Event -> bool, m: Metric)
    requires forall e :: p(e) <==> key(e) == k
    ensures SumWhere(events, key, IsKey(k), true, m) == SumIf(events, p, m)
  {
    if events != [] { SumWhereIf(events[..|events| - 1], key, k, p, m); }
  }

  lemma TallyRowIs<K>(events: seq<Event>, key: Event -> K, m: Metric, r: Row<K>, p: Event -> bool)
    requires r in Tally(events, key, m) && forall e :: p(e) <==> key(e) == r.key
    ensures r.total == SumIf(events, p, m)
  {
    var rows := Tally(events, key, m);
    TallyKeys(events, key, m);
    var i :| 0 <= i < |rows| && rows[i] == r;
    RowTotalIs(rows, i);
    TallySums(events, key, m, IsKey(r.key), true);
    SumWhereIf(events, key, r.key, p, m);
  }

  // ---------------------------------------------------------------- solver shares

  function BySolverAt(ms: int, start: int, solver: string): Event -> bool
    requires ms > 0
  {
    (e: Event) => e.solver == solver && BucketStart(e.timestamp, ms) == start
  }

  function InBucket(ms: int, start: int): Event -> bool
    requires ms > 0
  {
    (e: Event) => BucketStart(e.timestamp, ms) == start
  }

  function OfSolver(solver: string): Event -> bool { (e: Event) => e.solver == solver }

  function Everyone(): Event -> bool { (e: Event) => true }

  /** Summing over a bucket's own events is summing over those of all events that lie in it. */
  lemma {:induction false} SumIfAt(events: seq<Event>, ms: int, start: int, p: Event -> bool, here: Event -> bool, m: Metric)
    requires ms > 0 && forall e :: here(e) <==> p(e) && BucketStart(e.timestamp, ms) == start
    ensures SumIf(At(events, ms, start), p, m) == SumIf(events, here, m)
  {
    hide SumIf, BucketStart, At;
    if events == [] {
      EmptySums(ms, start, p, here, m);
    } else {
      var init, e := events[..|events| - 1], events[|events| - 1];
      assert events == init + [e];
      SumIfAt(init, ms, start, p, here, m);
      SumIfPush(At(init, ms, start), e, p, m);
      SumIfPush(init, e, here, m);
      AtPush(init, e, ms, start);
      assert At(init, ms, start) + [] == At(init, ms, start);
    }
  }

  lemma EmptySums(ms: int, start: int, p: Event -> bool, here: Event -> bool, m: Metric)
    requires ms > 0
    ensures SumIf(At([], ms, start), p, m) == 0 && SumIf([], here, m) == 0
  {
  }

  lemma {:induction false} SumIsSumIf(events: seq<Event>)
    ensures Sum(events, Volume) == SumIf(events, Everyone(), Volume)
  {
    if events != [] { SumIsSumIf(events[..|events| - 1]); }
  }

  /** A volume's share of a total, in millionths, rounded down; of nothing there is none. */
  ghost predicate IsShare(ppm: int, volume: int, total: int) {
    if total == 0 then ppm == 0 else total > 0 && volume >= 0 ==> ppm * total <= volume * PPM < (ppm + 1) * total
  }

  lemma ShareIs(volume: int, total: int)
    ensures IsShare(Share(volume, total), volume, total)
  {
    if total > 0 && volume >= 0 { ShareBounds(volume, total); }
  }

  lemma {:induction false} SharePointFrom(start: int, rows: seq<Row<string>>, total: int, p: SharePoint)
    ensures p in SharePoints(start, rows, total) <==> exists r :: r in rows && p == SharePoint(start, r.key, r.total, Share(r.total, total))
  {
    if rows != [] {
      hide Share;
      var init, last := rows[..|rows| - 1], rows[|rows| - 1];
      SharePointFrom(start, init, total, p);
      assert rows == init + [last];
      if r :| r in rows && p == SharePoint(start, r.key, r.total, Share(r.total, total)) {
        if r != last { assert r in init; }
      }
    }
  }

  /** The rows of one bucket. */
  ghost function SharesAt(b: Bucket): seq<SharePoint> {
    SharePoints(b.start, Tally(b.events, SolverOf(), Volume), Sum(b.events, Volume))
  }

  lemma {:induction false} ShareRowFrom(buckets: seq<Bucket>, p: SharePoint)
    ensures p in ShareRows(buckets) <==> exists i :: 0 <= i < |buckets| && p in SharesAt(buckets[i])
  {
    hide SharesAt;
    if buckets != [] {
      var init, last := buckets[..|buckets| - 1], buckets[|buckets| - 1];
      ShareRowFrom(init, p);
      ShareRowsNext(buckets);
      hide ShareRows;
      if p in ShareRows(init) {
        var i :| 0 <= i < |init| && p in SharesAt(init[i]);
        assert p in SharesAt(buckets[i]);
      } else if p in SharesAt(last) {
        assert p in SharesAt(buckets[|buckets| - 1]);
      }
      if i :| 0 <= i < |buckets| && p in SharesAt(buckets[i]) {
        if i < |init| { assert p in SharesAt(init[i]); }
      }
    }
  }

  lemma ShareRowsNext(buckets: seq<Bucket>)
    requires buckets != []
    ensures ShareRows(buckets) == ShareRows(buckets[..|buckets| - 1]) + SharesAt(buckets[|buckets| - 1])
  {
    hide SharePoints, Tally, Sum;
  }

  lemma SortedHas<T>(s: seq<T>, le: (T, T) -> bool, x: T)
    ensures x in SortBy(s, le) <==> x in s
  {
    SortPermutes(s, le);
    assert x in multiset(SortBy(s, le)) <==> x in multiset(s);
  }

  ghost predicate ShareOf(p: SharePoint, all: seq<Event>, ms: int)
    requires ms > 0
  {
    && (exists e :: e in all && e.solver == p.solver && BucketStart(e.timestamp, ms) == p.start)
    && p.volume == SumIf(all, BySolverAt(ms, p.start, p.solver), Volume)
    && IsShare(p.ppm, p.volume, SumIf(all, InBucket(ms, p.start), Volume))
  }

  lemma BucketShareIs(all: seq<Event>, ms: int, start: int, p: SharePoint)
    requires ms > 0
    requires var b := At(all, ms, start); p in SharePoints(start, Tally(b, SolverOf(), Volume), Sum(b, Volume))
    ensures ShareOf(p, all, ms)
  {
    hide Tally, Sum, SumIf, IsShare, Share, BucketStart, SharePoints, At;
    var b := At(all, ms, start);
    SharePointFrom(start, Tally(b, SolverOf(), Volume), Sum(b, Volume), p);
    var r :| r in Tally(b, SolverOf(), Volume) && p == SharePoint(start, r.key, r.total, Share(r.total, Sum(b, Volume)));
    var k :| 0 <= k < |Tally(b, SolverOf(), Volume)| && Tally(b, SolverOf(), Volume)[k] == r;
    TallyHas(b, SolverOf(), Volume, r.key);
    var j :| 0 <= j < |b| && SolverOf()(b[j]) == r.key;
    AtHas(all, ms, start, b[j]);
    TallyRowIs(b, SolverOf(), Volume, r, OfSolver(r.key));
    SumIfAt(all, ms, start, OfSolver(r.key), BySolverAt(ms, start, r.key), Volume);
    SumIsSumIf(b);
    SumIfAt(all, ms, start, Everyone(), InBucket(ms, start), Volume);
    ShareIs(r.total, Sum(b, Volume));
  }

  /**
   * A returned row is about one solver with events in one bucket: its volume is
   * theirs, and its share is that of the bucket's whole volume.
   */
  lemma ShareRowIs(events: seq<Event>, q: Query, p: SharePoint)
    requires p in SolverShares(events, q)
    ensures ShareOf(p, Matching(events, q), IntervalMs(q.interval))
  {
    hide Matching, BucketAll, Tally, Sum, BucketStart, SortBy, ShareRows, SharePoints, At, ShareOf;
    var all, ms := Matching(events, q), IntervalMs(q.interval);
    var buckets := BucketAll(all, ms);
    SortedHas(ShareRows(buckets), ByShare(), p);
    ShareRowFrom(buckets, p);
    var i :| 0 <= i < |buckets| && p in SharesAt(buckets[i]);
    BucketsCollected(all, ms);
    BucketShareIs(all, ms, buckets[i].start, p);
  }

  /** And every matching event has the row of its solver and bucket. */
  lemma ShareRowExists(events: seq<Event>, q: Query, e: Event)
    requires e in Matching(events, q)
    ensures exists p :: p in SolverShares(events, q) && p.solver == e.solver && p.start == BucketStart(e.timestamp, IntervalMs(q.interval))
  {
    hide Matching, BucketAll, Tally, Sum, Share, BucketStart, SortBy, ShareRows, SharePoints, At;
    var all, ms := Matching(events, q), IntervalMs(q.interval);
    var start, buckets := BucketStart(e.timestamp, ms), BucketAll(all, ms);
    var i := BucketOfEvent(all, ms, e);
    var b := buckets[i];
    var j :| 0 <= j < |b.events| && b.events[j] == e;
    assert SolverOf()(b.events[j]) == e.solver;
    TallyHas(b.events, SolverOf(), Volume, e.solver);
    var rows := Tally(b.events, SolverOf(), Volume);
    var k :| 0 <= k < |rows| && rows[k].key == e.solver;
    var p := SharePoint(start, rows[k].key, rows[k].total, Share(rows[k].total, Sum(b.events, Volume)));
    SharePointFrom(start, rows, Sum(b.events, Volume), p);
    assert p in SharesAt(b);
    ShareRowFrom(buckets, p);
    SortedHas(ShareRows(buckets), ByShare(), p);
  }

  lemma BucketOfEvent(all: seq<Event>, ms: int, e: Event) returns (i: nat)
    requires ms > 0 && e in all
    ensures var buckets := BucketAll(all, ms); i < |buckets| && buckets[i].start == BucketStart(e.timestamp, ms) && e in buckets[i].events
  {
    hide BucketAll, BucketStart, At;
    var start, buckets := BucketStart(e.timestamp, ms), BucketAll(all, ms);
    BucketsCollected(all, ms);
    AtHas(all, ms, start, e);
    i :| 0 <= i < |buckets| && buckets[i].start == start;
  }

  // ---------------------------------------------------------------- grouped queries

  /** The dimensions used are those requested, each once, in the order chain, token, solver. */
  lemma DimensionsUsed(groupBy: seq<Dimension>)
    ensures forall d :: d in Normalize(groupBy) <==> d in groupBy
    ensures Normalize(groupBy) == (if ByChain in groupBy then [ByChain] else []) + (if ByToken in groupBy then [ByToken] else [])
                                  + (if BySolver in groupBy then [BySolver] else [])
  {
    var keep := (d: Dimension) => d in groupBy;
    assert [ByChain, ByToken, BySolver][1..] == [ByToken, BySolver] && [ByToken, BySolver][1..] == [BySolver] && [BySolver][1..] == [];
    assert Filter([BySolver], keep) == if BySolver in groupBy then [BySolver] else [];
    assert Filter([ByToken, BySolver], keep) == (if ByToken in groupBy then [ByToken] else []) + Filter([BySolver], keep);
    forall d ensures d in Normalize(groupBy) <==> d in groupBy {
      assert d in [ByChain, ByToken, BySolver] by { assert d == ByChain || d == ByToken || d == BySolver; }
    }
  }

  /** The event has this value in this dimension. */
  function Has(d: Dimension, value: string): Event -> bool {
    (e: Event) => match d
                  case ByChain => e.chain == value
                  case ByToken => e.srcToken == value
                  case BySolver => e.solver == value
  }

  function HasAt(d: Dimension, value: string, ms: int, start: int): Event -> bool
    requires ms > 0
  {
    (e: Event) => Has(d, value)(e) && BucketStart(e.timestamp, ms) == start
  }

  function ValueIs(i: nat, value: string): seq<string> -> bool { (values: seq<string>) => i < |values| && values[i] == value }

  /**
   * The rows of a bucket with some value in a requested dimension hold exactly
   * the amount of the bucket's events with that value.
   */
  lemma GroupedByDimension(events: seq<Event>, q: Query, groupBy: seq<Dimension>, m: Metric, collate: (string, string) -> bool,
                           start: int, d: Dimension, value: string) returns (i: nat)
    requires d in groupBy
    ensures i < |Normalize(groupBy)| && Normalize(groupBy)[i] == d
    ensures GroupedWhere(GroupedRows(events, q, Normalize(groupBy), m, collate), start, ValueIs(i, value), true)
            == SumIf(Matching(events, q), HasAt(d, value, IntervalMs(q.interval), start), m)
  {
    DimensionsUsed(groupBy);
    var dims := Normalize(groupBy);
    i :| 0 <= i < |dims| && dims[i] == d;
    GroupedSums(events, q, dims, m, collate, start, ValueIs(i, value), true);
    SumBucketIf(Matching(events, q), IntervalMs(q.interval), start, dims, i, value, m);
  }

  lemma {:induction false} SumBucketIf(events: seq<Event>, ms: int, start: int, dims: seq<Dimension>, i: nat, value: string, m: Metric)
    requires ms > 0 && i < |dims|
    ensures SumBucket(events, ms, start, dims, ValueIs(i, value), true, m) == SumIf(events, HasAt(dims[i], value, ms, start), m)
  {
    if events != [] {
      SumBucketIf(events[..|events| - 1], ms, start, dims, i, value, m);
      assert ValueIs(i, value)(Values(dims)(events[|events| - 1])) <==> Has(dims[i], value)(events[|events| - 1]);
    }
  }
}
