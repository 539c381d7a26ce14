/** The token-pair query: totals per joined token symbols, labelled by the first event of each key. */
module TokenPairs {
  import opened Sorting
  import opened Analytics

  function Key(src: string, dst: string): string { src + ":" + dst }

  ghost predicate SharesKey(src: string, dst: string, src': string, dst': string) {
    (src', dst') != (src, dst) && Key(src', dst') == Key(src, dst)
  }

  /** Some other pair has the same key if and only if one of the symbols contains a colon. */
  lemma KeySharedIff(src: string, dst: string)
    ensures (exists s, d :: SharesKey(src, dst, s, d)) <==> ':' in src || ':' in dst
  {
    if i :| 0 <= i < |src| && src[i] == ':' {
      var s, d := src[..i], src[i + 1..] + ":" + dst;
      assert src == src[..i] + ":" + src[i + 1..];
      assert Key(s, d) == Key(src, dst);
      assert SharesKey(src, dst, s, d);
    }
    if i :| 0 <= i < |dst| && dst[i] == ':' {
      var s, d := src + ":" + dst[..i], dst[i + 1..];
      assert dst == dst[..i] + ":" + dst[i + 1..];
      assert Key(s, d) == Key(src, dst);
      assert SharesKey(src, dst, s, d);
    }
    if ':' !in src && ':' !in dst {
      forall s, d ensures !SharesKey(src, dst, s, d) { OneColon(src, dst, s, d); }
    }
  }

  /** Two pairs that end up in one row, under the first one's name. */
  lemma ColonMergesPairs(a: Event, b: Event)
    requires a.srcToken == "A:B" && a.dstToken == "C" && b.srcToken == "A" && b.dstToken == "B:C"
    ensures Pairs([a, b]) == [PairRow("A:B", "C", a.volume + b.volume, a.fees + b.fees)]
  {
    assert KeyOf(a) == "A:B:C" == KeyOf(b);
    assert [a, b][..1] == [a] && [a][..0] == [];
    assert Pairs([a]) == [PairRow("A:B", "C", a.volume, a.fees)];
  }

  lemma OneColon(src: string, dst: string, s: string, d: string)
    requires ':' !in src && ':' !in dst
    ensures Key(s, d) == Key(src, dst) ==> s == src && d == dst
  {
    var k := Key(src, dst);
    forall i | 0 <= i < |k| && i != |src| ensures k[i] != ':' {
      if i < |src| {
        assert k[i] == src[i] && src[i] in src;
      } else {
        assert k[i] == dst[i - |src| - 1] && dst[i - |src| - 1] in dst;
      }
    }
    if Key(s, d) == k {
      assert Key(s, d)[|s|] == ':';
      assert s == k[..|s|] && d == k[|s| + 1..] && src == k[..|src|] && dst == k[|src| + 1..];
    }
  }

  // ---------------------------------------------------------------- one bucket

  datatype PairRow = PairRow(src: string, dst: string, volume: int, fees: int)

  function KeyOf(e: Event): string { Key(e.srcToken, e.dstToken) }

  function RowKey(r: PairRow): string { Key(r.src, r.dst) }

  function AddPair(rows: seq<PairRow>, e: Event): seq<PairRow> {
    if rows == [] then [PairRow(e.srcToken, e.dstToken, e.volume, e.fees)]
    else if RowKey(rows[0]) == KeyOf(e) then [rows[0].(volume := rows[0].volume + e.volume, fees := rows[0].fees + e.fees)] + rows[1..]
    else [rows[0]] + AddPair(rows[1..], e)
  }

  function Pairs(events: seq<Event>): seq<PairRow> {
    if events == [] then [] else AddPair(Pairs(events[..|events| - 1]), events[|events| - 1])
  }

  function RowAmount(m: Metric, r: PairRow): int { if m == Volume then r.volume else r.fees }

  /** What the rows report for a pair, and what its events amount to. */
  function Reported(rows: seq<PairRow>, src: string, dst: string, m: Metric): int {
    if rows == [] then 0
    else (if rows[0].src == src && rows[0].dst == dst then RowAmount(m, rows[0]) else 0) + Reported(rows[1..], src, dst, m)
  }

  function Actual(events: seq<Event>, src: string, dst: string, m: Metric): int {
    if events == [] then 0
    else
      var e := events[|events| - 1];
      Actual(events[..|events| - 1], src, dst, m) + if e.srcToken == src && e.dstToken == dst then Amount(m, e) else 0
  }

  /** No two events with different pairs share a key. */
  ghost predicate Apart(events: seq<Event>) {
    forall i, j :: 0 <= i < |events| && 0 <= j < |events| && KeyOf(events[i]) == KeyOf(events[j]) ==> SamePair(events[i], events[j])
  }

  predicate SamePair(a: Event, b: Event) { a.srcToken == b.srcToken && a.dstToken == b.dstToken }

  /** Every row is labelled by some event. */
  ghost predicate FromEvents(rows: seq<PairRow>, events: seq<Event>) {
    forall i :: 0 <= i < |rows| ==> exists k :: 0 <= k < |events| && rows[i].src == events[k].srcToken && rows[i].dst == events[k].dstToken
  }

  ghost predicate DistinctRows(rows: seq<PairRow>) {
    forall i, j :: 0 <= i < j < |rows| ==> RowKey(rows[i]) != RowKey(rows[j])
  }

  lemma {:induction false} AddPairLabels(rows: seq<PairRow>, e: Event)
    ensures var r := AddPair(rows, e);
            && |rows| <= |r| <= |rows| + 1
            && (forall i :: 0 <= i < |rows| ==> r[i].src == rows[i].src && r[i].dst == rows[i].dst)
            && (forall i :: |rows| <= i < |r| ==> r[i].src == e.srcToken && r[i].dst == e.dstToken)
            && (|r| > |rows| ==> forall i :: 0 <= i < |rows| ==> RowKey(rows[i]) != KeyOf(e))
  {
    hide Key;
    if rows != [] && RowKey(rows[0]) != KeyOf(e) {
      var rest, r := rows[1..], AddPair(rows, e);
      AddPairLabels(rest, e);
      assert forall i :: 0 < i < |r| ==> r[i] == AddPair(rest, e)[i - 1];
      assert forall i :: 0 < i < |rows| ==> rows[i] == rest[i - 1];
    }
  }

  lemma AddPairDistinct(rows: seq<PairRow>, e: Event)
    requires DistinctRows(rows)
    ensures DistinctRows(AddPair(rows, e))
  {
    AddPairLabels(rows, e);
    hide Key, AddPair;
    var r := AddPair(rows, e);
    forall i, j | 0 <= i < j < |r| ensures RowKey(r[i]) != RowKey(r[j]) {
      assert RowKey(r[i]) == RowKey(rows[i]);
      if j < |rows| { assert RowKey(r[j]) == RowKey(rows[j]); } else { assert RowKey(r[j]) == KeyOf(e); }
    }
  }

  lemma {:induction false} PairsLabels(events: seq<Event>)
    ensures DistinctRows(Pairs(events)) && FromEvents(Pairs(events), events)
  {
    if events != [] {
      var init, e := events[..|events| - 1], events[|events| - 1];
      PairsLabels(init);
      AddPairLabels(Pairs(init), e);
      AddPairDistinct(Pairs(init), e);
      var rows, before := Pairs(events), Pairs(init);
      forall i | 0 <= i < |rows| ensures exists k :: 0 <= k < |events| && rows[i].src == events[k].srcToken && rows[i].dst == events[k].dstToken {
        if i < |before| {
          var k :| 0 <= k < |init| && before[i].src == init[k].srcToken && before[i].dst == init[k].dstToken;
          assert events[k] == init[k];
        } else {
          assert events[|events| - 1] == e;
        }
      }
    }
  }

  /** While the row an event is added to carries the event's own labels, the report grows by that event. */
  lemma {:induction false} AddPairReports(rows: seq<PairRow>, e: Event, src: string, dst: string, m: Metric)
    requires forall i :: 0 <= i < |rows| && RowKey(rows[i]) == KeyOf(e) ==> rows[i].src == e.srcToken && rows[i].dst == e.dstToken
    ensures Reported(AddPair(rows, e), src, dst, m)
            == Reported(rows, src, dst, m) + if e.srcToken == src && e.dstToken == dst then Amount(m, e) else 0
  {
    hide Key;
    if rows != [] {
      var rest := rows[1..];
      assert forall i :: 0 <= i < |rest| ==> rest[i] == rows[i + 1];
      if RowKey(rows[0]) == KeyOf(e) {
        assert AddPair(rows, e)[1..] == rest;
      } else {
        AddPairReports(rest, e, src, dst, m);
        assert AddPair(rows, e)[1..] == AddPair(rest, e);
      }
    } else {
      assert AddPair(rows, e)[1..] == [];
    }
  }

  lemma {:induction false} ApartReports(events: seq<Event>, src: string, dst: string, m: Metric)
    requires Apart(events)
    ensures Reported(Pairs(events), src, dst, m) == Actual(events, src, dst, m)
  {
    if events != [] {
      var init, e := events[..|events| - 1], events[|events| - 1];
      assert forall i :: 0 <= i < |init| ==> init[i] == events[i];
      ApartReports(init, src, dst, m);
      PairsLabels(init);
      LabelsOwn(events);
      AddPairReports(Pairs(init), e, src, dst, m);
    }
  }

  lemma LabelsOwn(events: seq<Event>)
    requires events != [] && Apart(events)
    ensures var init, e := events[..|events| - 1], events[|events| - 1];
            var rows := Pairs(init);
            forall i :: 0 <= i < |rows| && RowKey(rows[i]) == KeyOf(e) ==> rows[i].src == e.srcToken && rows[i].dst == e.dstToken
  {
    var init, e := events[..|events| - 1], events[|events| - 1];
    var rows := Pairs(init);
    PairsLabels(init);
    hide Key, Pairs;
    forall i | 0 <= i < |rows| && RowKey(rows[i]) == KeyOf(e) ensures rows[i].src == e.srcToken && rows[i].dst == e.dstToken {
      var k :| 0 <= k < |init| && rows[i].src == init[k].srcToken && rows[i].dst == init[k].dstToken;
      assert events[k] == init[k] && events[|events| - 1] == e;
      assert KeyOf(events[k]) == KeyOf(events[|events| - 1]);
    }
  }

  lemma {:induction false} AbsentReports(rows: seq<PairRow>, src: string, dst: string, m: Metric)
    requires forall i :: 0 <= i < |rows| ==> !(rows[i].src == src && rows[i].dst == dst)
    ensures Reported(rows, src, dst, m) == 0
  {
    if rows != [] { AbsentReports(rows[1..], src, dst, m); }
  }

  lemma {:induction false} ActualPositive(events: seq<Event>, i: nat)
    requires i < |events| && Each(events, Positive())
    ensures Actual(events, events[i].srcToken, events[i].dstToken, Volume) > 0
  {
    var src, dst, init := events[i].srcToken, events[i].dstToken, events[..|events| - 1];
    ActualNonNegative(init, src, dst);
    if i < |init| { ActualPositive(init, i); }
  }

  lemma {:induction false} ActualNonNegative(events: seq<Event>, src: string, dst: string)
    requires Each(events, Positive())
    ensures Actual(events, src, dst, Volume) >= 0
  {
    if events != [] { ActualNonNegative(events[..|events| - 1], src, dst); }
  }

  function Positive(): Event -> bool { (e: Event) => e.volume > 0 }

  /** Two events of different pairs under one key: at most one of the pairs has a row, and the other's volume is not reported. */
  lemma CollisionMisreports(events: seq<Event>, i: nat, j: nat)
    requires i < |events| && j < |events| && Each(events, Positive())
    requires KeyOf(events[i]) == KeyOf(events[j]) && !SamePair(events[i], events[j])
    ensures exists e :: e in events && Reported(Pairs(events), e.srcToken, e.dstToken, Volume) != Actual(events, e.srcToken, e.dstToken, Volume)
  {
    var a, b, rows := events[i], events[j], Pairs(events);
    assert a in events && b in events;
    PairsLabels(events);
    ActualPositive(events, i);
    ActualPositive(events, j);
    hide Key, Pairs;
    if k :| 0 <= k < |rows| && rows[k].src == a.srcToken && rows[k].dst == a.dstToken {
      forall n | 0 <= n < |rows| ensures !(rows[n].src == b.srcToken && rows[n].dst == b.dstToken) {
        assert n == k || RowKey(rows[n]) != RowKey(rows[k]);
      }
      AbsentReports(rows, b.srcToken, b.dstToken, Volume);
    } else {
      AbsentReports(rows, a.srcToken, a.dstToken, Volume);
    }
  }

  /** With positive volumes, the rows of a bucket report every pair exactly if and only if no two of its pairs share a key. */
  lemma PairsExactIff(events: seq<Event>)
    requires Each(events, Positive())
    ensures (forall src, dst :: Reported(Pairs(events), src, dst, Volume) == Actual(events, src, dst, Volume)) <==> Apart(events)
  {
    if Apart(events) {
      forall src, dst ensures Reported(Pairs(events), src, dst, Volume) == Actual(events, src, dst, Volume) {
        ApartReports(events, src, dst, Volume);
      }
    } else {
      var i, j :| 0 <= i < |events| && 0 <= j < |events| && KeyOf(events[i]) == KeyOf(events[j]) && !SamePair(events[i], events[j]);
      CollisionMisreports(events, i, j);
    }
  }

  // ---------------------------------------------------------------- the query

  datatype TokenPoint = TokenPoint(start: int, src: string, dst: string, volume: int, fees: int)

  function PointsOf(start: int, rows: seq<PairRow>): seq<TokenPoint> {
    if rows == [] then [] else [TokenPoint(start, rows[0].src, rows[0].dst, rows[0].volume, rows[0].fees)] + PointsOf(start, rows[1..])
  }

  function BucketPoints(buckets: seq<Bucket>): seq<TokenPoint> {
    if buckets == [] then []
    else BucketPoints(buckets[..|buckets| - 1]) + PointsOf(buckets[|buckets| - 1].start, Pairs(buckets[|buckets| - 1].events))
  }

  /** By bucket, then the larger volume first, then by key as the locale compares strings. */
  function ByVolume(collate: (string, string) -> bool): (TokenPoint, TokenPoint) -> bool {
    (a: TokenPoint, b: TokenPoint) =>
      || a.start < b.start
      || (a.start == b.start && (a.volume > b.volume || (a.volume == b.volume && collate(Key(a.src, a.dst), Key(b.src, b.dst)))))
  }

  /** The rows of `queryTokenPair`. */
  function TokenRows(events: seq<Event>, q: Query, collate: (string, string) -> bool): seq<TokenPoint> {
    SortBy(BucketPoints(BucketAll(Matching(events, q), IntervalMs(q.interval))), ByVolume(collate))
  }

  function AmountOf(start: int, src: string, dst: string, m: Metric): TokenPoint -> int {
    (p: TokenPoint) => if (p.start, p.src, p.dst) == (start, src, dst) then (if m == Volume then p.volume else p.fees) else 0
  }

  /** Plain sum over one bucket and one pair of tokens. */
  ghost function SumPair(events: seq<Event>, ms: int, start: int, src: string, dst: string, m: Metric): int
    requires ms > 0
  {
    if events == [] then 0
    else
      var e := events[|events| - 1];
      SumPair(events[..|events| - 1], ms, start, src, dst, m)
      + if BucketStart(e.timestamp, ms) == start && e.srcToken == src && e.dstToken == dst then Amount(m, e) else 0
  }

  lemma ActualPush(events: seq<Event>, e: Event, src: string, dst: string, m: Metric)
    ensures Actual(events + [e], src, dst, m) == Actual(events, src, dst, m) + if e.srcToken == src && e.dstToken == dst then Amount(m, e) else 0
  {
    assert (events + [e])[..|events|] == events;
  }

  lemma {:induction false} ActualAt(events: seq<Event>, ms: int, start: int, src: string, dst: string, m: Metric)
    requires ms > 0
    ensures Actual(At(events, ms, start), src, dst, m) == SumPair(events, ms, start, src, dst, m)
  {
    if events == [] {
      assert Actual([], src, dst, m) == 0;
    } else {
      hide Actual;
      var init, e := events[..|events| - 1], events[|events| - 1];
      ActualAt(init, ms, start, src, dst, m);
      ActualPush(At(init, ms, start), e, src, dst, m);
      assert At(init, ms, start) + [] == At(init, ms, start);
    }
  }

  lemma {:induction false} PointsWeigh(at: int, rows: seq<PairRow>, start: int, src: string, dst: string, m: Metric)
    ensures Weigh(PointsOf(at, rows), AmountOf(start, src, dst, m)) == if at == start then Reported(rows, src, dst, m) else 0
  {
    if rows != [] { PointsWeigh(at, rows[1..], start, src, dst, m); }
  }

  lemma {:induction false} NoPointsAt(buckets: seq<Bucket>, start: int, src: string, dst: string, m: Metric)
    requires forall i :: 0 <= i < |buckets| ==> buckets[i].start != start
    ensures Weigh(BucketPoints(buckets), AmountOf(start, src, dst, m)) == 0
  {
    if buckets != [] {
      hide Pairs;
      var init, b := buckets[..|buckets| - 1], buckets[|buckets| - 1];
      NoPointsAt(init, start, src, dst, m);
      PointsWeigh(b.start, Pairs(b.events), start, src, dst, m);
      WeighConcat(BucketPoints(init), PointsOf(b.start, Pairs(b.events)), AmountOf(start, src, dst, m));
    }
  }

  /** Only the bucket of a start contributes rows with that start. */
  lemma {:induction false} BucketPointsWeigh(buckets: seq<Bucket>, i: nat, src: string, dst: string, m: Metric)
    requires i < |buckets| && DistinctStarts(buckets)
    ensures Weigh(BucketPoints(buckets), AmountOf(buckets[i].start, src, dst, m)) == Reported(Pairs(buckets[i].events), src, dst, m)
  {
    hide Pairs, Reported, PointsOf;
    var init, b, start := buckets[..|buckets| - 1], buckets[|buckets| - 1], buckets[i].start;
    PointsWeigh(b.start, Pairs(b.events), start, src, dst, m);
    WeighConcat(BucketPoints(init), PointsOf(b.start, Pairs(b.events)), AmountOf(start, src, dst, m));
    if i < |init| {
      BucketPointsWeigh(init, i, src, dst, m);
    } else {
      NoPointsAt(init, start, src, dst, m);
    }
  }

  /** The returned rows report of a bucket what its own accumulation does. */
  lemma QueryReports(events: seq<Event>, q: Query, collate: (string, string) -> bool, start: int, src: string, dst: string, m: Metric)
    ensures Weigh(TokenRows(events, q, collate), AmountOf(start, src, dst, m))
            == Reported(Pairs(At(Matching(events, q), IntervalMs(q.interval), start)), src, dst, m)
  {
    hide Reported, Matching, BucketAll, BucketPoints;
    var ms, all := IntervalMs(q.interval), Matching(events, q);
    var buckets := BucketAll(all, ms);
    BucketsCollected(all, ms);
    SortWeighs(BucketPoints(buckets), ByVolume(collate), AmountOf(start, src, dst, m));
    if i :| 0 <= i < |buckets| && buckets[i].start == start {
      BucketPointsWeigh(buckets, i, src, dst, m);
    } else {
      NoPointsAt(buckets, start, src, dst, m);
      AbsentReports([], src, dst, m);
      assert Pairs(At(all, ms, start)) == [];
    }
  }

  /** No two events of one bucket with different pairs share a key. */
  ghost predicate ApartByBucket(events: seq<Event>, ms: int)
    requires ms > 0
  {
    forall x, y :: x in events && y in events && BucketStart(x.timestamp, ms) == BucketStart(y.timestamp, ms) && KeyOf(x) == KeyOf(y) ==> SamePair(x, y)
  }

  /** Which is so at least while no symbol holds a colon. */
  lemma ColonFreeApart(events: seq<Event>, ms: int)
    requires ms > 0 && forall e :: e in events ==> ':' !in e.srcToken && ':' !in e.dstToken
    ensures ApartByBucket(events, ms)
  {
    hide BucketStart;
    forall x, y | x in events && y in events && KeyOf(x) == KeyOf(y) ensures SamePair(x, y) {
      OneColon(x.srcToken, x.dstToken, y.srcToken, y.dstToken);
    }
  }

  lemma ApartAt(events: seq<Event>, ms: int, start: int)
    requires ms > 0 && ApartByBucket(events, ms)
    ensures Apart(At(events, ms, start))
  {
    hide At, KeyOf, BucketStart, SamePair;
    var all := At(events, ms, start);
    forall i, j | 0 <= i < |all| && 0 <= j < |all| && KeyOf(all[i]) == KeyOf(all[j]) ensures SamePair(all[i], all[j]) {
      AtHas(events, ms, start, all[i]);
      AtHas(events, ms, start, all[j]);
    }
  }

  lemma NotApartAt(events: seq<Event>, ms: int) returns (start: int)
    requires ms > 0 && !ApartByBucket(events, ms)
    ensures !Apart(At(events, ms, start))
  {
    hide At, KeyOf, BucketStart, SamePair;
    var x, y :| x in events && y in events && BucketStart(x.timestamp, ms) == BucketStart(y.timestamp, ms) && KeyOf(x) == KeyOf(y) && !SamePair(x, y);
    start := BucketStart(x.timestamp, ms);
    AtHas(events, ms, start, x);
    AtHas(events, ms, start, y);
    var i :| 0 <= i < |At(events, ms, start)| && At(events, ms, start)[i] == x;
    var j :| 0 <= j < |At(events, ms, start)| && At(events, ms, start)[j] == y;
  }

  /** While no bucket has pairs that share a key, the rows of each bucket and pair hold exactly the volume and fees of its events. */
  lemma TokenPairSums(events: seq<Event>, q: Query, collate: (string, string) -> bool, start: int, src: string, dst: string, m: Metric)
    requires ApartByBucket(Matching(events, q), IntervalMs(q.interval))
    ensures Weigh(TokenRows(events, q, collate), AmountOf(start, src, dst, m))
            == SumPair(Matching(events, q), IntervalMs(q.interval), start, src, dst, m)
  {
    hide Matching, TokenRows, Pairs, Reported, Actual, SumPair, At, Apart, ApartByBucket;
    var ms, all := IntervalMs(q.interval), Matching(events, q);
    ApartAt(all, ms, start);
    QueryReports(events, q, collate, start, src, dst, m);
    ApartReports(At(all, ms, start), src, dst, m);
    ActualAt(all, ms, start, src, dst, m);
  }

  /** With positive volumes, the query reports every pair exactly if and only if no bucket has pairs that share a key. */
  lemma TokenPairsExactIff(events: seq<Event>, q: Query, collate: (string, string) -> bool)
    requires Each(Matching(events, q), Positive())
    ensures (forall start, src, dst ::
               Weigh(TokenRows(events, q, collate), AmountOf(start, src, dst, Volume))
               == SumPair(Matching(events, q), IntervalMs(q.interval), start, src, dst, Volume))
            <==> ApartByBucket(Matching(events, q), IntervalMs(q.interval))
  {
    hide Matching, TokenRows, Pairs, Reported, Actual, SumPair, At, Apart, ApartByBucket, AmountOf;
    var ms, all := IntervalMs(q.interval), Matching(events, q);
    if ApartByBucket(all, ms) {
      forall start, src, dst
        ensures Weigh(TokenRows(events, q, collate), AmountOf(start, src, dst, Volume)) == SumPair(all, ms, start, src, dst, Volume)
      {
        TokenPairSums(events, q, collate, start, src, dst, Volume);
      }
    } else {
      var start := NotApartAt(all, ms);
      forall i | 0 <= i < |At(all, ms, start)| ensures Positive()(At(all, ms, start)[i]) { AtHas(all, ms, start, At(all, ms, start)[i]); }
      PairsExactIff(At(all, ms, start));
      var src, dst :| Reported(Pairs(At(all, ms, start)), src, dst, Volume) != Actual(At(all, ms, start), src, dst, Volume);
      QueryReports(events, q, collate, start, src, dst, Volume);
      ActualAt(all, ms, start, src, dst, Volume);
    }
  }

  lemma VolumePreorder(collate: (string, string) -> bool)
    requires Preorder(collate)
    ensures Preorder(ByVolume(collate))
  {
    hide Key;
    var le := ByVolume(collate);
    forall a, b ensures le(a, b) || le(b, a) {
      assert collate(Key(a.src, a.dst), Key(b.src, b.dst)) || collate(Key(b.src, b.dst), Key(a.src, a.dst));
    }
    forall a, b, c | le(a, b) && le(b, c) ensures le(a, c) {
      var x, y, z := Key(a.src, a.dst), Key(b.src, b.dst), Key(c.src, c.dst);
      assert collate(x, y) && collate(y, z) ==> collate(x, z);
    }
  }

  /** The rows come bucket by bucket, in each bucket the larger volume first, and equal ones in the order of their pairs. */
  lemma TokenRowsOrdered(events: seq<Event>, q: Query, collate: (string, string) -> bool)
    requires Preorder(collate)
    ensures var rows := TokenRows(events, q, collate);
            forall i, j :: 0 <= i < j < |rows| ==> InOrder(rows[i], rows[j], collate)
  {
    VolumePreorder(collate);
    SortOrders(BucketPoints(BucketAll(Matching(events, q), IntervalMs(q.interval))), ByVolume(collate));
    var rows := TokenRows(events, q, collate);
    forall i, j | 0 <= i < j < |rows| ensures InOrder(rows[i], rows[j], collate) {
      InOrderIff(rows[i], rows[j], collate);
    }
  }

  lemma InOrderIff(a: TokenPoint, b: TokenPoint, collate: (string, string) -> bool)
    ensures ByVolume(collate)(a, b) <==> InOrder(a, b, collate)
  {
    assert Key(a.src, a.dst) == a.src + ":" + a.dst && Key(b.src, b.dst) == b.src + ":" + b.dst;
  }

  ghost predicate InOrder(a: TokenPoint, b: TokenPoint, collate: (string, string) -> bool) {
    && a.start <= b.start
    && (a.start == b.start ==> a.volume >= b.volume)
    && (a.start == b.start && a.volume == b.volume ==> collate(a.src + ":" + a.dst, b.src + ":" + b.dst))
  }

  /** The accumulation of one bucket. */
  method PairTotals(events: seq<Event>) returns (rows: seq<PairRow>)
    ensures rows == Pairs(events)
  {
    rows := [];
    var i := 0;
    while i < |events|
      invariant 0 <= i <= |events| && rows == Pairs(events[..i])
    {
      assert events[..i + 1][..i] == events[..i];
      rows := AddPair(rows, events[i]);
      i := i + 1;
    }
    assert events[..i] == events;
  }

  method QueryTokenPair(store: InMemoryAnalyticsStore, q: Query, collate: (string, string) -> bool) returns (points: seq<TokenPoint>)
    ensures points == TokenRows(store.events, q, collate)
  {
    hide BucketAll, Matching, Pairs, PointsOf;
    var buckets := store.BucketEvents(q);
    points := [];
    var i := 0;
    while i < |buckets|
      invariant 0 <= i <= |buckets| && points == BucketPoints(buckets[..i])
    {
      assert buckets[..i + 1][..i] == buckets[..i];
      var rows := PairTotals(buckets[i].events);
      points := points + PointsOf(buckets[i].start, rows);
      i := i + 1;
    }
    assert buckets[..i] == buckets;
    points := SortBy(points, ByVolume(collate));
  }
}
