/** The chain-pair query: its rows are keyed by a joined string that is split again for the labels. */
module ChainPairs {
  import opened Sorting
  import opened Analytics

  const SEPARATOR := "::"

  predicate SeparatorAt(t: string, i: int) {
    0 <= i < |t| - 1 && t[i] == ':' && t[i + 1] == ':'
  }

  predicate Unbroken(t: string) {
    forall i :: 0 <= i < |t| ==> !SeparatorAt(t, i)
  }

  /** `t` up to its first separator. */
  function Head(t: string): string {
    if t == "" || SeparatorAt(t, 0) then "" else [t[0]] + Head(t[1..])
  }

  /** What follows the first separator, empty if there is none. */
  function Rest(t: string): string {
    if t == "" then "" else if SeparatorAt(t, 0) then t[2..] else Rest(t[1..])
  }

  function Key(start: string, src: string, dst: string): string {
    start + SEPARATOR + src + SEPARATOR + dst
  }

  /** The first three pieces of the split. */
  function Labels(key: string): (string, string, string) {
    (Head(key), Head(Rest(key)), Head(Rest(Rest(key))))
  }

  /** A piece before a separator is recovered exactly when no separator starts inside it, its last character included. */
  lemma {:induction false} HeadIff(a: string, b: string)
    ensures Head(a + SEPARATOR + b) == a <==> Unbroken(a + ":")
    ensures Unbroken(a + ":") ==> Rest(a + SEPARATOR + b) == b
  {
    var t := a + SEPARATOR + b;
    if a == "" {
      assert t[0] == ':' && t[1] == ':' && t[2..] == b;
    } else {
      var next := a[1..] + SEPARATOR + b;
      assert t[1..] == next && (a + ":")[1..] == a[1..] + ":" && t[0] == a[0] && t[1] == (a + ":")[1];
      HeadIff(a[1..], b);
      UnbrokenTail(a + ":");
      assert SeparatorAt(t, 0) <==> SeparatorAt(a + ":", 0);
      assert a == [a[0]] + a[1..];
    }
  }

  lemma UnbrokenTail(t: string)
    requires t != ""
    ensures Unbroken(t) <==> !SeparatorAt(t, 0) && Unbroken(t[1..])
  {
    assert forall i :: 0 < i < |t| ==> (SeparatorAt(t, i) <==> SeparatorAt(t[1..], i - 1));
    if Unbroken(t) {
      forall i | 0 <= i < |t[1..]| ensures !SeparatorAt(t[1..], i) { assert !SeparatorAt(t, i + 1); }
    }
  }

  lemma {:induction false} HeadOfLast(t: string)
    ensures Head(t) == t <==> Unbroken(t)
  {
    if t != "" {
      UnbrokenTail(t);
      HeadOfLast(t[1..]);
      assert t == [t[0]] + t[1..];
    }
  }

  lemma PlainUnbroken(start: string)
    requires ':' !in start
    ensures Unbroken(start + ":")
  {
    forall i | 0 <= i < |start + ":"| ensures !SeparatorAt(start + ":", i) {
      if i < |start| { assert start[i] in start; }
    }
  }

  /** The labels of a row are those of its events exactly when no separator starts in the source chain and none lies in the destination chain. */
  lemma LabelsIff(start: string, src: string, dst: string)
    requires ':' !in start
    ensures Labels(Key(start, src, dst)) == (start, src, dst) <==> Unbroken(src + ":") && Unbroken(dst)
  {
    var tail := src + SEPARATOR + dst;
    PlainUnbroken(start);
    assert Key(start, src, dst) == start + SEPARATOR + tail;
    HeadIff(start, tail);
    HeadIff(src, dst);
    HeadOfLast(dst);
  }

  /** A source chain that ends in a colon loses it, and the destination chain gains one. */
  lemma TrailingColonMoves()
    ensures Key("0", "a:", "b") == Key("0", "a", ":b") && Labels(Key("0", "a:", "b")) == ("0", "a", ":b")
  {
    assert !SeparatorAt("a:", 0) && !SeparatorAt("a:", 1) && !SeparatorAt(":b", 0) && !SeparatorAt(":b", 1);
    LabelsIff("0", "a", ":b");
  }

  // ---------------------------------------------------------------- the query

  function KeyOf(show: int -> string, ms: int): Event -> string
    requires ms > 0
  {
    (e: Event) => Key(show(BucketStart(e.timestamp, ms)), e.chain, e.dstChain)
  }

  datatype ChainPoint = ChainPoint(start: int, src: string, dst: string, volume: int)

  /** The labels of a key, with the bucket start read back as a number. */
  function Labelled(read: string -> int): string -> (int, string, string) {
    (key: string) => var l := Labels(key); (read(l.0), l.1, l.2)
  }

  function PointOf(read: string -> int, r: Row<string>): ChainPoint {
    var l := Labelled(read)(r.key);
    ChainPoint(l.0, l.1, l.2, r.total)
  }

  function PointsOf(read: string -> int, rows: seq<Row<string>>): seq<ChainPoint> {
    if rows == [] then [] else PointsOf(read, rows[..|rows| - 1]) + [PointOf(read, rows[|rows| - 1])]
  }

  /** By bucket, then by both chains as the locale compares strings. */
  function ByChains(collate: (string, string) -> bool): (ChainPoint, ChainPoint) -> bool {
    (a: ChainPoint, b: ChainPoint) => a.start < b.start || (a.start == b.start && LexLe(collate, [a.src, a.dst], [b.src, b.dst]))
  }

  /** The rows of `queryChainPair`; `show` prints a bucket start and `read` reads it back. */
  function ChainRows(events: seq<Event>, q: Query, show: int -> string, read: string -> int, collate: (string, string) -> bool): seq<ChainPoint> {
    SortBy(PointsOf(read, Tally(Matching(events, q), KeyOf(show, IntervalMs(q.interval)), Volume)), ByChains(collate))
  }

  /** The volume of a row if it carries these labels. */
  function VolumeOf(start: int, src: string, dst: string): ChainPoint -> int {
    (p: ChainPoint) => if (p.start, p.src, p.dst) == (start, src, dst) then p.volume else 0
  }

  /** Plain sum over one bucket and one pair of chains. */
  ghost function SumPair(events: seq<Event>, ms: int, start: int, src: string, dst: string): int
    requires ms > 0
  {
    if events == [] then 0
    else
      var e := events[|events| - 1];
      SumPair(events[..|events| - 1], ms, start, src, dst)
      + if BucketStart(e.timestamp, ms) == start && e.chain == src && e.dstChain == dst then e.volume else 0
  }

  ghost predicate Shows(show: int -> string, read: string -> int) {
    forall n :: ':' !in show(n) && read(show(n)) == n
  }

  ghost predicate Separable(events: seq<Event>) {
    forall i :: 0 <= i < |events| ==> Unbroken(events[i].chain + ":") && Unbroken(events[i].dstChain)
  }

  lemma {:induction false} LabelledSum(events: seq<Event>, show: int -> string, read: string -> int, ms: int, start: int, src: string, dst: string)
    requires ms > 0 && Shows(show, read) && Separable(events)
    ensures SumWhere(events, KeyOf(show, ms), Labelled(read), (start, src, dst), Volume) == SumPair(events, ms, start, src, dst)
  {
    if events != [] {
      hide Labels, Key, Unbroken;
      var init, e := events[..|events| - 1], events[|events| - 1];
      LabelledSum(init, show, read, ms, start, src, dst);
      LabelsIff(show(BucketStart(e.timestamp, ms)), e.chain, e.dstChain);
    }
  }

  lemma {:induction false} PointsWeigh(read: string -> int, rows: seq<Row<string>>, start: int, src: string, dst: string)
    ensures Weigh(PointsOf(read, rows), VolumeOf(start, src, dst)) == RowsWhere(rows, Labelled(read), (start, src, dst))
  {
    if rows != [] {
      var init, r := rows[..|rows| - 1], rows[|rows| - 1];
      PointsWeigh(read, init, start, src, dst);
      WeighConcat(PointsOf(read, init), [PointOf(read, r)], VolumeOf(start, src, dst));
      RowsWhereConcat(init, [r], Labelled(read), (start, src, dst));
      assert rows == init + [r] && [r][1..] == [] && [PointOf(read, r)][1..] == [];
    }
  }

  /** What the returned rows report under some labels is the volume of the events whose keys are split into them. */
  lemma RowsReported(events: seq<Event>, q: Query, show: int -> string, read: string -> int, collate: (string, string) -> bool,
                     start: int, src: string, dst: string)
    ensures Weigh(ChainRows(events, q, show, read, collate), VolumeOf(start, src, dst))
            == SumWhere(Matching(events, q), KeyOf(show, IntervalMs(q.interval)), Labelled(read), (start, src, dst), Volume)
  {
    var ms, all := IntervalMs(q.interval), Matching(events, q);
    var rows := Tally(all, KeyOf(show, ms), Volume);
    SortWeighs(PointsOf(read, rows), ByChains(collate), VolumeOf(start, src, dst));
    PointsWeigh(read, rows, start, src, dst);
    TallySums(all, KeyOf(show, ms), Volume, Labelled(read), (start, src, dst));
  }

  /** While chain names are separable, the rows returned for a bucket and a pair of chains hold exactly the volume of its events. */
  lemma ChainPairSums(events: seq<Event>, q: Query, show: int -> string, read: string -> int, collate: (string, string) -> bool,
                      start: int, src: string, dst: string)
    requires Shows(show, read) && Separable(Matching(events, q))
    ensures Weigh(ChainRows(events, q, show, read, collate), VolumeOf(start, src, dst))
            == SumPair(Matching(events, q), IntervalMs(q.interval), start, src, dst)
  {
    RowsReported(events, q, show, read, collate, start, src, dst);
    LabelledSum(Matching(events, q), show, read, IntervalMs(q.interval), start, src, dst);
  }

  // ---------------------------------------------------------------- when the labels fail

  lemma {:induction false} HeadUnbroken(t: string)
    ensures Unbroken(Head(t))
  {
    if t != "" && !SeparatorAt(t, 0) {
      HeadUnbroken(t[1..]);
      UnbrokenTail(Head(t));
      assert Head(t)[1..] == Head(t[1..]);
      if Head(t[1..]) != "" { assert Head(t)[1] == t[1]; }
    }
  }

  /** A piece cut at a separator is unbroken, its last character included. */
  lemma {:induction false} CutUnbroken(a: string, b: string)
    ensures Unbroken(Head(a + SEPARATOR + b) + ":")
  {
    var t := a + SEPARATOR + b;
    if a != "" && !SeparatorAt(t, 0) {
      var next := a[1..] + SEPARATOR + b;
      assert t[1..] == next && t[1] == next[0];
      CutUnbroken(a[1..], b);
      var h := Head(next);
      assert (Head(t) + ":")[1..] == h + ":";
      UnbrokenTail(Head(t) + ":");
      assert (h + ":")[0] == next[0];
    } else {
      assert Head(t) == "" && "" + ":" == ":";
    }
  }

  /** So every row carries separable labels, whatever its events are. */
  lemma RowLabels(start: string, src: string, dst: string)
    requires ':' !in start
    ensures var l := Labels(Key(start, src, dst)); Unbroken(l.1 + ":") && Unbroken(l.2)
  {
    var tail := src + SEPARATOR + dst;
    assert Key(start, src, dst) == start + SEPARATOR + tail;
    PlainUnbroken(start);
    HeadIff(start, tail);
    CutUnbroken(src, dst);
    HeadUnbroken(Rest(tail));
  }

  /** No row is reported for labels that are not separable. */
  lemma {:induction false} NothingReported(events: seq<Event>, show: int -> string, read: string -> int, ms: int, start: int, src: string, dst: string)
    requires ms > 0 && Shows(show, read) && !(Unbroken(src + ":") && Unbroken(dst))
    ensures SumWhere(events, KeyOf(show, ms), Labelled(read), (start, src, dst), Volume) == 0
  {
    if events != [] {
      hide Labels, Key, Unbroken;
      var e := events[|events| - 1];
      NothingReported(events[..|events| - 1], show, read, ms, start, src, dst);
      RowLabels(show(BucketStart(e.timestamp, ms)), e.chain, e.dstChain);
    }
  }

  lemma {:induction false} SumPairPositive(events: seq<Event>, ms: int, i: nat)
    requires ms > 0 && i < |events| && forall k :: 0 <= k < |events| ==> events[k].volume > 0
    ensures SumPair(events, ms, BucketStart(events[i].timestamp, ms), events[i].chain, events[i].dstChain) > 0
  {
    var init, e := events[..|events| - 1], events[i];
    SumPairNonNegative(init, ms, BucketStart(e.timestamp, ms), e.chain, e.dstChain);
    if i < |init| { SumPairPositive(init, ms, i); }
  }

  lemma {:induction false} SumPairNonNegative(events: seq<Event>, ms: int, start: int, src: string, dst: string)
    requires ms > 0 && forall k :: 0 <= k < |events| ==> events[k].volume > 0
    ensures SumPair(events, ms, start, src, dst) >= 0
  {
    if events != [] { SumPairNonNegative(events[..|events| - 1], ms, start, src, dst); }
  }

  /** With positive volumes, the query reports every pair of chains exactly if and only if the chain names are separable. */
  lemma ChainPairsExactIff(events: seq<Event>, q: Query, show: int -> string, read: string -> int, collate: (string, string) -> bool)
    requires Shows(show, read) && forall k :: 0 <= k < |Matching(events, q)| ==> Matching(events, q)[k].volume > 0
    ensures (forall start, src, dst ::
               Weigh(ChainRows(events, q, show, read, collate), VolumeOf(start, src, dst))
               == SumPair(Matching(events, q), IntervalMs(q.interval), start, src, dst))
            <==> Separable(Matching(events, q))
  {
    hide Matching, ChainRows, SumPair, VolumeOf, Unbroken, SumWhere, Shows;
    var ms, all := IntervalMs(q.interval), Matching(events, q);
    if Separable(all) {
      forall start, src, dst
        ensures Weigh(ChainRows(events, q, show, read, collate), VolumeOf(start, src, dst)) == SumPair(all, ms, start, src, dst)
      {
        ChainPairSums(events, q, show, read, collate, start, src, dst);
      }
    } else {
      var i :| 0 <= i < |all| && !(Unbroken(all[i].chain + ":") && Unbroken(all[i].dstChain));
      var start, src, dst := BucketStart(all[i].timestamp, ms), all[i].chain, all[i].dstChain;
      RowsReported(events, q, show, read, collate, start, src, dst);
      NothingReported(all, show, read, ms, start, src, dst);
      SumPairPositive(all, ms, i);
    }
  }

  /** The rows come bucket by bucket, and in each bucket by both chains. */
  lemma ChainRowsOrdered(events: seq<Event>, q: Query, show: int -> string, read: string -> int, collate: (string, string) -> bool)
    requires Preorder(collate)
    ensures Ordered(ChainRows(events, q, show, read, collate), ByChains(collate))
    ensures var rows := ChainRows(events, q, show, read, collate);
            forall i, j :: 0 <= i < j < |rows| ==>
              rows[i].start < rows[j].start || (rows[i].start == rows[j].start && collate(rows[i].src, rows[j].src))
  {
    var le := ByChains(collate);
    forall a, b ensures le(a, b) || le(b, a) { LexTotal(collate, [a.src, a.dst], [b.src, b.dst]); }
    forall a, b, c | le(a, b) && le(b, c) ensures le(a, c) {
      if a.start == b.start == c.start { LexTransitive(collate, [a.src, a.dst], [b.src, b.dst], [c.src, c.dst]); }
    }
    SortOrders(PointsOf(read, Tally(Matching(events, q), KeyOf(show, IntervalMs(q.interval)), Volume)), le);
    var rows := ChainRows(events, q, show, read, collate);
    forall i, j | 0 <= i < j < |rows|
      ensures rows[i].start < rows[j].start || (rows[i].start == rows[j].start && collate(rows[i].src, rows[j].src))
    {
      assert le(rows[i], rows[j]);
    }
  }

  method QueryChainPair(events: seq<Event>, q: Query, show: int -> string, read: string -> int, collate: (string, string) -> bool)
    returns (points: seq<ChainPoint>)
    ensures points == ChainRows(events, q, show, read, collate)
  {
    hide Matching, Key, PointOf;
    var ms, all := IntervalMs(q.interval), Matching(events, q);
    var rows: seq<Row<string>> := [];
    var i := 0;
    while i < |all|
      invariant 0 <= i <= |all| && rows == Tally(all[..i], KeyOf(show, ms), Volume)
    {
      assert all[..i + 1][..i] == all[..i];
      rows := AddTotal(rows, Key(show(BucketStart(all[i].timestamp, ms)), all[i].chain, all[i].dstChain), all[i].volume);
      i := i + 1;
    }
    assert all[..i] == all;
    points := [];
    i := 0;
    while i < |rows|
      invariant 0 <= i <= |rows| && points == PointsOf(read, rows[..i])
    {
      assert rows[..i + 1][..i] == rows[..i];
      points := points + [PointOf(read, rows[i])];
      i := i + 1;
    }
    assert rows[..i] == rows;
    points := SortBy(points, ByChains(collate));
  }
}
