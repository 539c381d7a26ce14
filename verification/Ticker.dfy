/** The auction ticker: one price tick per change for each open auction, in a bounded history. */
module Ticker {
  import opened Common
  import opened Dutch

  datatype Tick = Tick(price: int, timestamp: int)

  datatype Intent = Intent(id: string, auction: Option<Auction>, min: int)

  /** `lastPrices` and `priceHistory` of the service. */
  datatype Ticks = Ticks(last: map<string, int>, history: map<string, seq<Tick>>)

  function HistoryOf(s: Ticks, id: string): seq<Tick> {
    if id in s.history then s.history[id] else []
  }

  function LastOf(s: Ticks, id: string): Option<int> {
    if id in s.last then Some(s.last[id]) else None
  }

  function Visit(s: Ticks, cap: Option<nat>, now: int, intent: Intent): Ticks {
    if intent.auction.None? then s
    else
      var price := Price(intent.auction.value, now, intent.min);
      if LastOf(s, intent.id) == Some(price) then s
      else Ticks(s.last[intent.id := price], s.history[intent.id := Trim(HistoryOf(s, intent.id) + [Tick(price, now)], cap)])
  }

  function VisitAll(s: Ticks, cap: Option<nat>, now: int, intents: seq<Intent>): Ticks {
    if intents == [] then s else Visit(VisitAll(s, cap, now, intents[..|intents| - 1]), cap, now, intents[|intents| - 1])
  }

  function Active(intents: seq<Intent>): set<string> {
    set i | 0 <= i < |intents| && intents[i].auction.Some? :: intents[i].id
  }

  function CleanUp(s: Ticks, active: set<string>): Ticks {
    s.(last := map id | id in s.last && id in active :: s.last[id])
  }

  /** One firing of the interval; a failing broadcast ends it after `visited` intents, before the clean-up. */
  datatype Step = Publish(now: int, intents: seq<Intent>) | Failed(now: int, visited: seq<Intent>)

  function Do(s: Ticks, cap: Option<nat>, step: Step): Ticks {
    match step
    case Publish(now, intents) => CleanUp(VisitAll(s, cap, now, intents), Active(intents))
    case Failed(now, visited) => VisitAll(s, cap, now, visited)
  }

  function Run(steps: seq<Step>, cap: Option<nat>): Ticks {
    if steps == [] then Ticks(map[], map[]) else Do(Run(steps[..|steps| - 1], cap), cap, steps[|steps| - 1])
  }

  function Visited(step: Step): seq<Intent> {
    if step.Publish? then step.intents else step.visited
  }

  // ---------------------------------------------------------------- the buffer is a suffix of the log

  ghost predicate Capped(s: Ticks, log: Ticks, cap: nat) {
    s.last == log.last && forall id: string :: HistoryOf(s, id) == LastN(HistoryOf(log, id), cap)
  }

  lemma VisitCapped(s: Ticks, log: Ticks, cap: nat, now: int, intent: Intent)
    requires Capped(s, log, cap)
    ensures Capped(Visit(s, Some(cap), now, intent), Visit(log, None, now, intent), cap)
  {
    if intent.auction.Some? {
      LastNPush(HistoryOf(log, intent.id), Tick(Price(intent.auction.value, now, intent.min), now), cap);
      var t, u := Visit(s, Some(cap), now, intent), Visit(log, None, now, intent);
      forall id: string ensures HistoryOf(t, id) == LastN(HistoryOf(u, id), cap) {
        if id != intent.id {
          assert HistoryOf(t, id) == HistoryOf(s, id) && HistoryOf(u, id) == HistoryOf(log, id);
        }
      }
    }
  }

  lemma {:induction false} VisitAllCapped(s: Ticks, log: Ticks, cap: nat, now: int, intents: seq<Intent>)
    requires Capped(s, log, cap)
    ensures Capped(VisitAll(s, Some(cap), now, intents), VisitAll(log, None, now, intents), cap)
  {
    if intents != [] {
      var init := intents[..|intents| - 1];
      VisitAllCapped(s, log, cap, now, init);
      VisitCapped(VisitAll(s, Some(cap), now, init), VisitAll(log, None, now, init), cap, now, intents[|intents| - 1]);
    }
  }

  lemma CleanUpCapped(s: Ticks, log: Ticks, cap: nat, active: set<string>)
    requires Capped(s, log, cap)
    ensures Capped(CleanUp(s, active), CleanUp(log, active), cap)
  {
    forall id: string ensures HistoryOf(CleanUp(s, active), id) == LastN(HistoryOf(CleanUp(log, active), id), cap) {
      assert HistoryOf(s, id) == LastN(HistoryOf(log, id), cap);
    }
  }

  /** Over any run the stored history is the last `cap` ticks ever published for that intent. */
  lemma {:induction false} HistoryIsSuffix(steps: seq<Step>, cap: nat)
    ensures Capped(Run(steps, Some(cap)), Run(steps, None), cap)
  {
    if steps != [] {
      var init, step := steps[..|steps| - 1], steps[|steps| - 1];
      HistoryIsSuffix(init, cap);
      VisitAllCapped(Run(init, Some(cap)), Run(init, None), cap, step.now, Visited(step));
      if step.Publish? {
        CleanUpCapped(VisitAll(Run(init, Some(cap)), Some(cap), step.now, step.intents),
                      VisitAll(Run(init, None), None, step.now, step.intents), cap, Active(step.intents));
      }
    }
  }

  // ---------------------------------------------------------------- the log of one intent

  /** Every listing of `id` carries the same auction terms. */
  ghost predicate Terms(intents: seq<Intent>, id: string, a: Auction, min: int) {
    forall i :: 0 <= i < |intents| && intents[i].id == id && intents[i].auction.Some? ==>
      intents[i].auction.value == a && intents[i].min == min
  }

  lemma {:induction false} VisitAllAt(s: Ticks, now: int, intents: seq<Intent>, id: string, a: Auction, min: int)
    requires Terms(intents, id, a, min)
    ensures var r := VisitAll(s, None, now, intents);
            var p := Price(a, now, min);
            if id in Active(intents) then
              LastOf(r, id) == Some(p) && HistoryOf(r, id) == (if LastOf(s, id) == Some(p) then HistoryOf(s, id) else HistoryOf(s, id) + [Tick(p, now)])
            else LastOf(r, id) == LastOf(s, id) && HistoryOf(r, id) == HistoryOf(s, id)
  {
    if intents != [] {
      var init, x := intents[..|intents| - 1], intents[|intents| - 1];
      VisitAllAt(s, now, init, id, a, min);
      assert Active(intents) == Active(init) + if x.auction.Some? then {x.id} else {} by { ActiveGrows(intents); }
    }
  }

  lemma ActiveGrows(intents: seq<Intent>)
    requires intents != []
    ensures var init, x := intents[..|intents| - 1], intents[|intents| - 1];
            Active(intents) == Active(init) + if x.auction.Some? then {x.id} else {}
  {
    var init, x := intents[..|intents| - 1], intents[|intents| - 1];
    forall id | id in Active(init) ensures id in Active(intents) {
      var i :| 0 <= i < |init| && init[i].auction.Some? && init[i].id == id;
      assert intents[i] == init[i];
    }
    forall id | id in Active(intents) ensures id in Active(init) || (x.auction.Some? && id == x.id) {
      var i :| 0 <= i < |intents| && intents[i].auction.Some? && intents[i].id == id;
      if i < |init| { assert init[i] == intents[i]; }
    }
  }

  ghost predicate NonIncreasing(h: seq<Tick>) {
    forall i, j :: 0 <= i < j < |h| ==> h[i].price >= h[j].price && h[i].timestamp <= h[j].timestamp
  }

  ghost predicate Decreasing(h: seq<Tick>) {
    forall i, j :: 0 <= i < j < |h| ==> h[i].price > h[j].price
  }

  /** The clock never goes back, and `id` keeps its terms for the whole run. */
  ghost predicate Orderly(steps: seq<Step>, id: string, a: Auction, min: int) {
    && (forall i, j :: 0 <= i < j < |steps| ==> steps[i].now <= steps[j].now)
    && (forall i :: 0 <= i < |steps| ==> Terms(Visited(steps[i]), id, a, min))
  }

  /** The firing got to `id`. */
  ghost predicate Lists(step: Step, id: string) { id in Active(Visited(step)) }

  /** Listed at `i` and next at `j`, with a completed firing in between that left it out. */
  ghost predicate Reopened(steps: seq<Step>, i: int, j: int, id: string) {
    && 0 <= i < j < |steps| && Lists(steps[i], id) && Lists(steps[j], id)
    && (forall m :: i < m < j ==> !Lists(steps[m], id))
    && exists m :: i < m < j && steps[m].Publish?
  }

  /** Whenever `id` is reopened, its price has moved. */
  ghost predicate NeverRepeats(steps: seq<Step>, id: string, a: Auction, min: int) {
    forall i, j :: Reopened(steps, i, j, id) ==> Price(a, steps[i].now, min) != Price(a, steps[j].now, min)
  }

  ghost function LastListing(steps: seq<Step>, id: string): (r: int)
    ensures -1 <= r < |steps| && (r >= 0 ==> Lists(steps[r], id)) && forall m :: r < m < |steps| ==> !Lists(steps[m], id)
  {
    if steps == [] then -1
    else if Lists(steps[|steps| - 1], id) then |steps| - 1 else LastListing(steps[..|steps| - 1], id)
  }

  ghost predicate CompletedAfter(steps: seq<Step>, i: int) {
    exists m :: 0 <= m < |steps| && i < m && steps[m].Publish?
  }

  /** The log ends with the price at the last listing, which is remembered until a firing completes without one. */
  ghost predicate Recorded(steps: seq<Step>, s: Ticks, id: string, a: Auction, min: int) {
    var i, h := LastListing(steps, id), HistoryOf(s, id);
    && (h == [] <==> i == -1)
    && (i >= 0 ==> h[|h| - 1].price == Price(a, steps[i].now, min))
    && (LastOf(s, id).Some? <==> i >= 0 && !CompletedAfter(steps, i))
  }

  lemma ListingGrows(init: seq<Step>, step: Step, id: string)
    ensures var steps, i := init + [step], LastListing(init, id);
            && LastListing(steps, id) == (if Lists(step, id) then |init| else i)
            && (CompletedAfter(steps, i) <==> CompletedAfter(init, i) || step.Publish?)
            && !CompletedAfter(steps, |init|)
  {
    var steps, i := init + [step], LastListing(init, id);
    assert steps[..|init|] == init && steps[|init|] == step;
    if m :| 0 <= m < |init| && i < m && init[m].Publish? { assert steps[m].Publish?; }
    if m :| 0 <= m < |steps| && i < m && steps[m].Publish? { assert m < |init| ==> init[m] == steps[m]; }
  }

  lemma ReopenedGrows(init: seq<Step>, step: Step, i: int, j: int, id: string)
    ensures Reopened(init + [step], i, j, id)
            <==> Reopened(init, i, j, id)
                 || (j == |init| && 0 <= i == LastListing(init, id) && Lists(step, id) && CompletedAfter(init, i))
  {
    hide Lists;
    var steps := init + [step];
    assert forall m :: 0 <= m < |init| ==> steps[m] == init[m];
    if Reopened(steps, i, j, id) && j == |init| { assert !Lists(steps[i], id) || i == LastListing(init, id); }
    if Reopened(init, i, j, id) {
      var m :| i < m < j && init[m].Publish?;
      assert steps[m].Publish?;
    }
    if j == |init| && 0 <= i == LastListing(init, id) && CompletedAfter(init, i) {
      var m :| 0 <= m < |init| && i < m && init[m].Publish?;
      assert steps[m].Publish?;
    }
  }

  lemma NeverRepeatsGrows(init: seq<Step>, step: Step, id: string, a: Auction, min: int)
    ensures var i := LastListing(init, id);
            NeverRepeats(init + [step], id, a, min)
            <==> NeverRepeats(init, id, a, min)
                 && (i >= 0 && Lists(step, id) && CompletedAfter(init, i) ==> Price(a, init[i].now, min) != Price(a, step.now, min))
  {
    hide Price, Lists, CompletedAfter, Reopened;
    var steps, last := init + [step], LastListing(init, id);
    forall i, j
      ensures Reopened(steps, i, j, id)
              <==> Reopened(init, i, j, id) || (j == |init| && 0 <= i == last && Lists(step, id) && CompletedAfter(init, i))
      ensures Reopened(init, i, j, id) ==> 0 <= i < j < |init| && steps[i] == init[i] && steps[j] == init[j]
    {
      ReopenedGrows(init, step, i, j, id);
      ReopenedBounds(init, i, j, id);
    }
    if last >= 0 && Lists(step, id) && CompletedAfter(init, last) {
      assert Reopened(steps, last, |init|, id) && steps[last] == init[last];
    }
  }

  lemma ReopenedBounds(steps: seq<Step>, i: int, j: int, id: string)
    ensures Reopened(steps, i, j, id) ==> 0 <= i < j < |steps|
  {
  }

  ghost predicate Follows(steps: seq<Step>, s: Ticks, id: string, a: Auction, min: int) {
    var h := HistoryOf(s, id);
    && NonIncreasing(h)
    && (h != [] ==> steps != [] && h[|h| - 1].timestamp <= steps[|steps| - 1].now && h[|h| - 1].price == Price(a, h[|h| - 1].timestamp, min))
    && (LastOf(s, id).Some? ==> h != [] && h[|h| - 1].price == LastOf(s, id).value)
  }

  lemma PushTick(h: seq<Tick>, t: Tick, a: Auction, min: int)
    requires a.start >= min && NonIncreasing(h) && t.price == Price(a, t.timestamp, min)
    requires h != [] ==> h[|h| - 1].timestamp <= t.timestamp && h[|h| - 1].price == Price(a, h[|h| - 1].timestamp, min)
    ensures NonIncreasing(h + [t])
    ensures Decreasing(h + [t]) <==> Decreasing(h) && (h != [] ==> h[|h| - 1].price != t.price)
  {
    var g := h + [t];
    if h != [] {
      var last := h[|h| - 1];
      PriceFalls(a, last.timestamp, t.timestamp, min);
      assert forall i :: 0 <= i < |h| ==> g[i] == h[i] && h[i].price >= last.price && h[i].timestamp <= last.timestamp;
      assert g[|h| - 1] == last && g[|h|] == t;
      if Decreasing(g) { assert forall i, j :: 0 <= i < j < |h| ==> g[i].price > g[j].price; }
    }
  }

  /**
   * In an orderly run every price follows the falling line, and the log is
   * strictly falling exactly when the price has moved at every reopening.
   */
  lemma {:induction false} TicksFollowPrice(steps: seq<Step>, id: string, a: Auction, min: int)
    requires a.start >= min && Orderly(steps, id, a, min)
    ensures Follows(steps, Run(steps, None), id, a, min) && Recorded(steps, Run(steps, None), id, a, min)
    ensures Decreasing(HistoryOf(Run(steps, None), id)) <==> NeverRepeats(steps, id, a, min)
  {
    hide Price, Do, Run, Terms, Decreasing, Follows, Recorded, HistoryOf, LastOf, NeverRepeats, Orderly;
    if steps == [] {
      NothingFollows(id, a, min);
    } else {
      var init, step := steps[..|steps| - 1], steps[|steps| - 1];
      OrderlyPrefix(steps, id, a, min);
      TicksFollowPrice(init, id, a, min);
      NextFollows(init, step, id, a, min);
      assert init + [step] == steps;
    }
  }

  lemma NothingFollows(id: string, a: Auction, min: int)
    ensures Follows([], Run([], None), id, a, min) && Recorded([], Run([], None), id, a, min)
    ensures Decreasing(HistoryOf(Run([], None), id)) && NeverRepeats([], id, a, min)
  {
  }

  lemma OrderlyPrefix(steps: seq<Step>, id: string, a: Auction, min: int)
    requires steps != [] && Orderly(steps, id, a, min)
    ensures var init, step := steps[..|steps| - 1], steps[|steps| - 1];
            Orderly(init, id, a, min) && Terms(Visited(step), id, a, min) && (init != [] ==> init[|init| - 1].now <= step.now)
  {
    hide Terms;
    var init := steps[..|steps| - 1];
    assert forall i :: 0 <= i < |init| ==> init[i] == steps[i];
    assert Terms(Visited(steps[|steps| - 1]), id, a, min);
  }

  lemma NextFollows(init: seq<Step>, step: Step, id: string, a: Auction, min: int)
    requires a.start >= min && Terms(Visited(step), id, a, min)
    requires Follows(init, Run(init, None), id, a, min) && Recorded(init, Run(init, None), id, a, min)
    requires init != [] ==> init[|init| - 1].now <= step.now
    requires Decreasing(HistoryOf(Run(init, None), id)) <==> NeverRepeats(init, id, a, min)
    ensures Follows(init + [step], Run(init + [step], None), id, a, min)
    ensures Recorded(init + [step], Run(init + [step], None), id, a, min)
    ensures Decreasing(HistoryOf(Run(init + [step], None), id)) <==> NeverRepeats(init + [step], id, a, min)
  {
    hide Price, Do, Follows, Decreasing, Terms, HistoryOf, LastOf, Active, NeverRepeats, LastListing, CompletedAfter;
    var steps := init + [step];
    assert steps[..|steps| - 1] == init && steps[|steps| - 1] == step;
    StepFollows(init, Run(init, None), step, id, a, min);
    RecordedStep(init, Run(init, None), step, id, a, min);
    NeverRepeatsGrows(init, step, id, a, min);
  }

  lemma DoAt(s: Ticks, step: Step, id: string, a: Auction, min: int)
    requires Terms(Visited(step), id, a, min)
    ensures var r := Do(s, None, step);
            var p := Price(a, step.now, min);
            if Lists(step, id) then
              LastOf(r, id) == Some(p) && HistoryOf(r, id) == (if LastOf(s, id) == Some(p) then HistoryOf(s, id) else HistoryOf(s, id) + [Tick(p, step.now)])
            else LastOf(r, id) == (if step.Publish? then None else LastOf(s, id)) && HistoryOf(r, id) == HistoryOf(s, id)
  {
    VisitAllAt(s, step.now, Visited(step), id, a, min);
  }

  lemma RecordedStep(init: seq<Step>, s: Ticks, step: Step, id: string, a: Auction, min: int)
    requires Terms(Visited(step), id, a, min) && Follows(init, s, id, a, min) && Recorded(init, s, id, a, min)
    ensures Recorded(init + [step], Do(s, None, step), id, a, min)
  {
    hide Price, Do, Terms, Lists, LastListing, CompletedAfter, HistoryOf, LastOf, NonIncreasing;
    DoAt(s, step, id, a, min);
    ListingGrows(init, step, id);
    var steps, i := init + [step], LastListing(init, id);
    assert steps[|init|] == step && (i >= 0 ==> steps[i] == init[i]);
  }

  lemma StepFollows(init: seq<Step>, s: Ticks, step: Step, id: string, a: Auction, min: int)
    requires a.start >= min && Terms(Visited(step), id, a, min) && Follows(init, s, id, a, min)
    requires init != [] ==> init[|init| - 1].now <= step.now
    ensures Follows(init + [step], Do(s, None, step), id, a, min)
    ensures var h := HistoryOf(s, id);
            Decreasing(HistoryOf(Do(s, None, step), id))
            <==> (Decreasing(h)
                  && !(Lists(step, id) && LastOf(s, id).None? && h != [] && h[|h| - 1].price == Price(a, step.now, min)))
  {
    hide Price, Do, Terms, Lists, HistoryOf, LastOf;
    var h, p := HistoryOf(s, id), Price(a, step.now, min);
    DoAt(s, step, id, a, min);
    assert (init + [step])[|init + [step]| - 1] == step;
    if Lists(step, id) && LastOf(s, id) != Some(p) {
      PushTick(h, Tick(p, step.now), a, min);
      var g := HistoryOf(Do(s, None, step), id);
      assert g == h + [Tick(p, step.now)] && g[|g| - 1] == Tick(p, step.now);
    }
  }

  // ---------------------------------------------------------------- continuously open intents

  /** Once listed, `id` is listed by every firing that completes. */
  ghost predicate OpenThroughout(steps: seq<Step>, id: string) {
    forall i, j :: 0 <= i < j < |steps| && Lists(steps[i], id) && steps[j].Publish? ==> Lists(steps[j], id)
  }

  /** An intent that stays open: its stored history strictly falls, fits the cap and is the end of its log. */
  lemma OpenHistoryFalls(steps: seq<Step>, cap: nat, id: string, a: Auction, min: int)
    requires a.start >= min && Orderly(steps, id, a, min) && OpenThroughout(steps, id)
    ensures var h := HistoryOf(Run(steps, Some(cap)), id);
            Decreasing(h) && |h| <= cap && h == LastN(HistoryOf(Run(steps, None), id), cap)
  {
    HistoryIsSuffix(steps, cap);
    TicksFollowPrice(steps, id, a, min);
    assert forall i, j :: !Reopened(steps, i, j, id);
    SuffixDecreasing(HistoryOf(Run(steps, None), id), cap);
  }

  lemma SuffixDecreasing(h: seq<Tick>, cap: nat)
    requires Decreasing(h)
    ensures Decreasing(LastN(h, cap))
  {
    var r := LastN(h, cap);
    forall i, j | 0 <= i < j < |r| ensures r[i].price > r[j].price {
      assert r[i] == h[|h| - |r| + i] && r[j] == h[|h| - |r| + j];
    }
  }

  /** An intent that leaves the open list and returns before its price moved is recorded twice at that price. */
  lemma ReopenedRepeats()
    ensures var intent := Intent("i", Some(Auction(100, 10, 20)), 50);
            HistoryOf(Run([Publish(1, [intent]), Publish(2, []), Publish(3, [intent])], Some(200)), "i") == [Tick(100, 1), Tick(100, 3)]
  {
    var intent, cap := Intent("i", Some(Auction(100, 10, 20)), 50), Some(200);
    var s0 := Ticks(map[], map[]);
    var p, q, r := Publish(1, [intent]), Publish(2, []), Publish(3, [intent]);
    var s1, s2 := Do(s0, cap, p), Do(Do(s0, cap, p), cap, q);
    VisitOne(s0, cap, 1, intent);
    VisitOne(s2, cap, 3, intent);
    assert [p][..0] == [] && Run([p], cap) == s1;
    assert [p, q][..1] == [p] && Run([p, q], cap) == s2;
    assert [p, q, r][..2] == [p, q];
  }

  lemma VisitOne(s: Ticks, cap: Option<nat>, now: int, intent: Intent)
    ensures VisitAll(s, cap, now, [intent]) == Visit(s, cap, now, intent)
  {
    assert [intent][..0] == [];
  }

  // ---------------------------------------------------------------- the service

  class AuctionTickerService {
    var lastPrices: map<string, int>
    var priceHistory: map<string, seq<Tick>>
    var publishing: bool
    const historyCap: nat

    function View(): Ticks
      reads this
    {
      Ticks(lastPrices, priceHistory)
    }

    constructor (cap: nat)
      ensures View() == Run([], Some(cap)) && !publishing && historyCap == cap
    {
      lastPrices, priceHistory, publishing, historyCap := map[], map[], false, cap;
    }

    /** Pushes a tick, then drops the oldest ones beyond the cap. */
    method AppendPriceTick(id: string, tick: Tick)
      modifies this
      ensures View() == old(View()).(history := old(View()).history[id := Trim(HistoryOf(old(View()), id) + [tick], Some(historyCap))])
      ensures publishing == old(publishing)
    {
      var history := if id in priceHistory then priceHistory[id] else [];
      history := history + [tick];
      if |history| > historyCap { history := history[|history| - historyCap..]; }
      priceHistory := priceHistory[id := history];
    }

    /** One firing of the interval: nothing while another is publishing; unless it is calm, the gateway may throw at any broadcast. */
    method PublishPriceTicks(now: int, intents: seq<Intent>, calm: bool) returns (r: Option<Step>)
      modifies this
      ensures calm && !old(publishing) ==> r == Some(Publish(now, intents))
      ensures r.None? <==> old(publishing)
      ensures r.None? ==> View() == old(View()) && publishing
      ensures r.Some? ==> View() == Do(old(View()), Some(historyCap), r.value) && r.value.now == now && !publishing
      ensures r.Some? ==> Visited(r.value) <= intents && (r.value.Publish? ==> r.value.intents == intents)
    {
      if publishing { return None; }
      publishing := true;
      var failed := Fails(calm);
      if failed {
        // the open intents could not be read
        publishing := false;
        return Some(Failed(now, []));
      }
      var active: set<string> := {};
      var i := 0;
      while i < |intents|
        invariant 0 <= i <= |intents| && publishing
        invariant View() == VisitAll(old(View()), Some(historyCap), now, intents[..i])
        invariant active == Active(intents[..i])
      {
        var intent := intents[i];
        assert intents[..i + 1][..i] == intents[..i];
        ActiveGrows(intents[..i + 1]);
        if intent.auction.Some? {
          active := active + {intent.id};
          var price := Price(intent.auction.value, now, intent.min);
          if !(intent.id in lastPrices && lastPrices[intent.id] == price) {
            failed := Fails(calm);
            if failed {
              publishing := false;
              return Some(Failed(now, intents[..i]));
            }
            lastPrices := lastPrices[intent.id := price];
            AppendPriceTick(intent.id, Tick(price, now));
          }
        }
        i := i + 1;
      }
      assert intents[..i] == intents;
      ForgetInactive(active);
      publishing := false;
      return Some(Publish(now, intents));
    }

    /** Deletes the last price of every intent that is no longer listed. */
    method ForgetInactive(active: set<string>)
      modifies this
      ensures View() == CleanUp(old(View()), active) && publishing == old(publishing)
    {
      var todo := lastPrices.Keys;
      while todo != {}
        invariant todo <= lastPrices.Keys <= old(lastPrices).Keys
        invariant forall id :: id in old(lastPrices) && id !in todo ==> (id in lastPrices <==> id in active)
        invariant forall id :: id in lastPrices ==> lastPrices[id] == old(lastPrices)[id]
        invariant priceHistory == old(priceHistory) && publishing == old(publishing)
        decreases |todo|
      {
        var id := Pick(todo);
        todo := todo - {id};
        if id !in active { lastPrices := lastPrices - {id}; }
      }
      assert lastPrices == CleanUp(old(View()), active).last;
    }
  }
}
