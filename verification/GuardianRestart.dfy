/** Restarting guardian ingestion from the persisted table and replaying a window of the chain. */
module GuardianRestart {
  import opened Common
  import opened Guardian
  import opened GuardianRuns

  function Replay(c: Core, es: seq<Event>): Core {
    if es == [] then c else ApplyCore(Replay(c, es[..|es| - 1]), es[|es| - 1])
  }

  /** The uninterrupted run over history `h`, and the table it leaves behind. */
  function Uninterrupted(h: seq<Event>): Core {
    Replay(Core(map[], {}), h)
  }

  function Table(h: seq<Event>): seq<Row> {
    if h == [] then []
    else
      var init := h[..|h| - 1];
      ApplyTable(Uninterrupted(init), Table(init), h[|h| - 1])
  }

  // ---------------------------------------------------------------- what the table holds

  ghost function Activations(h: seq<Event>): seq<Event> {
    Filter(h, (e: Event) => e.active)
  }

  /** One row per activation, in chain order; the row of an action in force is active. */
  ghost predicate TableOk(h: seq<Event>, rows: seq<Row>) {
    && |rows| == |Activations(h)|
    && (forall i :: 0 <= i < |rows| ==> rows[i].record == ToRecord(Activations(h)[i]))
    && (forall k :: k in Uninterrupted(h).active ==> Row(Uninterrupted(h).active[k], true) in rows)
  }

  lemma ChainPrefix(h: seq<Event>, n: nat)
    requires Chain(h) && n <= |h|
    ensures Chain(h[..n])
  {
  }

  lemma LaterThanAll(h: seq<Event>, e: Event, x: Event)
    requires Chain(h + [e]) && x in h
    ensures Before(x.pos, e.pos) && e.id != x.id
  {
    var i :| 0 <= i < |h| && h[i] == x;
    assert (h + [e])[i] == x && (h + [e])[|h|] == e;
  }

  lemma {:induction false} RunMirrors(h: seq<Event>)
    requires Chain(h)
    ensures Mirrors(Uninterrupted(h).active, h, {}) && Uninterrupted(h).seen == Ids(h)
  {
    if h != [] {
      var init, e := h[..|h| - 1], h[|h| - 1];
      ChainPrefix(h, |h| - 1);
      RunMirrors(init);
      assert init + [e] == h;
      ApplyMirrors(Uninterrupted(init), init, {}, e);
    }
  }

  /** What it means for `k` to be active, or not, at the end of `h`. */
  lemma AtEnd(h: seq<Event>, k: Key)
    requires Chain(h)
    ensures k in Uninterrupted(h).active <==> Latest(h, k).Some? && Latest(h, k).value.active
    ensures k in Uninterrupted(h).active ==> Uninterrupted(h).active[k] == ToRecord(Latest(h, k).value)
  {
    RunMirrors(h);
    assert InForce(h, {}, k) == if k in Uninterrupted(h).active then Some(Uninterrupted(h).active[k]) else None;
  }

  lemma {:induction false} LatestIsLast(h: seq<Event>, k: Key, e: Event)
    requires Chain(h) && e in h && e.key == k
    ensures Latest(h, k).Some? && (e == Latest(h, k).value || Before(e.pos, Latest(h, k).value.pos))
  {
    var init, last := h[..|h| - 1], h[|h| - 1];
    assert h == init + [last];
    ChainPrefix(h, |h| - 1);
    if last.key == k {
      if e != last { LaterThanAll(init, last, e); }
    } else {
      LatestIsLast(init, k, e);
    }
  }

  lemma DistinctActions(h: seq<Event>, k: Key, k': Key)
    requires Chain(h) && k != k' && k in Uninterrupted(h).active && k' in Uninterrupted(h).active
    ensures Uninterrupted(h).active[k].id != Uninterrupted(h).active[k'].id
  {
    AtEnd(h, k);
    AtEnd(h, k');
    var i :| 0 <= i < |h| && h[i] == Latest(h, k).value;
    var j :| 0 <= j < |h| && h[j] == Latest(h, k').value;
    assert h[i].key != h[j].key;
  }

  /** A new event of the chain is unseen and follows what is active under its key. */
  lemma NextEvent(h: seq<Event>, e: Event)
    requires Chain(h + [e]) && Chain(h)
    ensures e.id !in Uninterrupted(h).seen
    ensures e.key in Uninterrupted(h).active ==> Before(Uninterrupted(h).active[e.key].pos, e.pos)
    ensures Uninterrupted(h + [e]) == ApplyCore(Uninterrupted(h), e)
    ensures Activations(h + [e]) == Activations(h) + if e.active then [e] else []
    ensures forall i :: 0 <= i < |Activations(h)| ==> Activations(h)[i].id != e.id
  {
    hide Chain, Before, IsAfter, Mirrors;
    RunMirrors(h);
    NextOnChain(Uninterrupted(h), h, {}, e);
    assert (h + [e])[..|h|] == h;
    ActivationsGrow(h, e);
    forall i | 0 <= i < |Activations(h)| ensures Activations(h)[i].id != e.id {
      assert Activations(h)[i] in h;
    }
  }

  lemma ActivationsGrow(h: seq<Event>, e: Event)
    ensures Activations(h + [e]) == Activations(h) + if e.active then [e] else []
  {
    FilterConcat(h, [e], (x: Event) => x.active);
    assert [e][1..] == [];
  }

  lemma TableActivated(h: seq<Event>, rows: seq<Row>, e: Event)
    requires Chain(h + [e]) && Chain(h) && TableOk(h, rows) && e.active
    ensures TableOk(h + [e], ApplyTable(Uninterrupted(h), rows, e))
  {
    hide Chain, Before, IsAfter, Uninterrupted, Activations;
    NextEvent(h, e);
    assert ApplyTable(Uninterrupted(h), rows, e) == rows + [Row(ToRecord(e), true)];
  }

  lemma TableCleared(h: seq<Event>, rows: seq<Row>, e: Event)
    requires Chain(h + [e]) && Chain(h) && TableOk(h, rows) && !e.active
    ensures TableOk(h + [e], ApplyTable(Uninterrupted(h), rows, e))
  {
    hide Chain, Before, IsAfter, Uninterrupted, Activations;
    NextEvent(h, e);
    var c, rows' := Uninterrupted(h), ApplyTable(Uninterrupted(h), rows, e);
    assert Activations(h) + [] == Activations(h);
    if e.key in c.active {
      forall k | k in Uninterrupted(h + [e]).active ensures Row(Uninterrupted(h + [e]).active[k], true) in rows' {
        assert k != e.key && Row(c.active[k], true) in rows;
        var i :| 0 <= i < |rows| && rows[i] == Row(c.active[k], true);
        DistinctActions(h, k, e.key);
        assert rows'[i] == rows[i];
      }
    }
  }

  lemma TableStep(h: seq<Event>, rows: seq<Row>, e: Event)
    requires Chain(h + [e]) && Chain(h) && TableOk(h, rows)
    ensures TableOk(h + [e], ApplyTable(Uninterrupted(h), rows, e))
  {
    if e.active { TableActivated(h, rows, e); } else { TableCleared(h, rows, e); }
  }

  lemma {:induction false} TableHolds(h: seq<Event>)
    requires Chain(h)
    ensures TableOk(h, Table(h))
  {
    if h != [] {
      var init, e := h[..|h| - 1], h[|h| - 1];
      ChainPrefix(h, |h| - 1);
      TableHolds(init);
      assert init + [e] == h;
      TableStep(init, Table(init), e);
    }
  }

  lemma RowIsActivation(h: seq<Event>, row: Row) returns (e: Event)
    requires TableOk(h, Table(h)) && row in Table(h)
    ensures e in h && e.active && ToRecord(e) == row.record
  {
    var i :| 0 <= i < |Table(h)| && Table(h)[i] == row;
    e := Activations(h)[i];
    assert e in Activations(h);
  }

  // ---------------------------------------------------------------- restore, then replay

  lemma {:induction false} RestoreHolds(order: seq<Row>)
    ensures RestoreCore(order).seen == set row | row in order :: row.record.id
    ensures forall k :: k in RestoreCore(order).active ==>
              RestoreCore(order).active[k].key == k && Row(RestoreCore(order).active[k], true) in order
    ensures forall row :: row in order && row.active ==> row.record.key in RestoreCore(order).active
  {
    if order != [] {
      var init, row := order[..|order| - 1], order[|order| - 1];
      RestoreHolds(init);
      assert order == init + [row];
    }
  }

  ghost predicate Cleared(es: seq<Event>, r: Record) {
    exists e :: e in es && !e.active && e.key == r.key && Before(r.pos, e.pos)
  }

  lemma ClearedAppend(es: seq<Event>, e: Event, r: Record)
    ensures Cleared(es + [e], r) <==> Cleared(es, r) || (!e.active && e.key == r.key && Before(r.pos, e.pos))
  {
    assert e in es + [e];
    assert forall x :: x in es ==> x in es + [e];
  }

  lemma {:induction false} ReplaySeen(c: Core, es: seq<Event>)
    ensures Replay(c, es).seen == c.seen + Ids(es)
  {
    if es != [] {
      ReplaySeen(c, es[..|es| - 1]);
      assert es == es[..|es| - 1] + [es[|es| - 1]];
    }
  }

  /**
   * Deliveries in any order, repeated at will: a delivered activation, or one
   * after it, is active under its key unless a clear after it was delivered.
   */
  lemma {:induction false} LaterActivationStands(es: seq<Event>, e: Event)
    requires (forall x, y :: x in es && y in es && x.id == y.id ==> x == y) && e in es && e.active
    ensures Stands(Uninterrupted(es).active, e) || Cleared(es, ToRecord(e))
  {
    var init, x := es[..|es| - 1], es[|es| - 1];
    assert es == init + [x];
    ClearedAppend(init, x, ToRecord(e));
    ReplaySeen(Core(map[], {}), init);
    if e in init {
      LaterActivationStands(init, e);
      if Stands(Uninterrupted(init).active, e) { StandsOrClears(Uninterrupted(init), x, e); }
    } else {
      assert x == e && e.id !in Uninterrupted(init).seen;
    }
  }

  /** Something at or after `e` is active under its key. */
  ghost predicate Stands(active: map<Key, Record>, e: Event) {
    e.key in active && !Before(active[e.key].pos, e.pos)
  }

  lemma StandsOrClears(c: Core, x: Event, e: Event)
    requires Stands(c.active, e)
    ensures Stands(ApplyCore(c, x).active, e) || (!x.active && x.key == e.key && Before(e.pos, x.pos))
  {
  }

  /** While activations are already known, a replay only ever clears. */
  lemma {:induction false} ReplayOnlyClears(c: Core, es: seq<Event>, k: Key)
    requires Chain(es)
    requires forall e :: e in es ==> (e.active <==> e.id in c.seen)
    requires forall q :: q in c.active ==> c.active[q].key == q
    ensures var a := Replay(c, es).active;
            && (k in a <==> k in c.active && !Cleared(es, c.active[k]))
            && (k in a ==> a[k] == c.active[k])
  {
    if es != [] {
      var init, e := es[..|es| - 1], es[|es| - 1];
      assert es == init + [e];
      ChainPrefix(es, |es| - 1);
      ReplayOnlyClears(c, init, k);
      ReplaySeen(c, init);
      assert e.active <==> e.id in Replay(c, init).seen by {
        forall x | x in init ensures x.id != e.id { LaterThanAll(init, e, x); }
      }
      if k in c.active { ClearedAppend(init, e, c.active[k]); }
    }
  }

  /** The restored record of every key in force is the one in force. */
  ghost predicate CurrentRowsWin(h: seq<Event>, order: seq<Row>) {
    forall k :: k in Uninterrupted(h).active ==>
      k in RestoreCore(order).active && RestoreCore(order).active[k] == Uninterrupted(h).active[k]
  }

  lemma ReplayWindow(h: seq<Event>, order: seq<Row>, from: nat, to: nat, k: Key)
    requires Chain(h) && from <= to <= |h|
    requires forall row :: row in order <==> row in Table(h)
    ensures var c, a := RestoreCore(order), Replay(RestoreCore(order), h[from..to]).active;
            && (k in a <==> k in c.active && !Cleared(h[from..to], c.active[k]))
            && (k in a ==> a[k] == c.active[k])
  {
    TableHolds(h);
    RestoreHolds(order);
    forall e | e in h[from..to] ensures e.active <==> e.id in RestoreCore(order).seen {
      assert e in h;
      if e.active { ActivationHasRow(h, e); } else { ClearHasNoRow(h, order, e); }
    }
    ReplayOnlyClears(RestoreCore(order), h[from..to], k);
  }

  lemma ActivationHasRow(h: seq<Event>, e: Event)
    requires TableOk(h, Table(h)) && e in h && e.active
    ensures exists row :: row in Table(h) && row.record == ToRecord(e)
  {
    assert e in Activations(h);
    var i :| 0 <= i < |Activations(h)| && Activations(h)[i] == e;
    assert Table(h)[i] in Table(h);
  }

  lemma ClearHasNoRow(h: seq<Event>, order: seq<Row>, e: Event)
    requires Chain(h) && TableOk(h, Table(h)) && e in h && !e.active
    requires forall row :: row in order <==> row in Table(h)
    ensures forall row :: row in order ==> row.record.id != e.id
  {
    forall row | row in order ensures row.record.id != e.id {
      var x := RowIsActivation(h, row);
      var i :| 0 <= i < |h| && h[i] == x;
      var j :| 0 <= j < |h| && h[j] == e;
    }
  }

  /** No clear in the history follows an action that is in force at its end. */
  lemma InForceNeverCleared(h: seq<Event>, from: nat, to: nat, k: Key)
    requires Chain(h) && from <= to <= |h| && k in Uninterrupted(h).active
    ensures !Cleared(h[from..to], Uninterrupted(h).active[k])
  {
    AtEnd(h, k);
    forall e | e in h[from..to] && !e.active && e.key == k ensures !Before(Latest(h, k).value.pos, e.pos) {
      assert e in h;
      LatestIsLast(h, k, e);
    }
  }

  /** A window that holds some event of a key holds its latest one. */
  lemma LatestReplayed(h: seq<Event>, from: nat, k: Key, e: Event)
    requires Chain(h) && from <= |h| && e in h[from..] && e.key == k
    ensures Latest(h, k).Some? && Latest(h, k).value in h[from..]
  {
    var i :| 0 <= i < |h[from..]| && h[from..][i] == e;
    LatestIsLast(h, k, h[from + i]);
    var last := Latest(h, k).value;
    var j :| 0 <= j < |h| && h[j] == last;
    assert j >= from + i;
    assert h[from..][j - from] == last;
  }

  /** A resurrected action is cleared by the replay exactly when the key's latest event is replayed. */
  lemma ResurrectedCleared(h: seq<Event>, order: seq<Row>, from: nat, k: Key)
    requires Chain(h) && from <= |h|
    requires forall row :: row in order <==> row in Table(h)
    requires k in RestoreCore(order).active && k !in Uninterrupted(h).active
    ensures Latest(h, k).Some?
    ensures Cleared(h[from..], RestoreCore(order).active[k]) <==> Latest(h, k).value in h[from..]
  {
    hide Chain, Before, IsAfter, Latest, Replay, Table, RestoreCore;
    TableHolds(h);
    RestoreHolds(order);
    var r := RestoreCore(order).active[k];
    assert Row(r, true) in Table(h);
    var x := RowIsActivation(h, Row(r, true));
    LatestIsLast(h, k, x);
    AtEnd(h, k);
    var last := Latest(h, k).value;
    assert !last.active && Before(r.pos, last.pos);
    if Cleared(h[from..], r) {
      var e :| e in h[from..] && !e.active && e.key == r.key && Before(r.pos, e.pos);
      LatestReplayed(h, from, k, e);
    }
  }

  /** What a replayed window leaves under `k`, against the uninterrupted run. */
  lemma KeyWindow(h: seq<Event>, order: seq<Row>, from: nat, k: Key)
    requires Chain(h) && from <= |h|
    requires forall row :: row in order <==> row in Table(h)
    ensures var c, goal, final := RestoreCore(order).active, Uninterrupted(h).active, Replay(RestoreCore(order), h[from..]).active;
            && (k in goal ==> (k in final && final[k] == goal[k] <==> k in c && c[k] == goal[k]))
            && (k !in goal ==> (k !in final <==> (k in c ==> Latest(h, k).Some? && Latest(h, k).value in h[from..])))
  {
    hide Chain, Latest, Replay, Table, RestoreCore, Cleared, TableOk;
    assert h[from..] == h[from..|h|];
    ReplayWindow(h, order, from, |h|, k);
    if k in Uninterrupted(h).active {
      InForceNeverCleared(h, from, |h|, k);
    } else if k in RestoreCore(order).active {
      ResurrectedCleared(h, order, from, k);
    }
  }

  /** After the window: nothing but this history is known. */
  lemma WindowKnows(h: seq<Event>, order: seq<Row>, from: nat)
    requires Chain(h) && from <= |h|
    requires forall row :: row in order <==> row in Table(h)
    ensures var c := Replay(RestoreCore(order), h[from..]);
            && c.seen <= Ids(h)
            && forall k :: k in c.active ==> exists x :: x in h && ToRecord(x) == c.active[k]
  {
    hide Chain, Latest, Replay, Table, RestoreCore, Cleared, TableOk;
    var c := Replay(RestoreCore(order), h[from..]);
    TableHolds(h);
    RestoreHolds(order);
    ReplaySeen(RestoreCore(order), h[from..]);
    forall id | id in c.seen ensures id in Ids(h) {
      if row :| row in order && row.record.id == id {
        var x := RowIsActivation(h, row);
      } else {
        var x :| x in h[from..] && x.id == id;
      }
    }
    assert h[from..] == h[from..|h|];
    forall k | k in c.active ensures exists x :: x in h && ToRecord(x) == c.active[k] {
      ReplayWindow(h, order, from, |h|, k);
      var x := RowIsActivation(h, Row(c.active[k], true));
    }
  }

  // ---------------------------------------------------------------- events the process was down for

  lemma {:induction false} ReplayConcat(c: Core, a: seq<Event>, b: seq<Event>)
    ensures Replay(c, a + b) == Replay(Replay(c, a), b)
  {
    if b == [] {
      assert a + b == a;
    } else {
      var init, e := b[..|b| - 1], b[|b| - 1];
      ReplayConcat(c, a, init);
      assert (a + b)[..|a + b| - 1] == a + init;
    }
  }

  lemma {:induction false} LatestConcat(a: seq<Event>, b: seq<Event>, k: Key)
    ensures Latest(a + b, k) == if Latest(b, k).Some? then Latest(b, k) else Latest(a, k)
  {
    if b == [] {
      assert a + b == a;
    } else {
      var init, e := b[..|b| - 1], b[|b| - 1];
      LatestConcat(a, init, k);
      assert a + b == (a + init) + [e] && b == init + [e];
      LatestAppend(a + init, e, k);
      LatestAppend(init, e, k);
    }
  }

  /** Unseen and later than all that is active. */
  ghost predicate News(c: Core, es: seq<Event>) {
    && Chain(es)
    && (forall e :: e in es ==> e.id !in c.seen)
    && (forall e, k :: e in es && k in c.active ==> Before(c.active[k].pos, e.pos))
  }

  lemma NewsPrefix(c: Core, init: seq<Event>, e: Event)
    requires News(c, init + [e])
    ensures News(c, init) && e.id !in c.seen + Ids(init)
    ensures forall x :: x in init ==> Before(x.pos, e.pos)
    ensures forall k :: k in c.active ==> Before(c.active[k].pos, e.pos)
  {
    hide Before, IsAfter;
    var es := init + [e];
    assert es[..|init|] == init && e in es;
    ChainPrefix(es, |init|);
    forall x | x in init ensures x.id != e.id && Before(x.pos, e.pos) { LaterThanAll(init, e, x); }
  }

  lemma NewsStep(c: Core, e: Event, k: Key)
    requires e.id !in c.seen && (e.key in c.active ==> Before(c.active[e.key].pos, e.pos))
    ensures var a := ApplyCore(c, e).active;
            if e.key == k then (k in a <==> e.active) && (k in a ==> a[k] == ToRecord(e)) else Agree(a, c.active, k)
  {
  }

  /** Events nobody has seen decide the keys they name. */
  lemma {:induction false} ReplayNews(c: Core, es: seq<Event>, k: Key)
    requires News(c, es)
    ensures var a, last := Replay(c, es).active, Latest(es, k);
            if last.None? then Agree(a, c.active, k)
            else (k in a <==> last.value.active) && (k in a ==> a[k] == ToRecord(last.value))
  {
    if es != [] {
      hide News, Before, IsAfter, ApplyCore;
      var init, e := es[..|es| - 1], es[|es| - 1];
      assert es == init + [e];
      NewsPrefix(c, init, e);
      ReplayNews(c, init, k);
      ReplayNews(c, init, e.key);
      ReplaySeen(c, init);
      LatestAppend(init, e, k);
      NewsStep(Replay(c, init), e, k);
    }
  }

  ghost predicate Agree(a: map<Key, Record>, b: map<Key, Record>, k: Key) {
    (k in a <==> k in b) && (k in a ==> a[k] == b[k])
  }

  // ---------------------------------------------------------------- the same over the row order and the window

  /** `r`'s row is active in `order` and no active row of its key follows it. */
  ghost predicate LastActive(order: seq<Row>, k: Key, r: Record) {
    exists i :: 0 <= i < |order| && order[i] == Row(r, true) && r.key == k && NoneFollows(order, i, k)
  }

  ghost predicate NoneFollows(order: seq<Row>, i: nat, k: Key) {
    forall j :: i < j < |order| && order[j].active ==> order[j].record.key != k
  }

  /** The restored record of a key is that of its last active row. */
  lemma {:induction false} RestoredIsLast(order: seq<Row>, k: Key, r: Record)
    ensures k in RestoreCore(order).active && RestoreCore(order).active[k] == r <==> LastActive(order, k, r)
  {
    if order != [] {
      var init, last := order[..|order| - 1], order[|order| - 1];
      RestoredIsLast(init, k, r);
      if last.active && last.record.key == k {
        assert order[|order| - 1] == last && NoneFollows(order, |order| - 1, k);
      } else {
        LastActiveGrows(init, last, k, r);
        assert order == init + [last];
      }
    }
  }

  lemma LastActiveGrows(init: seq<Row>, last: Row, k: Key, r: Record)
    requires !(last.active && last.record.key == k)
    ensures LastActive(init + [last], k, r) <==> LastActive(init, k, r)
  {
    var order := init + [last];
    if i :| 0 <= i < |init| && init[i] == Row(r, true) && r.key == k && NoneFollows(init, i, k) {
      assert order[i] == Row(r, true) && NoneFollows(order, i, k);
    }
    if i :| 0 <= i < |order| && order[i] == Row(r, true) && r.key == k && NoneFollows(order, i, k) {
      assert init[i] == order[i];
      assert forall j :: i < j < |init| ==> init[j] == order[j];
      assert NoneFollows(init, i, k);
    }
  }

  /** The row of each key's latest activation, if that is its latest event, follows every other active row of the key. */
  ghost predicate LatestRowsLast(h: seq<Event>, order: seq<Row>) {
    forall k :: Latest(h, k).Some? && Latest(h, k).value.active ==> LastActive(order, k, ToRecord(Latest(h, k).value))
  }

  ghost predicate HasActiveRow(order: seq<Row>, k: Key) {
    exists row :: row in order && row.active && row.record.key == k
  }

  lemma WinsIff(h: seq<Event>, order: seq<Row>)
    requires Chain(h)
    ensures CurrentRowsWin(h, order) <==> LatestRowsLast(h, order)
  {
    hide Chain, Latest, Replay, RestoreCore, LastActive;
    forall k
      ensures k in Uninterrupted(h).active <==> Latest(h, k).Some? && Latest(h, k).value.active
      ensures k in Uninterrupted(h).active ==>
                (k in RestoreCore(order).active && RestoreCore(order).active[k] == Uninterrupted(h).active[k]
                 <==> LastActive(order, k, ToRecord(Latest(h, k).value)))
    {
      AtEnd(h, k);
      if k in Uninterrupted(h).active { RestoredIsLast(order, k, Uninterrupted(h).active[k]); }
    }
  }

  lemma RestoredHasRow(order: seq<Row>, k: Key)
    ensures k in RestoreCore(order).active <==> HasActiveRow(order, k)
  {
    RestoreHolds(order);
    if k in RestoreCore(order).active {
      var row := Row(RestoreCore(order).active[k], true);
      assert row in order && row.active && row.record.key == k;
    }
  }

  /**
   * The latest event of `k`, of which those in `d` were emitted while the
   * process was down: an action in force is either replayed news or read back
   * after the key's other active rows; a clear is replayed if the key has one.
   */
  ghost predicate KeyRestored(h: seq<Event>, d: seq<Event>, order: seq<Row>, window: seq<Event>, k: Key) {
    var last := Latest(h + d, k);
    last.Some? ==>
      if last.value.active then (last.value in d && last.value in window) || LastActive(order, k, ToRecord(last.value))
      else HasActiveRow(order, k) ==> last.value in window
  }

  /** Later than every event of `h`, under ids of their own. */
  ghost predicate AllAfter(h: seq<Event>, es: seq<Event>) {
    forall x, e :: x in h && e in es ==> Before(x.pos, e.pos) && e.id != x.id
  }

  lemma ChainParts(h: seq<Event>, missed: seq<Event>, news: seq<Event>)
    requires Chain(h + (missed + news))
    ensures Chain(h) && Chain(news) && AllAfter(h, news)
  {
    hide Before, IsAfter;
    var t := h + (missed + news);
    assert h == t[..|h|] && news == t[|h| + |missed|..];
    forall x, e | x in h && e in news ensures Before(x.pos, e.pos) && e.id != x.id {
      var i :| 0 <= i < |h| && h[i] == x;
      var j :| 0 <= j < |news| && news[j] == e;
      assert t[i] == x && t[|h| + |missed| + j] == e;
    }
  }

  lemma NewsAfterWindow(h: seq<Event>, news: seq<Event>, order: seq<Row>, from: nat)
    requires Chain(h) && Chain(news) && AllAfter(h, news) && from <= |h|
    requires forall row :: row in order <==> row in Table(h)
    ensures News(Replay(RestoreCore(order), h[from..]), news)
  {
    hide Chain, Latest, Replay, Table, RestoreCore, Before, IsAfter;
    WindowKnows(h, order, from);
    var c := Replay(RestoreCore(order), h[from..]);
    forall e, k | e in news && k in c.active ensures Before(c.active[k].pos, e.pos) {
      var x :| x in h && ToRecord(x) == c.active[k];
    }
    forall e | e in news ensures e.id !in Ids(h) {
      if x :| x in h && x.id == e.id { assert false; }
    }
  }

  /** A key without news keeps what the window left of it. */
  lemma KeyWithoutNews(h: seq<Event>, missed: seq<Event>, order: seq<Row>, from: nat, k: Key)
    requires Chain(h) && Chain(h + missed) && from <= |h| && (missed != [] ==> from == |h|)
    requires forall row :: row in order <==> row in Table(h)
    ensures Agree(Replay(RestoreCore(order), h[from..]).active, Uninterrupted(h + missed).active, k)
            <==> KeyRestored(h, missed, order, h[from..], k)
  {
    hide Chain, Before, IsAfter, Latest, Table, RestoreCore, LastActive, HasActiveRow;
    AtEnd(h + missed, k);
    AtEnd(h, k);
    LatestConcat(h, missed, k);
    RestoredHasRow(order, k);
    if Latest(h + missed, k).Some? { RestoredIsLast(order, k, ToRecord(Latest(h + missed, k).value)); }
    if Latest(missed, k).None? {
      KeyWindow(h, order, from, k);
      if k in RestoreCore(order).active && k !in Uninterrupted(h).active { ResurrectedCleared(h, order, from, k); }
    } else {
      assert h[from..] == [];
    }
  }

  /** News of a key decides it; without any, only what came before counts. */
  lemma KeyRestoredNews(h: seq<Event>, missed: seq<Event>, news: seq<Event>, order: seq<Row>, w: seq<Event>, k: Key)
    ensures Latest(h + (missed + news), k) == if Latest(news, k).Some? then Latest(news, k) else Latest(h + missed, k)
    ensures KeyRestored(h, missed + news, order, w + news, k)
            <==> Latest(news, k).Some? || KeyRestored(h, missed, order, w, k)
  {
    hide LastActive, HasActiveRow;
    assert h + (missed + news) == (h + missed) + news;
    LatestConcat(h + missed, news, k);
  }

  lemma KeyRestoredIff(h: seq<Event>, missed: seq<Event>, news: seq<Event>, order: seq<Row>, from: nat, k: Key)
    requires Chain(h + (missed + news)) && from <= |h| && (missed != [] ==> from == |h|)
    requires forall row :: row in order <==> row in Table(h)
    ensures Agree(Replay(RestoreCore(order), h[from..] + news).active, Uninterrupted(h + (missed + news)).active, k)
            <==> KeyRestored(h, missed + news, order, h[from..] + news, k)
  {
    hide Chain, Before, IsAfter, Latest, Replay, Uninterrupted, Table, RestoreCore, KeyRestored, News;
    var t := h + (missed + news);
    ChainParts(h, missed, news);
    NewsAfterWindow(h, news, order, from);
    ReplayConcat(RestoreCore(order), h[from..], news);
    ReplayNews(Replay(RestoreCore(order), h[from..]), news, k);
    KeyRestoredNews(h, missed, news, order, h[from..], k);
    AtEnd(t, k);
    if Latest(news, k).None? {
      assert h + missed == t[..|h| + |missed|];
      ChainPrefix(t, |h| + |missed|);
      AtEnd(h + missed, k);
      KeyWithoutNews(h, missed, order, from, k);
    }
  }

  lemma SameMap(a: map<Key, Record>, b: map<Key, Record>)
    ensures a == b <==> forall k :: Agree(a, b, k)
  {
    if forall k :: Agree(a, b, k) {
      forall k: Key ensures k in a <==> k in b { assert Agree(a, b, k); }
      forall k | k in a ensures a[k] == b[k] { assert Agree(a, b, k); }
    }
  }

  /**
   * Restart convergence. The process stopped after `h` and missed `d`. Reading
   * the table back in `order` and replaying the chain from `from` ends with
   * the uninterrupted run's active map if and only if every key is restored:
   * its action in force is replayed news or read back last, and its clear is
   * replayed if it has an active row.
   */
  lemma RestartConvergesIff(h: seq<Event>, d: seq<Event>, order: seq<Row>, from: nat)
    requires Chain(h + d) && from <= |h + d|
    requires forall row :: row in order <==> row in Table(h)
    ensures var window := (h + d)[from..];
            Replay(RestoreCore(order), window).active == Uninterrupted(h + d).active
            <==> forall k :: KeyRestored(h, d, order, window, k)
  {
    hide Chain, Latest, Replay, Uninterrupted, Table, RestoreCore, KeyRestored, Agree;
    var start, skip := if from <= |h| then from else |h|, if from <= |h| then 0 else from - |h|;
    var window, missed, news := (h + d)[from..], d[..skip], d[skip..];
    assert missed + news == d && window == h[start..] + news;
    forall k ensures Agree(Replay(RestoreCore(order), window).active, Uninterrupted(h + d).active, k)
                     <==> KeyRestored(h, d, order, window, k)
    {
      KeyRestoredIff(h, missed, news, order, start, k);
    }
    SameMap(Replay(RestoreCore(order), window).active, Uninterrupted(h + d).active);
  }

  /** An action in force at the end of the history is never dropped while its history is replayed. */
  lemma InForceNeverDropped(h: seq<Event>, order: seq<Row>, from: nat, to: nat, k: Key)
    requires Chain(h) && from <= to <= |h| && k in Uninterrupted(h).active
    requires forall row :: row in order <==> row in Table(h)
    requires LatestRowsLast(h, order)
    ensures var a := Replay(RestoreCore(order), h[from..to]).active; k in a && a[k] == Uninterrupted(h).active[k]
  {
    WinsIff(h, order);
    ReplayWindow(h, order, from, to, k);
    InForceNeverCleared(h, from, to, k);
  }

  /** Rows read back oldest first always let the current ones win. */
  lemma ChainOrderLetsCurrentWin(h: seq<Event>)
    requires Chain(h)
    ensures CurrentRowsWin(h, Table(h))
  {
    hide Table, Latest, RestoreCore, Replay;
    TableHolds(h);
    FilterChain(h);
    forall k | k in Uninterrupted(h).active
      ensures k in RestoreCore(Table(h)).active && RestoreCore(Table(h)).active[k] == Uninterrupted(h).active[k]
    {
      AtEnd(h, k);
      var r := Uninterrupted(h).active[k];
      var i :| 0 <= i < |Table(h)| && Table(h)[i] == Row(r, true);
      forall j | i < j < |Table(h)| ensures Table(h)[j].record.key != k {
        var x := Activations(h)[j];
        assert x in Activations(h) && Before(Activations(h)[i].pos, x.pos);
        if x.key == k { LatestIsLast(h, k, x); }
      }
      LastRowWins(Table(h), i);
    }
  }

  lemma ChainOrderIsLast(h: seq<Event>)
    requires Chain(h)
    ensures LatestRowsLast(h, Table(h))
  {
    ChainOrderLetsCurrentWin(h);
    WinsIff(h, Table(h));
  }

  /** So a chain-ordered restore and a full replay end in the uninterrupted run's state, with the same future. */
  lemma ChainOrderRestores(h: seq<Event>)
    requires Chain(h)
    ensures Replay(RestoreCore(Table(h)), h) == Uninterrupted(h)
  {
    hide Chain, Latest, Replay, Table, RestoreCore, LastActive, HasActiveRow;
    ChainOrderIsLast(h);
    assert h[0..] == h && h + [] == h;
    RestartConvergesIff(h, [], Table(h), 0);
    assert Replay(RestoreCore(Table(h)), h).seen == Uninterrupted(h).seen by {
      TableHolds(h);
      RestoreHolds(Table(h));
      ReplaySeen(RestoreCore(Table(h)), h);
      RunMirrors(h);
      forall row | row in Table(h) ensures row.record.id in Ids(h) { var e := RowIsActivation(h, row); }
    }
  }

  lemma {:induction false} FilterChain(h: seq<Event>)
    requires Chain(h)
    ensures Chain(Activations(h))
  {
    if h != [] {
      FilterChain(h[1..]);
      var rest := Activations(h[1..]);
      forall j | 0 <= j < |rest| ensures Before(h[0].pos, rest[j].pos) && rest[j].id != h[0].id {
        assert rest[j] in h[1..];
      }
    }
  }

  lemma {:induction false} LastRowWins(rows: seq<Row>, i: nat)
    requires i < |rows| && rows[i].active
    requires forall j :: i < j < |rows| ==> rows[j].record.key != rows[i].record.key
    ensures rows[i].record.key in RestoreCore(rows).active
    ensures RestoreCore(rows).active[rows[i].record.key] == rows[i].record
  {
    if i < |rows| - 1 {
      LastRowWins(rows[..|rows| - 1], i);
    }
  }

  lemma ThreeEvents(a: Event, b: Event, c: Event)
    requires Chain([a, b, c]) && a.key == b.key == c.key && a.active && b.active && !c.active
    ensures Uninterrupted([]) == Core(map[], {}) && Uninterrupted([a]) == Core(map[a.key := ToRecord(a)], {a.id})
    ensures Uninterrupted([a, b]) == Core(map[a.key := ToRecord(b)], {a.id, b.id})
    ensures Uninterrupted([a, b, c]) == Core(map[], {a.id, b.id, c.id})
  {
    var h := [a, b, c];
    assert h[0] == a && h[1] == b && h[2] == c;
    assert h[..2] == [a, b] && [a, b][..1] == [a] && [a][..0] == [];
    assert Uninterrupted([a]) == ApplyCore(Uninterrupted([]), a);
    assert Uninterrupted([a, b]) == ApplyCore(Uninterrupted([a]), b);
  }

  /** Activated twice, then cleared: the table keeps the first, superseded row active. */
  lemma SupersededRowStays(a: Event, b: Event, c: Event)
    requires Chain([a, b, c]) && a.key == b.key == c.key && a.active && b.active && !c.active
    ensures Table([a, b, c]) == [Row(ToRecord(a), true), Row(ToRecord(b), false)]
  {
    ThreeEvents(a, b, c);
    assert [a] == [] + [a] && [a, b] == [a] + [b] && [a, b, c] == [a, b] + [c];
    TableSnoc([], a);
    TableSnoc([a], b);
    TableSnoc([a, b], c);
    assert [a, b, c][0] == a && [a, b, c][1] == b && [a, b, c][2] == c;
    hide Uninterrupted, Table;
    assert Table([a]) == [Row(ToRecord(a), true)];
    assert Table([a, b]) == [Row(ToRecord(a), true), Row(ToRecord(b), true)];
  }

  /** So when the clear is outside the replayed window, the cleared action is back after a restart. */
  lemma ClearedActionReturns(a: Event, b: Event, c: Event)
    requires Chain([a, b, c]) && a.key == b.key == c.key && a.active && b.active && !c.active
    ensures var h := [a, b, c];
            && a.key !in Uninterrupted(h).active
            && Replay(RestoreCore(Table(h)), h[3..]).active == map[a.key := ToRecord(a)]
  {
    SupersededRowStays(a, b, c);
    ThreeEvents(a, b, c);
    hide Table, Uninterrupted;
    var ra, rb := Row(ToRecord(a), true), Row(ToRecord(b), false);
    assert [a, b, c][3..] == [] && [ra, rb][..1] == [ra] && [ra][..0] == [];
    assert RestoreCore([ra]).active == map[a.key := ToRecord(a)];
  }

  /** Activated again after the clear, the superseded row is beside the one in force. */
  lemma FourEvents(a: Event, b: Event, c: Event, d: Event)
    requires Chain([a, b, c, d]) && a.key == b.key == c.key == d.key && a.active && b.active && !c.active && d.active
    ensures Uninterrupted([a, b, c, d]).active == map[d.key := ToRecord(d)]
    ensures Table([a, b, c, d]) == [Row(ToRecord(a), true), Row(ToRecord(b), false), Row(ToRecord(d), true)]
  {
    hide Table, Uninterrupted;
    var h := [a, b, c, d];
    assert h[0] == a && h[1] == b && h[2] == c && h[3] == d && h[..3] == [a, b, c] && h == [a, b, c] + [d];
    ChainPrefix(h, 3);
    ThreeEvents(a, b, c);
    SupersededRowStays(a, b, c);
    TableSnoc([a, b, c], d);
    NextEvent([a, b, c], d);
  }

  lemma TableSnoc(h: seq<Event>, e: Event)
    ensures Table(h + [e]) == ApplyTable(Uninterrupted(h), Table(h), e) && Table([]) == []
  {
    assert (h + [e])[..|h|] == h;
  }

  /** Read back newest first, the table lets that row win, and the replay then drops a pause in force. */
  lemma UnorderedRestoreLosesAction(a: Event, b: Event, c: Event, d: Event)
    requires Chain([a, b, c, d]) && a.key == b.key == c.key == d.key && a.active && b.active && !c.active && d.active
    ensures d.key in Uninterrupted([a, b, c, d]).active
    ensures var t := Table([a, b, c, d]);
            |t| == 3 && d.key !in Replay(RestoreCore([t[2], t[1], t[0]]), [a, b, c, d]).active
  {
    FourEvents(a, b, c, d);
    hide Table, Uninterrupted;
    var h := [a, b, c, d];
    var ra, rb, rd := Row(ToRecord(a), true), Row(ToRecord(b), false), Row(ToRecord(d), true);
    assert h[0] == a && h[1] == b && h[2] == c && h[3] == d;
    assert h[..3] == [a, b, c] && [a, b, c][..2] == [a, b] && [a, b][..1] == [a] && [a][..0] == [];
    var order := [rd, rb, ra];
    assert order[..2] == [rd, rb] && [rd, rb][..1] == [rd] && [rd][..0] == [];
    assert RestoreCore([rd]) == Core(map[d.key := ToRecord(d)], {d.id});
    assert RestoreCore([rd, rb]) == Core(map[d.key := ToRecord(d)], {d.id, b.id});
    var s := RestoreCore(order);
    assert s == Core(map[d.key := ToRecord(a)], {a.id, b.id, d.id});
    assert Replay(s, [a]) == s;
    assert Replay(s, [a, b]) == s;
    assert Replay(s, [a, b, c]).active == map[];
  }
}
