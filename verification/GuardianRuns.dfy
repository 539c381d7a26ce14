/**
 * Whole runs of guardian ingestion: deliveries, re-deliveries and overrides
 * in any interleaving, and restarts from the persisted table.
 */
module GuardianRuns {
  import opened Common
  import opened Guardian

  // ---------------------------------------------------------------- reference: what the chain says

  ghost function Ids(log: seq<Event>): set<string> {
    set e | e in log :: e.id
  }

  /** Strictly later events further along, no id twice. */
  ghost predicate Chain(log: seq<Event>) {
    forall i, j :: 0 <= i < j < |log| ==> Before(log[i].pos, log[j].pos) && log[i].id != log[j].id
  }

  ghost function Latest(log: seq<Event>, k: Key): (r: Option<Event>)
    ensures r.None? <==> forall e :: e in log ==> e.key != k
    ensures r.Some? ==> r.value in log && r.value.key == k
  {
    if log == [] then None
    else
      var last := log[|log| - 1];
      assert log == log[..|log| - 1] + [last];
      if last.key == k then Some(last) else Latest(log[..|log| - 1], k)
  }

  /** The action in force for `k`: its latest event, if that is an activation nobody overrode. */
  ghost function InForce(log: seq<Event>, overridden: set<string>, k: Key): Option<Record> {
    match Latest(log, k)
    case None => None
    case Some(e) =>
      if e.active && e.id !in overridden
      then Some(Record(id := e.id, key := e.key, txHash := e.txHash, pos := e.pos, activatedAt := e.closedAt)) else None
  }

  ghost predicate Mirrors(active: map<Key, Record>, log: seq<Event>, overridden: set<string>) {
    forall k :: InForce(log, overridden, k) == if k in active then Some(active[k]) else None
  }

  lemma LatestAppend(log: seq<Event>, e: Event, k: Key)
    ensures Latest(log + [e], k) == if e.key == k then Some(e) else Latest(log, k)
  {
    assert (log + [e])[..|log|] == log;
  }

  /** The next event of the chain has a new id and follows whatever is active under its key. */
  lemma NextOnChain(c: Core, log: seq<Event>, overridden: set<string>, e: Event)
    requires Mirrors(c.active, log, overridden) && Chain(log + [e])
    ensures e.id !in Ids(log) && Ids(log + [e]) == Ids(log) + {e.id}
    ensures e.key in c.active ==> Before(c.active[e.key].pos, e.pos)
  {
    var next := log + [e];
    assert next[|log|] == e;
    forall x | x in log ensures x.id != e.id && Before(x.pos, e.pos) && x in next {
      var i :| 0 <= i < |log| && log[i] == x;
      assert next[i] == x;
    }
    if e.key in c.active {
      assert InForce(log, overridden, e.key) == Some(c.active[e.key]);
    }
  }

  /** An event delivered in chain order moves the active map exactly as the chain moved. */
  lemma ApplyMirrors(c: Core, log: seq<Event>, overridden: set<string>, e: Event)
    requires Mirrors(c.active, log, overridden) && c.seen == Ids(log) && overridden <= Ids(log)
    requires Chain(log + [e])
    ensures Mirrors(ApplyCore(c, e).active, log + [e], overridden)
    ensures ApplyCore(c, e).seen == Ids(log + [e])
  {
    hide Chain, Latest, Ids, Before, IsAfter;
    NextOnChain(c, log, overridden, e);
    forall k ensures InForce(log + [e], overridden, k) == var a := ApplyCore(c, e).active; if k in a then Some(a[k]) else None {
      LatestAppend(log, e, k);
      assert InForce(log, overridden, k) == if k in c.active then Some(c.active[k]) else None;
    }
  }

  // ---------------------------------------------------------------- runs with overrides

  datatype Op = Deliver(e: Event) | Find(k: Key) | Commit(i: nat, reason: string)

  /** `pending` holds overrides whose audit record is being written. */
  datatype World = World(core: Core, policy: Policy, pending: seq<Record>, log: seq<Event>, overridden: set<string>)

  function Start(): World {
    World(Core(map[], {}), Policy(None, map[], map[]), [], [], {})
  }

  function Do(w: World, op: Op): World {
    match op
    case Deliver(e) =>
      w.(core := ApplyCore(w.core, e), policy := ApplyPolicy(w.core, w.policy, e),
         log := if e.id in w.core.seen then w.log else w.log + [e])
    case Find(k) => if k in w.core.active then w.(pending := w.pending + [w.core.active[k]]) else w
    case Commit(i, reason) =>
      if i >= |w.pending| then w
      else
        var r := w.pending[i];
        w.(core := Lift(w.core, r), policy := Project(w.policy, r, false, reason),
           pending := w.pending[..i] + w.pending[i + 1..], overridden := w.overridden + {r.id})
  }

  function RunFrom(start: World, ops: seq<Op>): World {
    if ops == [] then start else Do(RunFrom(start, ops[..|ops| - 1]), ops[|ops| - 1])
  }

  function Run(ops: seq<Op>): World { RunFrom(Start(), ops) }

  /** A process that has just read its table back, in some order. */
  function Restarted(order: seq<Row>): World {
    World(RestoreCore(order), RestorePolicy(order), [], [], {})
  }

  // -- the policy state follows the active map, in any order and with any overrides

  /** `ref` points to `r`, for whatever reason. */
  predicate PointsTo(ref: Ref, r: Record) {
    ref.since == r.activatedAt && ref.actionId == r.id && ref.txHash == r.txHash
  }

  ghost predicate SideMirrors(m: map<string, Ref>, active: map<Key, Record>, kind: Kind) {
    forall t :: (t in m <==> Key(kind, t) in active) && (t in m ==> PointsTo(m[t], active[Key(kind, t)]))
  }

  ghost predicate PolicyMirrors(p: Policy, active: map<Key, Record>) {
    && (forall k :: k in active ==> Decodable(k) && active[k].key == k)
    && (p.pause.Some? <==> Key(Pause, "") in active)
    && (p.pause.Some? ==> PointsTo(p.pause.value, active[Key(Pause, "")]))
    && SideMirrors(p.suspended, active, Blacklist)
    && SideMirrors(p.frozen, active, Freeze)
  }

  lemma SideToggled(m: map<string, Ref>, active: map<Key, Record>, kind: Kind, r: Record, reason: string)
    requires SideMirrors(m, active, kind)
    ensures SideMirrors(if r.key.kind == kind then m[r.key.target := RefOf(r, reason)] else m, active[r.key := r], kind)
    ensures SideMirrors(if r.key.kind == kind then m - {r.key.target} else m, active - {r.key}, kind)
  {
    forall t: string ensures Key(kind, t) == r.key <==> r.key.kind == kind && r.key.target == t {
    }
  }

  lemma ActivationProjected(p: Policy, active: map<Key, Record>, r: Record, reason: string)
    requires PolicyMirrors(p, active) && Decodable(r.key)
    ensures PolicyMirrors(Project(p, r, true, reason), active[r.key := r])
  {
    hide SideMirrors;
    SideToggled(p.suspended, active, Blacklist, r, reason);
    SideToggled(p.frozen, active, Freeze, r, reason);
  }

  lemma RemovalProjected(p: Policy, active: map<Key, Record>, r: Record, reason: string)
    requires PolicyMirrors(p, active) && Decodable(r.key)
    ensures PolicyMirrors(Project(p, r, false, reason), active - {r.key})
  {
    hide SideMirrors;
    SideToggled(p.suspended, active, Blacklist, r, reason);
    SideToggled(p.frozen, active, Freeze, r, reason);
  }

  lemma {:induction false} RestoreProjected(order: seq<Row>)
    requires forall row :: row in order ==> Decodable(row.record.key)
    ensures PolicyMirrors(RestorePolicy(order), RestoreCore(order).active)
  {
    if order != [] {
      var init, row := order[..|order| - 1], order[|order| - 1];
      assert order == init + [row];
      RestoreProjected(init);
      ActivationProjected(RestorePolicy(init), RestoreCore(init).active, row.record, "restored guardian action");
    }
  }

  /** From any restored state, after any operations, the policy points exactly to the active actions. */
  lemma {:induction false} PolicyFollowsActions(order: seq<Row>, ops: seq<Op>)
    requires forall row :: row in order ==> Decodable(row.record.key)
    requires forall op :: op in ops && op.Deliver? ==> Decodable(op.e.key)
    ensures var w := RunFrom(Restarted(order), ops);
            PolicyMirrors(w.policy, w.core.active) && forall r :: r in w.pending ==> Decodable(r.key)
  {
    if ops == [] {
      RestoreProjected(order);
    } else {
      var init, op := ops[..|ops| - 1], ops[|ops| - 1];
      assert ops == init + [op];
      PolicyFollowsActions(order, init);
      PolicyStep(RunFrom(Restarted(order), init), op);
    }
  }

  lemma PolicyStep(w: World, op: Op)
    requires PolicyMirrors(w.policy, w.core.active) && forall r :: r in w.pending ==> Decodable(r.key)
    requires op.Deliver? ==> Decodable(op.e.key)
    ensures var t := Do(w, op); PolicyMirrors(t.policy, t.core.active) && forall r :: r in t.pending ==> Decodable(r.key)
  {
    match op
    case Deliver(e) =>
      hide SideMirrors, Project, Before, IsAfter, Decodable;
      if e.active { ActivationProjected(w.policy, w.core.active, ToRecord(e), "guardian action"); }
      else if e.key in w.core.active {
        RemovalProjected(w.policy, w.core.active, w.core.active[e.key], "guardian cleared (tx " + e.txHash + ")");
      }
    case Find(k) =>
    case Commit(i, reason) =>
      hide SideMirrors, Project, Decodable;
      if i < |w.pending| {
        assert w.pending[i] in w.pending;
        RemovalProjected(w.policy, w.core.active, w.pending[i], reason);
      }
  }

  // -- the active map follows the chain

  ghost predicate Ordered(w: World, op: Op) {
    op.Deliver? ==> op.e.id in w.core.seen || forall x :: x in w.log ==> Before(x.pos, op.e.pos)
  }

  /** When the override commits, the key still holds the overridden action or nothing. */
  ghost predicate Timely(w: World, op: Op) {
    op.Commit? && op.i < |w.pending| ==>
      var r := w.pending[op.i];
      r.key in w.core.active ==> w.core.active[r.key] == r
  }

  ghost predicate Orderly(ops: seq<Op>) {
    ops != [] ==> Orderly(ops[..|ops| - 1]) && Ordered(Run(ops[..|ops| - 1]), ops[|ops| - 1])
  }

  ghost predicate TimelyRun(ops: seq<Op>) {
    ops != [] ==> TimelyRun(ops[..|ops| - 1]) && Timely(Run(ops[..|ops| - 1]), ops[|ops| - 1])
  }

  /** The active map shows exactly the actions in force, now and after every earlier operation. */
  ghost predicate Faithful(ops: seq<Op>) {
    && Mirrors(Run(ops).core.active, Run(ops).log, Run(ops).overridden)
    && (ops != [] ==> Faithful(ops[..|ops| - 1]))
  }

  ghost predicate FromLog(r: Record, log: seq<Event>) {
    exists e :: e in log && e.active && ToRecord(e) == r
  }

  ghost predicate WorldOk(w: World) {
    && Chain(w.log) && w.core.seen == Ids(w.log) && w.overridden <= Ids(w.log)
    && (forall k :: k in w.core.active ==> w.core.active[k].key == k && FromLog(w.core.active[k], w.log))
    && (forall r :: r in w.pending ==> FromLog(r, w.log))
  }

  lemma WorldKept(w: World, op: Op)
    requires WorldOk(w) && Ordered(w, op)
    ensures WorldOk(Do(w, op))
  {
    var t := Do(w, op);
    if op.Deliver? && op.e.id !in w.core.seen {
      var e := op.e;
      assert e in t.log;
      assert forall x :: x in w.log ==> x in t.log;
      assert Ids(t.log) == Ids(w.log) + {e.id};
      forall i, j | 0 <= i < j < |t.log| ensures Before(t.log[i].pos, t.log[j].pos) && t.log[i].id != t.log[j].id {
        if j == |w.log| {
          assert t.log[i] == w.log[i] && w.log[i] in w.log && w.log[i].id in Ids(w.log);
        }
      }
      forall r | FromLog(r, w.log) ensures FromLog(r, t.log) {
        var x :| x in w.log && x.active && ToRecord(x) == r;
        assert x in t.log;
      }
      forall k | k in t.core.active ensures t.core.active[k].key == k && FromLog(t.core.active[k], t.log) {
        if t.core.active[k] == ToRecord(e) { assert e.active || k in w.core.active; }
      }
    } else if op.Find? && op.k in w.core.active {
      forall r | r in t.pending ensures FromLog(r, t.log) {
        assert r in w.pending || r == w.core.active[op.k];
      }
    } else if op.Commit? && op.i < |w.pending| {
      var r := w.pending[op.i];
      assert r in w.pending;
      var x :| x in w.log && x.active && ToRecord(x) == r;
      assert x.id in Ids(w.log);
      forall q | q in t.pending ensures FromLog(q, t.log) { assert q in w.pending; }
    }
  }

  lemma SameIdSameRecord(log: seq<Event>, a: Record, b: Record)
    requires Chain(log) && FromLog(a, log) && FromLog(b, log) && a.id == b.id
    ensures a == b
  {
    var x :| x in log && x.active && ToRecord(x) == a;
    var y :| y in log && y.active && ToRecord(y) == b;
    var i :| 0 <= i < |log| && log[i] == x;
    var j :| 0 <= j < |log| && log[j] == y;
    assert i == j;
  }

  /** An override keeps the map faithful exactly when it commits before anything replaced its action. */
  lemma CommitMirrorsIff(w: World, i: nat, reason: string)
    requires WorldOk(w) && Mirrors(w.core.active, w.log, w.overridden) && i < |w.pending|
    ensures var t := Do(w, Commit(i, reason));
            Mirrors(t.core.active, t.log, t.overridden) <==> Timely(w, Commit(i, reason))
  {
    hide Chain, Latest, Ids, Before, IsAfter, Project, FromLog;
    var t, r := Do(w, Commit(i, reason)), w.pending[i];
    assert r in w.pending;
    if Timely(w, Commit(i, reason)) {
      forall k ensures InForce(t.log, t.overridden, k) == if k in t.core.active then Some(t.core.active[k]) else None {
        var was := InForce(w.log, w.overridden, k);
        assert was == if k in w.core.active then Some(w.core.active[k]) else None;
        if was.Some? && was.value.id == r.id { SameIdSameRecord(w.log, was.value, r); }
      }
    } else {
      var now := w.core.active[r.key];
      assert InForce(w.log, w.overridden, r.key) == Some(now);
      if now.id == r.id { SameIdSameRecord(w.log, now, r); }
      assert InForce(t.log, t.overridden, r.key) == Some(now);
    }
  }

  lemma DeliverMirrors(w: World, e: Event)
    requires WorldOk(w) && Mirrors(w.core.active, w.log, w.overridden) && Ordered(w, Deliver(e))
    ensures var t := Do(w, Deliver(e)); Mirrors(t.core.active, t.log, t.overridden)
  {
    if e.id !in w.core.seen {
      WorldKept(w, Deliver(e));
      ApplyMirrors(w.core, w.log, w.overridden, e);
    }
  }

  lemma {:induction false} RunsAreOk(ops: seq<Op>)
    requires Orderly(ops)
    ensures WorldOk(Run(ops))
  {
    if ops != [] {
      var init := ops[..|ops| - 1];
      RunsAreOk(init);
      WorldKept(Run(init), ops[|ops| - 1]);
    }
  }

  /**
   * With first deliveries in chain order, and any re-deliveries and overrides:
   * the active map shows exactly the actions in force all along the run if and
   * only if every override commits while its action, or nothing, is under the key.
   */
  lemma {:induction false} ActionsInForce(ops: seq<Op>)
    requires Orderly(ops)
    ensures Faithful(ops) <==> TimelyRun(ops)
  {
    if ops == [] {
      assert Mirrors(Start().core.active, Start().log, Start().overridden);
    } else {
      var init, op := ops[..|ops| - 1], ops[|ops| - 1];
      ActionsInForce(init);
      RunsAreOk(init);
      var w := Run(init);
      if Faithful(init) {
        match op
        case Deliver(e) => DeliverMirrors(w, e);
        case Find(k) =>
        case Commit(i, reason) => if i < |w.pending| { CommitMirrorsIff(w, i, reason); }
      }
    }
  }

  /** Two activations and an override awaiting its audit record: the second activation is lifted although it is in force. */
  lemma OverrideRaceLiftsNewAction(a: Event, b: Event, reason: string)
    requires a.active && b.active && a.key == b.key && a.id != b.id && Before(a.pos, b.pos)
    ensures var w := Run([Deliver(a), Find(a.key), Deliver(b), Commit(0, reason)]);
            && w.log == [a, b] && w.overridden == {a.id}
            && InForce(w.log, w.overridden, a.key) == Some(ToRecord(b))
            && a.key !in w.core.active
  {
    var d, f, e, c := Deliver(a), Find(a.key), Deliver(b), Commit(0, reason);
    assert [d] == [] + [d] && [d, f] == [d] + [f] && [d, f, e] == [d, f] + [e] && [d, f, e, c] == [d, f, e] + [c];
    RunSnoc([], d);
    RunSnoc([d], f);
    RunSnoc([d, f], e);
    RunSnoc([d, f, e], c);
    hide Run, Do, InForce;
    RaceSteps(a, b, reason);
  }

  lemma RaceSteps(a: Event, b: Event, reason: string)
    requires a.active && b.active && a.key == b.key && a.id != b.id && Before(a.pos, b.pos)
    ensures var w := Do(Do(Do(Do(Start(), Deliver(a)), Find(a.key)), Deliver(b)), Commit(0, reason));
            && w.log == [a, b] && w.overridden == {a.id}
            && InForce(w.log, w.overridden, a.key) == Some(ToRecord(b))
            && a.key !in w.core.active
  {
    hide Project;
    var w1 := Do(Start(), Deliver(a));
    assert w1.log == [a] && w1.core == Core(map[a.key := ToRecord(a)], {a.id});
    var w2 := Do(w1, Find(a.key));
    assert w2.pending == [ToRecord(a)];
    var w3 := Do(w2, Deliver(b));
    assert w3.log == [a] + [b] == [a, b] && w3.core.active == map[a.key := ToRecord(b)];
    LatestAppend([a], b, a.key);
  }

  lemma RunSnoc(ops: seq<Op>, op: Op)
    ensures Run(ops + [op]) == Do(Run(ops), op) && Run([]) == Start()
  {
    assert (ops + [op])[..|ops|] == ops;
  }
}
