/**
 * Every interleaving of reads, loads, invalidations and database writes over
 * one replica of the read cache, and what all of them keep.
 */
module ReadCacheProtocol {
  import opened MemoryStore
  import opened ReadCache

  datatype Outcome = Value(version: nat) | Failed

  /** A loader call: it reads the database at some moment, resolves, and its promise settles later. */
  datatype Progress = Running | Seen(version: nat) | Loaded(version: nat) | Settled(outcome: Outcome)

  datatype Load = Load(ks: Keyspace, key: string, generation: nat, healthy: bool, shared: bool,
                       startedAt: nat, progress: Progress)

  datatype Phase = Hit(value: Cached) | Missed(healthy: bool) | Waiting(load: nat) | Answered(load: nat)

  datatype Call = Call(ks: Keyspace, key: string, beganAt: nat, phase: Phase)

  /** What an outside observer sees, in order. */
  datatype Event =
    | Began(call: nat, ks: Keyspace)
    | Started(load: nat, ks: Keyspace)
    | Invalidated(ks: Keyspace)
    | Wrote(ks: Keyspace, version: nat)
    | Returned(call: nat, load: nat, outcome: Outcome)

  datatype State = State(local: Local, db: map<Keyspace, nat>, loads: seq<Load>, calls: seq<Call>, trace: seq<Event>)

  datatype Step =
    | Request(ks: Keyspace, key: string, bypass: bool, storeFails: bool, now: int)
    | Resume(call: nat)
    | ReadDatabase(load: nat)
    | FinishLoad(load: nat, ttlMs: int, now: int)
    | FailLoad(load: nat)
    | Settle(load: nat)
    | Finally(load: nat)
    | Return(call: nat)
    | InvalidateKeyspaces(keyspaces: seq<Keyspace>)
    | RemoteNotice(ks: Keyspace, own: bool)
    | WriteDatabase(ks: Keyspace)

  function Version(s: State, ks: Keyspace): nat {
    if ks in s.db then s.db[ks] else 0
  }

  function Gen(s: State, ks: Keyspace): nat {
    Generation(s.local.generations, ks)
  }

  function Init(capacity: nat): State {
    State(Local([], capacity, map[], map[]), map[], [], [], [])
  }

  function DoRequest(s: State, ks: Keyspace, key: string, bypass: bool, storeFails: bool, now: int): State {
    var c, l, at := |s.calls|, |s.loads|, |s.trace|;
    if bypass then
      s.(calls := s.calls + [Call(ks, key, at, Waiting(l))],
         loads := s.loads + [Load(ks, key, Gen(s, ks), false, false, at + 1, Running)],
         trace := s.trace + [Began(c, ks), Started(l, ks)])
    else
      var began := s.(trace := s.trace + [Began(c, ks)]);
      var fullKey := FullKey(ks, key);
      if storeFails && fullKey !in s.local.inFlight then
        began.(calls := s.calls + [Call(ks, key, at, Missed(false))])
      else
        var (first, local) := FirstLook(s.local, fullKey, now);
        var phase := match first
                     case Joins(load) => Waiting(load)
                     case Hits(value) => Hit(value)
                     case Misses => Missed(true);
        began.(local := local, calls := s.calls + [Call(ks, key, at, phase)])
  }

  function DoResume(s: State, c: nat): State
    requires c < |s.calls|
  {
    var call := s.calls[c];
    match call.phase
    case Hit(value) =>
      s.(calls := s.calls[c := call.(phase := Answered(value.load))],
         trace := s.trace + [Returned(c, value.load, Value(value.version))])
    case Missed(healthy) =>
      var fullKey := FullKey(call.ks, call.key);
      if fullKey in s.local.inFlight then
        s.(calls := s.calls[c := call.(phase := Waiting(s.local.inFlight[fullKey].load))])
      else
        var l := |s.loads|;
        s.(local := Register(s.local, fullKey, call.ks, l),
           calls := s.calls[c := call.(phase := Waiting(l))],
           loads := s.loads + [Load(call.ks, call.key, Gen(s, call.ks), healthy, true, |s.trace|, Running)],
           trace := s.trace + [Started(l, call.ks)])
    case _ => s
  }

  function Progressed(s: State, l: nat, p: Progress): State
    requires l < |s.loads|
  {
    s.(loads := s.loads[l := s.loads[l].(progress := p)])
  }

  function DoFinish(s: State, l: nat, ttlMs: int, now: int): State
    requires l < |s.loads| && s.loads[l].progress.Seen?
  {
    var load := s.loads[l];
    var v := load.progress.version;
    Progressed(s, l, Loaded(v)).(local :=
      WriteBack(s.local, FullKey(load.ks, load.key), load.ks, load.generation, load.healthy, Cached(l, v), ttlMs, now))
  }

  function Invalidations(keyspaces: seq<Keyspace>): (es: seq<Event>)
    ensures |es| == |keyspaces|
    ensures forall i :: 0 <= i < |es| ==> es[i] == Invalidated(keyspaces[i])
  {
    seq(|keyspaces|, i requires 0 <= i < |keyspaces| => Invalidated(keyspaces[i]))
  }

  /** One step; a step that is not enabled leaves the state as it is. */
  function Do(s: State, step: Step): State {
    match step
    case Request(ks, key, bypass, storeFails, now) => DoRequest(s, ks, key, bypass, storeFails, now)
    case Resume(c) => if c < |s.calls| then DoResume(s, c) else s
    case ReadDatabase(l) =>
      if l < |s.loads| && s.loads[l].progress.Running? then Progressed(s, l, Seen(Version(s, s.loads[l].ks))) else s
    case FinishLoad(l, ttlMs, now) =>
      if l < |s.loads| && s.loads[l].progress.Seen? then DoFinish(s, l, ttlMs, now) else s
    case FailLoad(l) =>
      if l < |s.loads| && (s.loads[l].progress.Running? || s.loads[l].progress.Seen?)
      then Progressed(s, l, Settled(Failed)) else s
    case Settle(l) =>
      if l < |s.loads| && s.loads[l].progress.Loaded?
      then Progressed(s, l, Settled(Value(s.loads[l].progress.version))) else s
    case Finally(l) =>
      if l < |s.loads| && s.loads[l].shared && s.loads[l].progress.Settled?
      then s.(local := CleanUp(s.local, FullKey(s.loads[l].ks, s.loads[l].key), l)) else s
    case Return(c) =>
      if c < |s.calls| && s.calls[c].phase.Waiting? && s.calls[c].phase.load < |s.loads|
         && s.loads[s.calls[c].phase.load].progress.Settled?
      then
        var l := s.calls[c].phase.load;
        s.(calls := s.calls[c := s.calls[c].(phase := Answered(l))],
           trace := s.trace + [Returned(c, l, s.loads[l].progress.outcome)])
      else s
    case InvalidateKeyspaces(keyspaces) =>
      s.(local := InvalidateAll(s.local, keyspaces), trace := s.trace + Invalidations(keyspaces))
    case RemoteNotice(ks, own) =>
      if own then s else s.(local := Invalidate(s.local, ks), trace := s.trace + [Invalidated(ks)])
    case WriteDatabase(ks) =>
      s.(db := s.db[ks := Version(s, ks) + 1], trace := s.trace + [Wrote(ks, Version(s, ks) + 1)])
  }

  function Run(capacity: nat, steps: seq<Step>): State {
    if steps == [] then Init(capacity) else Do(Run(capacity, steps[..|steps| - 1]), steps[|steps| - 1])
  }

  // ---------------------------------------------------------------- invariant

  ghost predicate Quiet(trace: seq<Event>, ks: Keyspace, from: nat, to: nat) {
    forall j :: from <= j < to && j < |trace| ==> trace[j] != Invalidated(ks)
  }

  ghost predicate Delivers(load: Load, o: Outcome) {
    || load.progress == Settled(o)
    || (o.Value? && load.progress == Loaded(o.version))
  }

  ghost predicate Saw(load: Load, version: nat) {
    load.progress == Seen(version) || Delivers(load, Value(version))
  }

  ghost predicate LoadOk(s: State, l: nat)
    requires l < |s.loads|
  {
    var x := s.loads[l];
    && x.startedAt < |s.trace| && s.trace[x.startedAt] == Started(l, x.ks)
    && x.generation <= Gen(s, x.ks)
    && (x.generation == Gen(s, x.ks) ==> Quiet(s.trace, x.ks, x.startedAt, |s.trace|))
    && (forall v, i :: Saw(x, v) && 0 <= i < x.startedAt && s.trace[i].Wrote? && s.trace[i].ks == x.ks ==> s.trace[i].version <= v)
    && (x.shared && !x.progress.Settled? && x.generation == Gen(s, x.ks) ==>
          FullKey(x.ks, x.key) in s.local.inFlight && s.local.inFlight[FullKey(x.ks, x.key)].load == l)
  }

  /** The stored entry or flight under `fullKey` comes from load `l`, which no invalidation has overtaken. */
  ghost predicate Current(s: State, fullKey: string, l: nat) {
    && l < |s.loads|
    && fullKey == FullKey(s.loads[l].ks, s.loads[l].key)
    && s.loads[l].generation == Gen(s, s.loads[l].ks)
  }

  ghost predicate EntryOk(s: State, e: Entry<Cached>) {
    Current(s, e.key, e.value.load) && Delivers(s.loads[e.value.load], Value(e.value.version))
  }

  ghost predicate FlightOk(s: State, k: string)
    requires k in s.local.inFlight
  {
    var f := s.local.inFlight[k];
    Current(s, k, f.load) && s.loads[f.load].shared && s.loads[f.load].ks == f.keyspace
  }

  ghost predicate ServedBy(s: State, call: Call, l: nat) {
    && l < |s.loads|
    && s.loads[l].ks == call.ks && s.loads[l].key == call.key
    && Quiet(s.trace, call.ks, s.loads[l].startedAt, call.beganAt)
  }

  ghost predicate CallOk(s: State, c: nat)
    requires c < |s.calls|
  {
    var call := s.calls[c];
    && call.beganAt < |s.trace| && s.trace[call.beganAt] == Began(c, call.ks)
    && match call.phase
       case Hit(v) => ServedBy(s, call, v.load) && Delivers(s.loads[v.load], Value(v.version))
       case Missed(_) => true
       case Waiting(l) => ServedBy(s, call, l)
       case Answered(l) => ServedBy(s, call, l)
  }

  ghost predicate EventOk(s: State, j: nat)
    requires j < |s.trace|
  {
    match s.trace[j]
    case Began(c, _) => c < |s.calls| && s.calls[c].beganAt == j
    case Started(l, _) => l < |s.loads| && s.loads[l].startedAt == j
    case Invalidated(_) => true
    case Wrote(ks, v) => v <= Version(s, ks)
    case Returned(c, l, o) =>
      && c < |s.calls| && s.calls[c].phase == Answered(l)
      && l < |s.loads| && Delivers(s.loads[l], o)
  }

  ghost predicate Racing(a: Load, b: Load) {
    && a.shared && b.shared && !a.progress.Settled? && !b.progress.Settled?
    && a.ks == b.ks && a.key == b.key && a.generation == b.generation
  }

  ghost predicate SingleFlight(s: State) {
    forall l, l' :: 0 <= l < |s.loads| && 0 <= l' < |s.loads| && Racing(s.loads[l], s.loads[l']) ==> l == l'
  }

  ghost predicate Inv(s: State) {
    && (forall l :: 0 <= l < |s.loads| ==> LoadOk(s, l))
    && (forall e :: e in s.local.store ==> EntryOk(s, e))
    && (forall k :: k in s.local.inFlight ==> FlightOk(s, k))
    && (forall c :: 0 <= c < |s.calls| ==> CallOk(s, c))
    && (forall j :: 0 <= j < |s.trace| ==> EventOk(s, j))
    && SingleFlight(s)
  }

  // ---------------------------------------------------------------- every step keeps it

  ghost predicate Advances(a: Load, b: Load) {
    && b.(progress := a.progress) == a
    && (a.progress.Settled? ==> b == a)
    && (a.progress.Loaded? ==> b == a || b.progress == Settled(Value(a.progress.version)))
  }

  /** What no step ever takes back. */
  ghost predicate Grows(s: State, t: State) {
    && s.trace <= t.trace
    && |s.loads| <= |t.loads| && (forall l :: 0 <= l < |s.loads| ==> Advances(s.loads[l], t.loads[l]))
    && |s.calls| <= |t.calls|
    && (forall c :: 0 <= c < |s.calls| ==>
          && t.calls[c].(phase := s.calls[c].phase) == s.calls[c]
          && (s.calls[c].phase.Answered? ==> t.calls[c] == s.calls[c]))
    && (forall ks :: Version(s, ks) <= Version(t, ks))
  }

  lemma DeliversFrame(a: Load, b: Load, o: Outcome)
    requires Advances(a, b) && Delivers(a, o)
    ensures Delivers(b, o)
  {
  }

  lemma EventsFrame(s: State, t: State)
    requires Inv(s) && Grows(s, t)
    ensures forall j :: 0 <= j < |s.trace| ==> EventOk(t, j)
  {
    forall j | 0 <= j < |s.trace| ensures EventOk(t, j) {
      assert EventOk(s, j) && s.trace[j] == t.trace[j];
      match s.trace[j] {
        case Returned(c, l, o) => assert Advances(s.loads[l], t.loads[l]);
        case Started(l, _) => assert Advances(s.loads[l], t.loads[l]);
        case _ =>
      }
    }
  }

  lemma ServedFrame(s: State, t: State, call: Call, l: nat)
    requires Grows(s, t) && ServedBy(s, call, l) && call.beganAt < |s.trace|
    ensures ServedBy(t, call, l)
  {
    assert Advances(s.loads[l], t.loads[l]);
  }

  lemma CallFrame(s: State, t: State, c: nat)
    requires Inv(s) && Grows(s, t) && c < |s.calls| && t.calls[c] == s.calls[c]
    ensures CallOk(t, c)
  {
    assert CallOk(s, c);
    match s.calls[c].phase
    case Hit(v) =>
      ServedFrame(s, t, s.calls[c], v.load);
      DeliversFrame(s.loads[v.load], t.loads[v.load], Value(v.version));
    case Missed(_) =>
    case Waiting(l) => ServedFrame(s, t, s.calls[c], l);
    case Answered(l) => ServedFrame(s, t, s.calls[c], l);
  }

  /** A load keeps its guarantees while the trace grows by events that do not invalidate its keyspace. */
  lemma LoadFrame(s: State, t: State, l: nat)
    requires Inv(s) && Grows(s, t) && l < |s.loads| && t.loads[l] == s.loads[l]
    requires Gen(t, s.loads[l].ks) == Gen(s, s.loads[l].ks) && Quiet(t.trace, s.loads[l].ks, |s.trace|, |t.trace|)
    requires
      var k := FullKey(s.loads[l].ks, s.loads[l].key);
      k in s.local.inFlight && s.local.inFlight[k].load == l && !s.loads[l].progress.Settled? ==>
        k in t.local.inFlight && t.local.inFlight[k].load == l
    ensures LoadOk(t, l)
  {
    hide FullKey, Generation;
    assert LoadOk(s, l);
    var x := s.loads[l];
    forall v, i | Saw(x, v) && 0 <= i < x.startedAt && t.trace[i].Wrote? && t.trace[i].ks == x.ks
      ensures t.trace[i].version <= v
    {
      assert s.trace[i] == t.trace[i];
    }
    forall j | x.startedAt <= j < |t.trace| && x.generation == Gen(s, x.ks) ensures t.trace[j] != Invalidated(x.ks) {
      if j < |s.trace| { assert s.trace[j] == t.trace[j]; }
    }
  }

  lemma StoreFrame(s: State, t: State)
    requires Inv(s) && Grows(s, t) && t.local.generations == s.local.generations
    requires forall e :: e in t.local.store ==> e in s.local.store
    ensures forall e :: e in t.local.store ==> EntryOk(t, e)
  {
    hide FullKey, Generation;
    forall e | e in t.local.store ensures EntryOk(t, e) {
      assert EntryOk(s, e);
      assert Advances(s.loads[e.value.load], t.loads[e.value.load]);
    }
  }

  lemma FlightFrame(s: State, t: State, k: string)
    requires Inv(s) && Grows(s, t) && t.local.generations == s.local.generations
    requires k in s.local.inFlight && k in t.local.inFlight && s.local.inFlight[k] == t.local.inFlight[k]
    ensures FlightOk(t, k)
  {
    hide FullKey, Generation;
    assert FlightOk(s, k);
    assert Advances(s.loads[s.local.inFlight[k].load], t.loads[s.local.inFlight[k].load]);
  }

  /** A step that starts no load and leaves generations and loads alone, e.g. the reading side of a call. */
  lemma KeptByReading(s: State, t: State, c: nat)
    requires Inv(s) && Grows(s, t) && t.loads == s.loads && t.db == s.db
    requires t.local.generations == s.local.generations && t.local.inFlight == s.local.inFlight
    requires forall e :: e in t.local.store ==> e in s.local.store
    requires |t.trace| <= |s.trace| + 1
    requires |t.trace| > |s.trace| ==> !t.trace[|s.trace|].Invalidated? && EventOk(t, |s.trace|)
    requires c < |t.calls| <= |s.calls| + 1 && CallOk(t, c)
    requires forall d :: 0 <= d < |t.calls| && d != c ==> d < |s.calls| && t.calls[d] == s.calls[d]
    ensures Inv(t)
  {
    hide FullKey, Generation;
    forall l | 0 <= l < |t.loads| ensures LoadOk(t, l) { LoadFrame(s, t, l); }
    StoreFrame(s, t);
    forall k | k in t.local.inFlight ensures FlightOk(t, k) { FlightFrame(s, t, k); }
    forall d | 0 <= d < |t.calls| ensures CallOk(t, d) {
      if d != c { var call := t.calls[d]; CallFrame(s, t, d); }
    }
    EventsFrame(s, t);
  }

  lemma KeptByRequest(s: State, ks: Keyspace, key: string, storeFails: bool, now: int)
    requires Inv(s)
    ensures Inv(DoRequest(s, ks, key, false, storeFails, now))
  {
    hide FullKey, Generation;
    var t := DoRequest(s, ks, key, false, storeFails, now);
    var fullKey := FullKey(ks, key);
    var c := |s.calls|;
    assert Grows(s, t);
    assert CallOk(t, c) by {
      match t.calls[c].phase
      case Hit(v) =>
        var e :| e in s.local.store && e.key == fullKey && e.value == v;
        assert EntryOk(s, e) && LoadOk(s, v.load);
        FullKeyInjective(ks, key, s.loads[v.load].ks, s.loads[v.load].key);
      case Missed(_) =>
      case Waiting(l) =>
        assert FlightOk(s, fullKey) && LoadOk(s, l);
        FullKeyInjective(ks, key, s.loads[l].ks, s.loads[l].key);
    }
    KeptByReading(s, t, c);
  }

  lemma KeptByReturn(s: State, c: nat)
    requires Inv(s)
    ensures Inv(Do(s, Return(c)))
  {
    hide FullKey, Generation;
    var t := Do(s, Return(c));
    if t != s {
      assert Grows(s, t);
      assert CallOk(s, c);
      ServedFrame(s, t, s.calls[c], s.calls[c].phase.load);
      KeptByReading(s, t, c);
    }
  }

  lemma KeptByHit(s: State, c: nat)
    requires Inv(s) && c < |s.calls| && s.calls[c].phase.Hit?
    ensures Inv(DoResume(s, c))
  {
    hide FullKey, Generation;
    var t := DoResume(s, c);
    assert Grows(s, t) && CallOk(s, c);
    ServedFrame(s, t, s.calls[c], s.calls[c].phase.value.load);
    KeptByReading(s, t, c);
  }

  lemma KeptByRacing(s: State, c: nat)
    requires Inv(s) && c < |s.calls| && s.calls[c].phase.Missed?
    requires FullKey(s.calls[c].ks, s.calls[c].key) in s.local.inFlight
    ensures Inv(DoResume(s, c))
  {
    hide FullKey, Generation;
    var t, call := DoResume(s, c), s.calls[c];
    var k := FullKey(call.ks, call.key);
    var l := s.local.inFlight[k].load;
    assert Grows(s, t) && CallOk(s, c) && FlightOk(s, k) && LoadOk(s, l);
    FullKeyInjective(call.ks, call.key, s.loads[l].ks, s.loads[l].key);
    KeptByReading(s, t, c);
  }

  /** Starting a load, shared or not: the only load of its key and generation if shared. */
  lemma KeptByStarting(s: State, t: State, c: nat)
    requires Inv(s) && Grows(s, t) && t.db == s.db
    requires t.local.generations == s.local.generations && t.local.store == s.local.store
    requires |t.loads| == |s.loads| + 1 && t.loads[..|s.loads|] == s.loads
    requires |s.trace| < |t.trace| <= |s.trace| + 2
    requires forall j :: |s.trace| <= j < |t.trace| ==> !t.trace[j].Invalidated? && EventOk(t, j)
    requires
      var x := t.loads[|s.loads|];
      && x.progress.Running? && x.generation == Gen(s, x.ks)
      && |s.trace| <= x.startedAt < |t.trace| && t.trace[x.startedAt] == Started(|s.loads|, x.ks)
      && (if x.shared
          then FullKey(x.ks, x.key) !in s.local.inFlight
               && t.local.inFlight == s.local.inFlight[FullKey(x.ks, x.key) := Flight(x.ks, |s.loads|)]
          else t.local.inFlight == s.local.inFlight)
    requires c < |t.calls| <= |s.calls| + 1 && CallOk(t, c)
    requires forall d :: 0 <= d < |t.calls| && d != c ==> d < |s.calls| && t.calls[d] == s.calls[d]
    ensures Inv(t)
  {
    hide FullKey, Generation;
    var n := |s.loads|;
    var x := t.loads[n];
    forall l | 0 <= l < |t.loads| ensures LoadOk(t, l) {
      if l < n { assert t.loads[l] == s.loads[l]; LoadFrame(s, t, l); }
    }
    StoreFrame(s, t);
    forall k | k in t.local.inFlight ensures FlightOk(t, k) {
      if !(x.shared && k == FullKey(x.ks, x.key)) { FlightFrame(s, t, k); }
    }
    forall d | 0 <= d < |t.calls| ensures CallOk(t, d) {
      if d != c { var call := t.calls[d]; CallFrame(s, t, d); }
    }
    EventsFrame(s, t);
    forall l | 0 <= l < n ensures !Racing(t.loads[l], x) && !Racing(x, t.loads[l]) { assert LoadOk(s, l); }
    forall l, l' | 0 <= l < |t.loads| && 0 <= l' < |t.loads| && Racing(t.loads[l], t.loads[l']) ensures l == l' {
      if l < n && l' < n { assert Racing(s.loads[l], s.loads[l']); }
    }
  }

  lemma KeptByBypass(s: State, ks: Keyspace, key: string, storeFails: bool, now: int)
    requires Inv(s)
    ensures Inv(DoRequest(s, ks, key, true, storeFails, now))
  {
    hide FullKey, Generation;
    var t := DoRequest(s, ks, key, true, storeFails, now);
    assert Grows(s, t);
    assert t.trace[|s.trace|] == Began(|s.calls|, ks) && t.trace[|s.trace| + 1] == Started(|s.loads|, ks);
    KeptByStarting(s, t, |s.calls|);
  }

  lemma KeptByMiss(s: State, c: nat)
    requires Inv(s) && c < |s.calls| && s.calls[c].phase.Missed?
    requires FullKey(s.calls[c].ks, s.calls[c].key) !in s.local.inFlight
    ensures Inv(DoResume(s, c))
  {
    hide FullKey, Generation;
    var t := DoResume(s, c);
    assert CallOk(s, c) && Grows(s, t);
    assert t.trace[|s.trace|] == Started(|s.loads|, s.calls[c].ks);
    KeptByStarting(s, t, c);
  }

  /** How one load may move on. */
  ghost predicate MovesOn(s: State, t: State, l: nat)
    requires l < |s.loads| && |t.loads| == |s.loads|
  {
    var p, q := s.loads[l].progress, t.loads[l].progress;
    && t.loads[l] == s.loads[l].(progress := q)
    && (|| (p.Running? && q == Seen(Version(s, s.loads[l].ks)))
        || (p.Seen? && q == Loaded(p.version))
        || ((p.Running? || p.Seen?) && q == Settled(Failed))
        || (p.Loaded? && q == Settled(Value(p.version))))
  }

  lemma LoadProgressed(s: State, t: State, l: nat)
    requires Inv(s) && l < |s.loads| && |t.loads| == |s.loads|
    requires t == s.(loads := s.loads[l := t.loads[l]], local := s.local.(store := t.local.store)) && MovesOn(s, t, l)
    ensures LoadOk(t, l)
  {
    hide FullKey, Generation;
    var x := t.loads[l];
    assert LoadOk(s, l);
    forall v, j | Saw(x, v) && 0 <= j < x.startedAt && t.trace[j].Wrote? && t.trace[j].ks == x.ks
      ensures t.trace[j].version <= v
    {
      assert EventOk(s, j);
      assert s.loads[l].progress.Running? || Saw(s.loads[l], v);
    }
  }

  /** A load moves on; its result reaches the store only while its generation is current. */
  lemma KeptByProgress(s: State, t: State, l: nat)
    requires Inv(s) && l < |s.loads| && |t.loads| == |s.loads|
    requires t == s.(loads := s.loads[l := t.loads[l]], local := s.local.(store := t.local.store)) && MovesOn(s, t, l)
    requires forall e :: e in t.local.store ==> e in s.local.store || EntryOk(t, e)
    ensures Inv(t)
  {
    hide FullKey, Generation, LoadOk, CallOk, FlightOk, EventOk;
    assert Grows(s, t);
    forall i | 0 <= i < |t.loads| ensures LoadOk(t, i) {
      if i != l { LoadFrame(s, t, i); } else { LoadProgressed(s, t, l); }
    }
    forall e | e in t.local.store ensures EntryOk(t, e) {
      if e in s.local.store {
        assert EntryOk(s, e) && Advances(s.loads[e.value.load], t.loads[e.value.load]);
      }
    }
    forall k | k in t.local.inFlight ensures FlightOk(t, k) { FlightFrame(s, t, k); }
    forall d | 0 <= d < |t.calls| ensures CallOk(t, d) { CallFrame(s, t, d); }
    EventsFrame(s, t);
    forall i, j | 0 <= i < |t.loads| && 0 <= j < |t.loads| && Racing(t.loads[i], t.loads[j]) ensures i == j {
      assert Racing(s.loads[i], s.loads[j]);
    }
  }

  lemma LoadCleanedUp(s: State, t: State, l: nat, i: nat)
    requires Inv(s) && t == Do(s, Finally(l)) && Grows(s, t) && i < |s.loads|
    ensures LoadOk(t, i)
  {
    hide Inv, LoadOk, FullKey, Generation;
    LoadFrame(s, t, i);
  }

  lemma KeptByFinally(s: State, l: nat)
    requires Inv(s)
    ensures Inv(Do(s, Finally(l)))
  {
    hide FullKey, Generation;
    var t := Do(s, Finally(l));
    assert Grows(s, t);
    forall i | 0 <= i < |t.loads| ensures LoadOk(t, i) { LoadCleanedUp(s, t, l, i); }
    StoreFrame(s, t);
    forall k | k in t.local.inFlight ensures FlightOk(t, k) { FlightFrame(s, t, k); }
    forall d | 0 <= d < |t.calls| ensures CallOk(t, d) { CallFrame(s, t, d); }
    EventsFrame(s, t);
  }

  /** A load of another keyspace is not touched; one of this keyspace is no longer current. */
  lemma LoadInvalidated(s: State, t: State, ks: Keyspace, l: nat)
    requires Inv(s) && Grows(s, t) && l < |s.loads|
    requires t == s.(local := Invalidate(s.local, ks), trace := s.trace + [Invalidated(ks)])
    ensures LoadOk(t, l)
  {
    hide FullKey, WithoutKeyspace;
    assert LoadOk(s, l);
    var x := s.loads[l];
    if x.ks != ks {
      var k := FullKey(x.ks, x.key);
      if k in s.local.inFlight { assert FlightOk(s, k); }
      LoadFrame(s, t, l);
    } else {
      forall v, i | Saw(x, v) && 0 <= i < x.startedAt && t.trace[i].Wrote? && t.trace[i].ks == x.ks
        ensures t.trace[i].version <= v
      {
        assert s.trace[i] == t.trace[i];
      }
    }
  }

  /** What survives in the store is of another keyspace, whose generation has not moved. */
  lemma EntriesInvalidated(s: State, t: State, ks: Keyspace)
    requires Inv(s) && t == s.(local := Invalidate(s.local, ks), trace := s.trace + [Invalidated(ks)])
    ensures forall e :: e in t.local.store ==> EntryOk(t, e)
  {
    forall e | e in t.local.store ensures EntryOk(t, e) {
      assert EntryOk(s, e);
      PrefixDecidesKeyspace(ks, s.loads[e.value.load].ks, s.loads[e.value.load].key);
    }
  }

  lemma KeptByInvalidate(s: State, ks: Keyspace)
    requires Inv(s)
    ensures Inv(s.(local := Invalidate(s.local, ks), trace := s.trace + [Invalidated(ks)]))
  {
    hide FullKey, WithoutKeyspace;
    var t := s.(local := Invalidate(s.local, ks), trace := s.trace + [Invalidated(ks)]);
    assert Grows(s, t);
    forall l | 0 <= l < |t.loads| ensures LoadOk(t, l) { LoadInvalidated(s, t, ks, l); }
    EntriesInvalidated(s, t, ks);
    forall k | k in t.local.inFlight ensures FlightOk(t, k) { assert FlightOk(s, k); }
    forall d | 0 <= d < |t.calls| ensures CallOk(t, d) { CallFrame(s, t, d); }
    EventsFrame(s, t);
  }

  lemma {:induction false} KeptByInvalidateAll(s: State, keyspaces: seq<Keyspace>)
    requires Inv(s)
    ensures Inv(Do(s, InvalidateKeyspaces(keyspaces)))
  {
    hide Inv, Invalidate;
    if keyspaces == [] {
      assert s.trace + Invalidations(keyspaces) == s.trace;
    } else {
      var init, last := keyspaces[..|keyspaces| - 1], keyspaces[|keyspaces| - 1];
      KeptByInvalidateAll(s, init);
      var m := Do(s, InvalidateKeyspaces(init));
      KeptByInvalidate(m, last);
      assert s.trace + Invalidations(keyspaces) == m.trace + [Invalidated(last)];
    }
  }

  lemma KeptByWrite(s: State, ks: Keyspace)
    requires Inv(s)
    ensures Inv(Do(s, WriteDatabase(ks)))
  {
    hide FullKey, Generation;
    var t := Do(s, WriteDatabase(ks));
    assert Grows(s, t);
    forall l | 0 <= l < |t.loads| ensures LoadOk(t, l) { LoadFrame(s, t, l); }
    StoreFrame(s, t);
    forall k | k in t.local.inFlight ensures FlightOk(t, k) { FlightFrame(s, t, k); }
    forall d | 0 <= d < |t.calls| ensures CallOk(t, d) { CallFrame(s, t, d); }
    EventsFrame(s, t);
  }

  lemma KeptByFinish(s: State, l: nat, ttlMs: int, now: int)
    requires Inv(s) && l < |s.loads| && s.loads[l].progress.Seen?
    ensures Inv(DoFinish(s, l, ttlMs, now))
  {
    hide FullKey;
    KeptByProgress(s, DoFinish(s, l, ttlMs, now), l);
  }

  /** Every step keeps the invariant. */
  lemma InvariantKept(s: State, step: Step)
    requires Inv(s)
    ensures Inv(Do(s, step))
  {
    hide Inv;
    var t := Do(s, step);
    if t != s {
      match step
      case Request(ks, key, bypass, storeFails, now) =>
        if bypass { KeptByBypass(s, ks, key, storeFails, now); } else { KeptByRequest(s, ks, key, storeFails, now); }
      case Resume(c) =>
        if s.calls[c].phase.Hit? { KeptByHit(s, c); }
        else if FullKey(s.calls[c].ks, s.calls[c].key) in s.local.inFlight { KeptByRacing(s, c); }
        else { KeptByMiss(s, c); }
      case ReadDatabase(l) => KeptByProgress(s, t, l);
      case FinishLoad(l, ttlMs, now) => KeptByFinish(s, l, ttlMs, now);
      case FailLoad(l) => KeptByProgress(s, t, l);
      case Settle(l) => KeptByProgress(s, t, l);
      case Finally(l) => KeptByFinally(s, l);
      case Return(c) => KeptByReturn(s, c);
      case InvalidateKeyspaces(keyspaces) => KeptByInvalidateAll(s, keyspaces);
      case RemoteNotice(ks, own) => KeptByInvalidate(s, ks);
      case WriteDatabase(ks) => KeptByWrite(s, ks);
    }
  }

  lemma {:induction false} InvariantHolds(capacity: nat, steps: seq<Step>)
    ensures Inv(Run(capacity, steps))
  {
    if steps != [] {
      InvariantHolds(capacity, steps[..|steps| - 1]);
      InvariantKept(Run(capacity, steps[..|steps| - 1]), steps[|steps| - 1]);
    }
  }

  // ---------------------------------------------------------------- what observers may rely on

  /** A read that begins after an invalidation is only ever answered by a load started after it. */
  lemma NoStaleAnswer(capacity: nat, steps: seq<Step>, started: nat, invalidated: nat, began: nat, returned: nat,
                      ks: Keyspace, c: nat, l: nat, o: Outcome)
    requires var tr := Run(capacity, steps).trace;
             && invalidated < began < |tr| && started < |tr| && returned < |tr|
             && tr[invalidated] == Invalidated(ks) && tr[began] == Began(c, ks)
             && tr[returned] == Returned(c, l, o) && tr[started] == Started(l, ks)
    ensures invalidated < started
  {
    var s := Run(capacity, steps);
    InvariantHolds(capacity, steps);
    assert EventOk(s, started) && EventOk(s, began) && EventOk(s, returned);
    assert CallOk(s, c);
    assert Quiet(s.trace, ks, started, began);
  }

  /** Write, invalidate, read: the reader sees that write or a later one. */
  lemma ReadsSeeInvalidatedWrites(capacity: nat, steps: seq<Step>, wrote: nat, invalidated: nat, began: nat, returned: nat,
                                  ks: Keyspace, version: nat, c: nat, l: nat, seen: nat)
    requires var tr := Run(capacity, steps).trace;
             && wrote < invalidated < began < |tr| && returned < |tr|
             && tr[wrote] == Wrote(ks, version) && tr[invalidated] == Invalidated(ks) && tr[began] == Began(c, ks)
             && tr[returned] == Returned(c, l, Value(seen))
    ensures version <= seen
  {
    var s := Run(capacity, steps);
    InvariantHolds(capacity, steps);
    assert EventOk(s, began) && EventOk(s, returned);
    assert CallOk(s, c) && LoadOk(s, l);
    NoStaleAnswer(capacity, steps, s.loads[l].startedAt, invalidated, began, returned, ks, c, l, Value(seen));
    assert Saw(s.loads[l], seen);
  }

  /** At most one shared loader runs for a key and generation, and everyone served by a load gets one outcome. */
  lemma OneLoadOneOutcome(capacity: nat, steps: seq<Step>)
    ensures SingleFlight(Run(capacity, steps))
    ensures var tr := Run(capacity, steps).trace;
            forall i, j | 0 <= i < |tr| && 0 <= j < |tr| && tr[i].Returned? && tr[j].Returned? && tr[i].load == tr[j].load ::
              tr[i].outcome == tr[j].outcome
  {
    var s := Run(capacity, steps);
    InvariantHolds(capacity, steps);
    forall i, j | 0 <= i < |s.trace| && 0 <= j < |s.trace| && s.trace[i].Returned? && s.trace[j].Returned? && s.trace[i].load == s.trace[j].load
      ensures s.trace[i].outcome == s.trace[j].outcome
    {
      assert EventOk(s, i) && EventOk(s, j);
    }
  }
}
