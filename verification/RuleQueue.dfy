/** One WATCH per connection, shared by the updates of an instance, and the in-process queue that makes this safe. */
module RuleQueue {
  import opened AbuseRules
  import RuleStore

  /** `conns[c]` is the connection of update `c`; `watch` holds the version each watching connection saw. */
  datatype State = State(store: RuleStore.State, conns: seq<nat>, watch: map<nat, nat>)

  datatype Step =
    | Begin(conn: nat, m: Mutation)
    | Watch(c: nat)
    | Read(c: nat)
    | Exec(c: nat)
    | Abandon(c: nat)
    | Edit(blob: Json)

  predicate Finished(client: RuleStore.Client) { client.Done? || client.GaveUp? }

  predicate Busy(client: RuleStore.Client) { client.Watching? || client.Prepared? }

  /** With the queue, an update runs only once every earlier update of its connection has finished. */
  predicate Admitted(s: State, c: nat, queued: bool) {
    c < |s.conns| && c < |s.store.clients|
    && (queued ==> forall d :: 0 <= d < c && s.conns[d] == s.conns[c] ==> Finished(s.store.clients[d]))
  }

  /** EXEC succeeds unless the connection is watching and the key has changed; either way it stops watching. */
  function Commit(s: State, c: nat): State
    requires c < |s.conns| && c < |s.store.clients| && s.store.clients[c].Prepared?
  {
    var k, client := s.conns[c], s.store.clients[c];
    var passes := k !in s.watch || s.watch[k] == |s.store.log|;
    var store :=
      if passes then
        s.store.(log := s.store.log + [RuleStore.Committed(c, client.m, ToJson(client.next))],
                 clients := s.store.clients[c := RuleStore.Done(client.m, client.next)])
      else s.store.(clients := s.store.clients[c := RuleStore.Ready(client.m, client.attempt + 1)]);
    s.(store := store, watch := s.watch - {k})
  }

  function Do(s: State, step: Step, queued: bool): State {
    match step
    case Begin(conn, m) => s.(store := RuleStore.Do(s.store, RuleStore.Begin(m)), conns := s.conns + [conn])
    case Watch(c) =>
      if Admitted(s, c, queued) && s.store.clients[c].Ready? then
        var store := RuleStore.Do(s.store, RuleStore.Watch(c));
        var k := s.conns[c];
        // WATCH on a key already watched changes nothing
        s.(store := store, watch := if store.clients[c].Watching? && k !in s.watch then s.watch[k := |s.store.log|] else s.watch)
      else s
    case Read(c) => if Admitted(s, c, queued) then s.(store := RuleStore.Do(s.store, RuleStore.Read(c))) else s
    case Exec(c) => if Admitted(s, c, queued) && s.store.clients[c].Prepared? then Commit(s, c) else s
    case Abandon(c) =>
      if Admitted(s, c, queued) && s.store.clients[c].Watching?
      then s.(store := RuleStore.Do(s.store, RuleStore.Abandon(c)), watch := s.watch - {s.conns[c]}) else s
    case Edit(blob) => s.(store := RuleStore.Do(s.store, RuleStore.Edit(blob)))
  }

  function Run(initial: Json, steps: seq<Step>, queued: bool): State {
    if steps == [] then State(RuleStore.State(initial, [], []), [], map[])
    else Do(Run(initial, steps[..|steps| - 1], queued), steps[|steps| - 1], queued)
  }

  // ---------------------------------------------------------------- with the queue

  /** Only the first unfinished update of a connection is under way, and the connection watches what that update saw. */
  ghost predicate ClientInv(s: State, c: nat)
    requires c < |s.conns| == |s.store.clients|
  {
    Busy(s.store.clients[c]) ==>
      && s.conns[c] in s.watch && s.watch[s.conns[c]] == s.store.clients[c].watched
      && forall d :: 0 <= d < c && s.conns[d] == s.conns[c] ==> Finished(s.store.clients[d])
  }

  ghost predicate Watcher(s: State, k: nat, c: nat) {
    c < |s.conns| && c < |s.store.clients| && s.conns[c] == k && Busy(s.store.clients[c])
  }

  ghost predicate Inv(s: State) {
    && |s.conns| == |s.store.clients|
    && (forall c :: 0 <= c < |s.conns| ==> ClientInv(s, c))
    && (forall k :: k in s.watch ==> exists c: nat :: Watcher(s, k, c))
  }

  /** No other update of the connection is under way. */
  lemma Alone(s: State, c: nat, d: nat)
    requires Inv(s) && Admitted(s, c, true) && !Finished(s.store.clients[c])
    requires d < |s.conns| && d != c && s.conns[d] == s.conns[c]
    ensures !Busy(s.store.clients[d])
  {
    assert ClientInv(s, d);
  }

  lemma NotWatching(s: State, c: nat)
    requires Inv(s) && Admitted(s, c, true) && s.store.clients[c].Ready?
    ensures s.conns[c] !in s.watch
  {
    forall d | 0 <= d < |s.conns| && s.conns[d] == s.conns[c] ensures !Busy(s.store.clients[d]) {
      if d != c { Alone(s, c, d); }
    }
    assert forall d :: !Watcher(s, s.conns[c], d);
  }

  /** Replacing one admitted update, and its connection's watch, keeps the invariant. */
  lemma KeptByUpdate(s: State, t: State, c: nat)
    requires Inv(s) && Admitted(s, c, true) && !Finished(s.store.clients[c])
    requires t.conns == s.conns && |t.store.clients| == |s.store.clients|
    requires forall d :: 0 <= d < |s.conns| && d != c ==> t.store.clients[d] == s.store.clients[d]
    requires forall k :: k != s.conns[c] ==> (k in t.watch <==> k in s.watch) && (k in s.watch ==> t.watch[k] == s.watch[k])
    requires if Busy(t.store.clients[c]) then s.conns[c] in t.watch && t.watch[s.conns[c]] == t.store.clients[c].watched
             else s.conns[c] !in t.watch
    ensures Inv(t)
  {
    forall d | 0 <= d < |t.conns| ensures ClientInv(t, d) {
      assert ClientInv(s, d);
      if d != c {
        var same := t.store.clients[d];
        if s.conns[d] == s.conns[c] { Alone(s, c, d); }
      }
    }
    forall k | k in t.watch ensures exists d: nat :: Watcher(t, k, d) {
      if k == s.conns[c] {
        assert Watcher(t, k, c);
      } else {
        var d: nat :| Watcher(s, k, d);
        var same := t.store.clients[d];
        assert Watcher(t, k, d);
      }
    }
  }

  lemma KeptByBegin(s: State, conn: nat, m: Mutation)
    requires Inv(s)
    ensures Inv(Do(s, Begin(conn, m), true))
  {
    var t := Do(s, Begin(conn, m), true);
    forall d | 0 <= d < |t.conns| ensures ClientInv(t, d) {
      if d < |s.conns| { assert ClientInv(s, d); }
    }
    forall k | k in t.watch ensures exists d: nat :: Watcher(t, k, d) {
      var d: nat :| Watcher(s, k, d);
      assert Watcher(t, k, d);
    }
  }

  lemma KeptByEdit(s: State, blob: Json)
    requires Inv(s)
    ensures Inv(Do(s, Edit(blob), true))
  {
    var t := Do(s, Edit(blob), true);
    forall d | 0 <= d < |t.conns| ensures ClientInv(t, d) { assert ClientInv(s, d); }
    forall k | k in t.watch ensures exists d: nat :: Watcher(t, k, d) {
      var d: nat :| Watcher(s, k, d);
      assert Watcher(t, k, d);
    }
  }

  lemma InvariantKept(s: State, step: Step)
    requires Inv(s)
    ensures Inv(Do(s, step, true))
  {
    hide Sanitize, ToJson, Mutate;
    var t := Do(s, step, true);
    match step
    case Begin(conn, m) => KeptByBegin(s, conn, m);
    case Edit(blob) => KeptByEdit(s, blob);
    case Watch(c) =>
      if Admitted(s, c, true) && s.store.clients[c].Ready? { NotWatching(s, c); KeptByUpdate(s, t, c); }
    case Read(c) =>
      if Admitted(s, c, true) && s.store.clients[c].Watching? { assert ClientInv(s, c); KeptByUpdate(s, t, c); }
    case Exec(c) =>
      if Admitted(s, c, true) && s.store.clients[c].Prepared? { KeptByUpdate(s, t, c); }
    case Abandon(c) =>
      if Admitted(s, c, true) && s.store.clients[c].Watching? { KeptByUpdate(s, t, c); }
  }

  /** The same step of the store in which every update has a WATCH of its own, none if the queue holds it back. */
  function Abstract(s: State, step: Step): seq<RuleStore.Step> {
    match step
    case Begin(_, m) => [RuleStore.Begin(m)]
    case Watch(c) => if Admitted(s, c, true) then [RuleStore.Watch(c)] else []
    case Read(c) => if Admitted(s, c, true) then [RuleStore.Read(c)] else []
    case Exec(c) => if Admitted(s, c, true) then [RuleStore.Exec(c)] else []
    case Abandon(c) => if Admitted(s, c, true) then [RuleStore.Abandon(c)] else []
    case Edit(blob) => [RuleStore.Edit(blob)]
  }

  lemma StepRefines(s: State, step: Step)
    requires Inv(s)
    ensures var a := Abstract(s, step);
            Do(s, step, true).store == if a == [] then s.store else RuleStore.Do(s.store, a[0])
  {
    hide Sanitize, ToJson, Mutate;
    if step.Exec? && Admitted(s, step.c, true) { assert ClientInv(s, step.c); }
  }

  /**
   * With the queue, sharing one connection is as good as a WATCH per update:
   * every run is a run of the store in which each update watches on its own.
   */
  lemma {:induction false} QueueRefines(initial: Json, steps: seq<Step>) returns (own: seq<RuleStore.Step>)
    ensures Inv(Run(initial, steps, true)) && Run(initial, steps, true).store == RuleStore.Run(initial, own)
  {
    if steps == [] {
      own := [];
    } else {
      var init, step := steps[..|steps| - 1], steps[|steps| - 1];
      var before := QueueRefines(initial, init);
      var s := Run(initial, init, true);
      InvariantKept(s, step);
      StepRefines(s, step);
      var a := Abstract(s, step);
      own := before + a;
      if a == [] {
        assert own == before;
      } else {
        assert own == before + [a[0]] && own[..|own| - 1] == before;
      }
    }
  }

  /** So queued updates linearize as updates with a WATCH of their own do. */
  lemma QueuedUpdatesLinearize(initial: Json, steps: seq<Step>)
    ensures var s := Run(initial, steps, true).store;
            && Sanitize(RuleStore.Blob(s)) == RuleStore.Sequential(initial, s.log)
            && forall c :: 0 <= c < |s.clients| ==> RuleStore.WrittenOnce(s, c)
  {
    hide Sanitize, RuleStore.WrittenOnce;
    var own := QueueRefines(initial, steps);
    RuleStore.UpdatesLinearize(initial, own);
  }

  /** The first unfinished update of a connection is let through, and commits if nobody interrupts it. */
  lemma FirstCompletes(initial: Json, steps: seq<Step>, c: nat)
    requires var s := Run(initial, steps, true);
             && c < |s.conns| && c < |s.store.clients| && s.store.clients[c].Ready? && s.store.clients[c].attempt < RuleStore.MAX_ATTEMPTS
             && forall d :: 0 <= d < c && s.conns[d] == s.conns[c] ==> s.store.clients[d].Done? || s.store.clients[d].GaveUp?
    ensures var s := Run(initial, steps, true);
            var t := Do(Do(Do(s, Watch(c), true), Read(c), true), Exec(c), true);
            t.store.clients[c] == RuleStore.Done(s.store.clients[c].m, RuleStore.Updated(RuleStore.Blob(s.store), s.store.clients[c].m))
            && RuleStore.Blob(t.store) == ToJson(t.store.clients[c].value)
  {
    hide RuleStore.Updated, ToJson, Run;
    var own := QueueRefines(initial, steps);
    var s := Run(initial, steps, true);
    NotWatching(s, c);
    var a := Do(s, Watch(c), true);
    assert Admitted(s, c, true) && a.watch[s.conns[c]] == |s.store.log|;
    var b := Do(a, Read(c), true);
    assert Admitted(a, c, true) && Admitted(b, c, true);
  }

  // ---------------------------------------------------------------- without it

  lemma Snoc(initial: Json, steps: seq<Step>, step: Step)
    ensures Run(initial, steps + [step], false) == Do(Run(initial, steps, false), step, false)
    ensures Run(initial, [], false) == State(RuleStore.State(initial, [], []), [], map[])
  {
    assert (steps + [step])[..|steps|] == steps;
  }

  lemma BothBegin(initial: Json, m: Mutation, n: Mutation) returns (steps: seq<Step>)
    ensures Run(initial, steps, false) == State(RuleStore.State(initial, [], [RuleStore.Ready(m, 0), RuleStore.Ready(n, 0)]), [0, 0], map[])
  {
    hide Run, RuleStore.Updated, ToJson, Admitted;
    Snoc(initial, [], Begin(0, m));
    steps := [] + [Begin(0, m)];
    assert Run(initial, steps, false) == State(RuleStore.State(initial, [], [RuleStore.Ready(m, 0)]), [0], map[]);
    Snoc(initial, steps, Begin(0, n));
    steps := steps + [Begin(0, n)];
  }

  /** Both updates have watched, on the one connection. */
  lemma BothWatch(initial: Json, m: Mutation, n: Mutation) returns (steps: seq<Step>)
    ensures Run(initial, steps, false)
            == State(RuleStore.State(initial, [], [RuleStore.Watching(m, 0, 0), RuleStore.Watching(n, 0, 0)]), [0, 0], map[0 := 0])
  {
    hide Run, RuleStore.Updated, ToJson;
    steps := BothBegin(initial, m, n);
    Snoc(initial, steps, Watch(0));
    steps := steps + [Watch(0)];
    assert Run(initial, steps, false)
        == State(RuleStore.State(initial, [], [RuleStore.Watching(m, 0, 0), RuleStore.Ready(n, 0)]), [0, 0], map[0 := 0]);
    Snoc(initial, steps, Watch(1));
    steps := steps + [Watch(1)];
  }

  /** Two updates interleaved on one connection: the first EXEC clears the WATCH of both, and the second overwrites the first. */
  lemma UnqueuedUpdateIsLost(initial: Json, m: Mutation, n: Mutation) returns (steps: seq<Step>)
    ensures var s := Run(initial, steps, false).store;
            && s.clients == [RuleStore.Done(m, RuleStore.Updated(initial, m)), RuleStore.Done(n, RuleStore.Updated(initial, n))]
            && RuleStore.Blob(s) == ToJson(RuleStore.Updated(initial, n))
  {
    hide Run, RuleStore.Updated, ToJson;
    var a, b := RuleStore.Updated(initial, m), RuleStore.Updated(initial, n);
    steps := BothWatch(initial, m, n);
    Snoc(initial, steps, Read(0));
    steps := steps + [Read(0)];
    assert Run(initial, steps, false)
        == State(RuleStore.State(initial, [], [RuleStore.Prepared(m, 0, 0, 0, a), RuleStore.Watching(n, 0, 0)]), [0, 0], map[0 := 0]);
    Snoc(initial, steps, Read(1));
    steps := steps + [Read(1)];
    assert Run(initial, steps, false)
        == State(RuleStore.State(initial, [], [RuleStore.Prepared(m, 0, 0, 0, a), RuleStore.Prepared(n, 0, 0, 0, b)]), [0, 0], map[0 := 0]);
    Snoc(initial, steps, Exec(0));
    steps := steps + [Exec(0)];
    assert Run(initial, steps, false)
        == State(RuleStore.State(initial, [RuleStore.Committed(0, m, ToJson(a))], [RuleStore.Done(m, a), RuleStore.Prepared(n, 0, 0, 0, b)]), [0, 0], map[]);
    Snoc(initial, steps, Exec(1));
    steps := steps + [Exec(1)];
  }
}
