/** The shared overrides blob under WATCH/MULTI/EXEC from any number of instances, in any interleaving. */
module RuleStore {
  import opened Common
  import opened AbuseRules

  const MAX_ATTEMPTS := 5

  /** One `update` call; `seenAt` is the key's version when the command ran. */
  datatype Client =
    | Ready(m: Mutation, attempt: nat)
    | Watching(m: Mutation, attempt: nat, watched: nat)
    | Prepared(m: Mutation, attempt: nat, watched: nat, seenAt: nat, next: Overrides)
    | Done(m: Mutation, value: Overrides)
    | GaveUp(m: Mutation)

  /** Writes to the key, in order: a committed update or an edit by hand. */
  datatype Write = Committed(client: nat, m: Mutation, blob: Json) | Edited(blob: Json)

  datatype State = State(initial: Json, log: seq<Write>, clients: seq<Client>)

  /** The blob after `n` writes. */
  function BlobAt(initial: Json, log: seq<Write>, n: nat): Json
    requires n <= |log|
  {
    if n == 0 then initial else log[n - 1].blob
  }

  function Blob(s: State): Json { BlobAt(s.initial, s.log, |s.log|) }

  /** What an update must write, given the blob it replaces. */
  function Updated(blob: Json, m: Mutation): Overrides {
    Sanitize(ToJson(Mutate(Sanitize(blob), m)))
  }

  datatype Step = Begin(m: Mutation) | Watch(c: nat) | Read(c: nat) | Exec(c: nat) | Abandon(c: nat) | Edit(blob: Json)

  function Do(s: State, step: Step): State {
    match step
    case Begin(m) => s.(clients := s.clients + [Ready(m, 0)])
    case Watch(c) =>
      if c < |s.clients| && s.clients[c].Ready? then
        var Ready(m, attempt) := s.clients[c];
        s.(clients := s.clients[c := if attempt < MAX_ATTEMPTS then Watching(m, attempt, |s.log|) else GaveUp(m)])
      else s
    case Read(c) =>
      if c < |s.clients| && s.clients[c].Watching? then
        var Watching(m, attempt, watched) := s.clients[c];
        s.(clients := s.clients[c := Prepared(m, attempt, watched, |s.log|, Updated(Blob(s), m))])
      else s
    case Exec(c) =>
      if c < |s.clients| && s.clients[c].Prepared? then
        var Prepared(m, attempt, watched, _, next) := s.clients[c];
        if watched == |s.log|
        then s.(log := s.log + [Committed(c, m, ToJson(next))], clients := s.clients[c := Done(m, next)])
        else s.(clients := s.clients[c := Ready(m, attempt + 1)])
      else s
    case Abandon(c) =>
      // reading or mutating threw
      if c < |s.clients| && s.clients[c].Watching? then s.(clients := s.clients[c := GaveUp(s.clients[c].m)]) else s
    case Edit(blob) => s.(log := s.log + [Edited(blob)])
  }

  function Run(initial: Json, steps: seq<Step>): State {
    if steps == [] then State(initial, [], [])
    else Do(Run(initial, steps[..|steps| - 1]), steps[|steps| - 1])
  }

  /** Each committed value is the sanitised mutation of the value before it. */
  ghost predicate Linked(initial: Json, log: seq<Write>) {
    forall i :: 0 <= i < |log| && log[i].Committed? ==> log[i].blob == ToJson(Updated(BlobAt(initial, log, i), log[i].m))
  }

  ghost predicate ClientOk(s: State, c: nat)
    requires c < |s.clients|
  {
    match s.clients[c]
    case Ready(_, attempt) => attempt <= MAX_ATTEMPTS
    case Watching(_, attempt, watched) => attempt < MAX_ATTEMPTS && watched <= |s.log|
    case Prepared(m, attempt, watched, seenAt, next) =>
      attempt < MAX_ATTEMPTS && watched <= seenAt <= |s.log| && next == Updated(BlobAt(s.initial, s.log, seenAt), m)
    case Done(m, value) => exists i :: 0 <= i < |s.log| && s.log[i] == Committed(c, m, ToJson(value))
    case GaveUp(_) => true
  }

  ghost predicate Inv(s: State) {
    && Linked(s.initial, s.log)
    && (forall c :: 0 <= c < |s.clients| ==> ClientOk(s, c))
    && (forall i :: 0 <= i < |s.log| && s.log[i].Committed? ==> s.log[i].client < |s.clients| && s.clients[s.log[i].client].Done?)
    && (forall i, j :: 0 <= i < j < |s.log| && s.log[i].Committed? && s.log[j].Committed? ==> s.log[i].client != s.log[j].client)
  }

  lemma BlobFrame(initial: Json, log: seq<Write>, w: Write, n: nat)
    requires n <= |log|
    ensures BlobAt(initial, log + [w], n) == BlobAt(initial, log, n)
  {
  }

  lemma ClientFrame(s: State, t: State, w: Write, d: nat)
    requires d < |s.clients| && d < |t.clients| && t.clients[d] == s.clients[d] && ClientOk(s, d)
    requires t.initial == s.initial && t.log == s.log + [w]
    ensures ClientOk(t, d)
  {
    match s.clients[d]
    case Prepared(m, attempt, watched, seenAt, next) => BlobFrame(s.initial, s.log, w, seenAt);
    case Done(m, value) =>
      var i :| 0 <= i < |s.log| && s.log[i] == Committed(d, m, ToJson(value));
      assert t.log[i] == s.log[i];
    case _ =>
  }

  lemma LinkedStep(initial: Json, log: seq<Write>, w: Write)
    requires Linked(initial, log)
    requires w.Committed? ==> w.blob == ToJson(Updated(BlobAt(initial, log, |log|), w.m))
    ensures Linked(initial, log + [w])
  {
    hide Sanitize, ToJson, Mutate;
    forall i | 0 <= i < |log + [w]| && (log + [w])[i].Committed?
      ensures (log + [w])[i].blob == ToJson(Updated(BlobAt(initial, log + [w], i), (log + [w])[i].m))
    {
      BlobFrame(initial, log, w, i);
      if i < |log| { assert log[i].Committed?; }
    }
  }

  lemma KeptByCommit(s: State, t: State, c: nat, w: Write)
    requires Inv(s) && c < |s.clients| && s.clients[c].Prepared? && s.clients[c].watched == |s.log|
    requires w == Committed(c, s.clients[c].m, ToJson(s.clients[c].next))
    requires t == s.(log := s.log + [w], clients := s.clients[c := Done(s.clients[c].m, s.clients[c].next)])
    ensures Inv(t)
  {
    hide Sanitize, ToJson, Mutate;
    assert ClientOk(s, c);
    assert s.clients[c].seenAt == |s.log|;
    LinkedStep(s.initial, s.log, w);
    forall d | 0 <= d < |t.clients| ensures ClientOk(t, d) {
      if d != c { assert ClientOk(s, d); ClientFrame(s, t, w, d); } else { assert t.log[|s.log|] == w; }
    }
    CommitsDistinct(s, t, c, w);
  }

  lemma CommitsDistinct(s: State, t: State, c: nat, w: Write)
    requires Inv(s) && c < |s.clients| && !s.clients[c].Done? && w.Committed? && w.client == c
    requires t.log == s.log + [w] && |t.clients| == |s.clients| && t.clients[c].Done?
    requires forall d :: 0 <= d < |t.clients| && d != c ==> t.clients[d] == s.clients[d]
    ensures forall i :: 0 <= i < |t.log| && t.log[i].Committed? ==> t.log[i].client < |t.clients| && t.clients[t.log[i].client].Done?
    ensures forall i, j :: 0 <= i < j < |t.log| && t.log[i].Committed? && t.log[j].Committed? ==> t.log[i].client != t.log[j].client
  {
    forall i | 0 <= i < |s.log| && s.log[i].Committed? ensures t.log[i] == s.log[i] && s.log[i].client != c {
    }
  }

  lemma KeptByEdit(s: State, blob: Json)
    requires Inv(s)
    ensures Inv(Do(s, Edit(blob)))
  {
    hide Sanitize, ToJson, Mutate;
    var t := Do(s, Edit(blob));
    LinkedStep(s.initial, s.log, Edited(blob));
    forall d | 0 <= d < |t.clients| ensures ClientOk(t, d) { assert ClientOk(s, d); ClientFrame(s, t, Edited(blob), d); }
  }

  lemma KeptByClient(s: State, t: State, c: nat)
    requires Inv(s) && c < |t.clients| && t == s.(clients := t.clients) && ClientOk(t, c)
    requires |s.clients| <= |t.clients| && (c < |s.clients| ==> !s.clients[c].Done?)
    requires forall d :: 0 <= d < |t.clients| && d != c ==> d < |s.clients| && t.clients[d] == s.clients[d]
    ensures Inv(t)
  {
    hide Sanitize, ToJson, Mutate;
    forall d | 0 <= d < |t.clients| ensures ClientOk(t, d) {
      if d != c { var same := t.clients[d]; assert ClientOk(s, d); }
    }
    forall i | 0 <= i < |t.log| && t.log[i].Committed?
      ensures t.log[i].client < |t.clients| && t.clients[t.log[i].client].Done?
    {
      assert s.log[i].Committed?;
      var same := t.clients[t.log[i].client];
    }
  }

  lemma InvariantKept(s: State, step: Step)
    requires Inv(s)
    ensures Inv(Do(s, step))
  {
    hide Sanitize, ToJson, Mutate;
    var t := Do(s, step);
    if t != s {
      match step
      case Begin(m) => KeptByClient(s, t, |s.clients|);
      case Watch(c) => assert ClientOk(s, c); KeptByClient(s, t, c);
      case Read(c) => assert ClientOk(s, c); KeptByClient(s, t, c);
      case Exec(c) =>
        assert ClientOk(s, c);
        if s.clients[c].watched == |s.log| {
          KeptByCommit(s, t, c, Committed(c, s.clients[c].m, ToJson(s.clients[c].next)));
        } else { KeptByClient(s, t, c); }
      case Abandon(c) => assert ClientOk(s, c); KeptByClient(s, t, c);
      case Edit(blob) => KeptByEdit(s, blob);
    }
  }

  lemma {:induction false} InvariantHolds(initial: Json, steps: seq<Step>)
    ensures Inv(Run(initial, steps)) && Run(initial, steps).initial == initial
  {
    if steps != [] {
      InvariantHolds(initial, steps[..|steps| - 1]);
      InvariantKept(Run(initial, steps[..|steps| - 1]), steps[|steps| - 1]);
    }
  }

  /** The value of a sequential store that applies the writes one after another. */
  function Sequential(initial: Json, log: seq<Write>): Overrides {
    if log == [] then Sanitize(initial)
    else
      var last := log[|log| - 1];
      match last
      case Committed(_, m, _) => Sanitize(ToJson(Mutate(Sequential(initial, log[..|log| - 1]), m)))
      case Edited(blob) => Sanitize(blob)
  }

  lemma {:induction false} SequentialAgrees(initial: Json, log: seq<Write>)
    requires Linked(initial, log)
    ensures Sanitize(BlobAt(initial, log, |log|)) == Sequential(initial, log)
  {
    hide Sanitize, ToJson, Mutate;
    if log != [] {
      var init, last := log[..|log| - 1], log[|log| - 1];
      forall i | 0 <= i < |init| && init[i].Committed?
        ensures init[i].blob == ToJson(Updated(BlobAt(initial, init, i), init[i].m))
      {
        assert BlobAt(initial, init, i) == BlobAt(initial, log, i);
        assert log[i].Committed?;
      }
      SequentialAgrees(initial, init);
      assert BlobAt(initial, init, |init|) == BlobAt(initial, log, |init|);
      if last.Committed? {
        SanitizeIdempotent(ToJson(Mutate(Sequential(initial, init), last.m)));
      }
    }
  }

  /** An update that returned is in the log exactly once, with the value it returned; every other one is not. */
  ghost predicate WrittenOnce(s: State, c: nat)
    requires c < |s.clients|
  {
    if s.clients[c].Done?
    then exists i {:trigger s.log[i]} :: 0 <= i < |s.log| && s.log[i] == Committed(c, s.clients[c].m, ToJson(s.clients[c].value))
           && forall j :: 0 <= j < |s.log| && j != i && s.log[j].Committed? ==> s.log[j].client != c
    else forall j :: 0 <= j < |s.log| && s.log[j].Committed? ==> s.log[j].client != c
  }

  /**
   * Linearizability. Whatever the interleaving, the stored value is what a
   * sequential store holds after the same writes, each update that returned
   * being one of them and no other.
   */
  lemma UpdatesLinearize(initial: Json, steps: seq<Step>)
    ensures var s := Run(initial, steps);
            && Sanitize(Blob(s)) == Sequential(initial, s.log)
            && forall c :: 0 <= c < |s.clients| ==> WrittenOnce(s, c)
  {
    hide Sanitize, ToJson, Mutate;
    var s := Run(initial, steps);
    InvariantHolds(initial, steps);
    SequentialAgrees(initial, s.log);
    forall c | 0 <= c < |s.clients| ensures WrittenOnce(s, c) {
      assert ClientOk(s, c);
      if s.clients[c].Done? {
        var i :| 0 <= i < |s.log| && s.log[i] == Committed(c, s.clients[c].m, ToJson(s.clients[c].value));
        assert forall j :: 0 <= j < |s.log| && j != i && s.log[j].Committed? ==> s.log[j].client != c;
      }
    }
  }

  /** An update that nobody interrupts commits: the mutation of the stored value is stored and returned. */
  lemma UpdateCompletes(s: State, c: nat)
    requires c < |s.clients| && s.clients[c].Ready? && s.clients[c].attempt < MAX_ATTEMPTS
    ensures var m, t := s.clients[c].m, Do(Do(Do(s, Watch(c)), Read(c)), Exec(c));
            var value := Updated(Blob(s), m);
            && t.clients == s.clients[c := Done(m, value)] && t.log == s.log + [Committed(c, m, ToJson(value))]
            && Blob(t) == ToJson(value)
  {
    hide Updated, ToJson;
  }

  /** One that somebody interrupts tries again, until its attempts are used up. */
  lemma UpdateRetries(s: State, c: nat, blob: Json)
    requires c < |s.clients| && s.clients[c].Ready? && s.clients[c].attempt <= MAX_ATTEMPTS
    ensures var m, n, t := s.clients[c].m, s.clients[c].attempt, Do(Do(Do(Do(s, Watch(c)), Read(c)), Edit(blob)), Exec(c));
            t.clients == s.clients[c := if n < MAX_ATTEMPTS then Ready(m, n + 1) else GaveUp(m)] && t.log == s.log + [Edited(blob)]
  {
    hide Updated, ToJson;
  }

  // ---------------------------------------------------------------- one instance's retry loop

  /** The key as one updater meets it: between its commands, others write whatever the protocol lets them. */
  class RedisAbuseRulesStore {
    const initial: Json
    var log: seq<Write>

    ghost predicate Valid()
      reads this
    {
      Linked(initial, log)
    }

    /** Any number of writes by others: edits by hand, or commits of their own updates. */
    method OthersWrite(me: nat)
      requires Valid()
      modifies this
      ensures Valid() && NoneOf(me, old(log), log)
    {
      hide Sanitize, ToJson, Mutate;
      var writes: nat := *;
      var i := 0;
      while i < writes
        invariant Valid() && NoneOf(me, old(log), log)
      {
        var w: Write := *;
        if w.Committed? {
          w := w.(client := if w.client == me then me + 1 else w.client,
                  blob := ToJson(Updated(BlobAt(initial, log, |log|), w.m)));
        }
        LinkedStep(initial, log, w);
        log := log + [w];
        i := i + 1;
      }
    }

    /** One attempt: WATCH, GET, then MULTI/SET/EXEC, which fails if the key changed since WATCH. */
    method Attempt(me: nat, m: Mutation) returns (result: Option<Overrides>)
      requires Valid()
      modifies this
      ensures Valid()
      // it fails only when somebody else has written
      ensures result.None? ==> NoneOf(me, old(log), log) && |log| > |old(log)|
      ensures result.Some? ==> LandedLast(me, m, result.value, initial, old(log), log)
    {
      OthersWrite(me);
      ghost var l1 := log;
      var watched := |log|;
      OthersWrite(me);
      ghost var l2 := log;
      var next := Updated(BlobAt(initial, log, |log|), m);
      OthersWrite(me);
      NoneOfChain(me, old(log), l1, l2);
      NoneOfChain(me, old(log), l2, log);
      if |log| != watched { return None; }
      assert log == l2;
      CommitLands(me, m, next, initial, old(log), log);
      log := log + [Committed(me, m, ToJson(next))];
      return Some(next);
    }

    /** The retry loop: an update that gives up has written nothing, one that returns has written once, last. */
    method UpdateOnce(me: nat, m: Mutation, maxAttempts: nat) returns (result: Option<Overrides>)
      requires Valid()
      modifies this
      ensures Valid()
      // it gives up only when somebody else has written during every attempt
      ensures result.None? ==> NoneOf(me, old(log), log) && |log| >= |old(log)| + maxAttempts
      ensures result.Some? ==> LandedLast(me, m, result.value, initial, old(log), log)
    {
      hide Linked, Updated, ToJson;
      result := None;
      var attempt := 0;
      while attempt < maxAttempts
        invariant Valid() && NoneOf(me, old(log), log) && result.None?
        invariant 0 <= attempt <= maxAttempts && |log| >= |old(log)| + attempt
      {
        ghost var before := log;
        result := Attempt(me, m);
        if result.Some? {
          NoneOfChain(me, old(log), before, log[..|log| - 1]);
          return;
        }
        NoneOfChain(me, old(log), before, log);
        attempt := attempt + 1;
      }
    }
  }

  /** `b` extends `a` by writes of others only. */
  ghost predicate NoneOf(me: nat, a: seq<Write>, b: seq<Write>) {
    a <= b && forall i :: |a| <= i < |b| && b[i].Committed? ==> b[i].client != me
  }

  /** The update's one write is the newest, and it is applied to the very value it replaced. */
  ghost predicate LandedLast(me: nat, m: Mutation, value: Overrides, initial: Json, a: seq<Write>, b: seq<Write>) {
    && |b| > 0 && NoneOf(me, a, b[..|b| - 1])
    && b[|b| - 1] == Committed(me, m, ToJson(value))
    && value == Updated(BlobAt(initial, b, |b| - 1), m)
  }

  lemma CommitLands(me: nat, m: Mutation, next: Overrides, initial: Json, a: seq<Write>, log: seq<Write>)
    requires Linked(initial, log) && NoneOf(me, a, log) && next == Updated(BlobAt(initial, log, |log|), m)
    ensures var log' := log + [Committed(me, m, ToJson(next))];
            Linked(initial, log') && LandedLast(me, m, next, initial, a, log')
  {
    var w := Committed(me, m, ToJson(next));
    LinkedStep(initial, log, w);
    BlobFrame(initial, log, w, |log|);
    assert (log + [w])[..|log|] == log;
  }

  lemma NoneOfChain(me: nat, a: seq<Write>, b: seq<Write>, c: seq<Write>)
    requires NoneOf(me, a, b) && NoneOf(me, b, c)
    ensures NoneOf(me, a, c)
  {
    forall i | |a| <= i < |c| && c[i].Committed? ensures c[i].client != me {
      if i < |b| { assert c[i] == b[i]; }
    }
  }
}
