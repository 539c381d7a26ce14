/** One instance's effective rules: local changes, remote changes and background refreshes in any interleaving. */
module RuleRefresh {
  import opened Common
  import opened AbuseRules

  datatype Local = Local(base: Rules, rules: Rules, generation: nat, refreshing: Option<nat>)

  function FinishChange(l: Local, o: Overrides): Local {
    l.(generation := l.generation + 1, rules := Merge(l.base, o))
  }

  function BeginRefresh(l: Local): Local {
    if l.refreshing.Some? then l else l.(refreshing := Some(l.generation))
  }

  /** A loaded value counts only if no local change finished since the refresh began. */
  function LandRefresh(l: Local, o: Overrides): Local {
    l.(refreshing := None, rules := if l.refreshing == Some(l.generation) then Merge(l.base, o) else l.rules)
  }

  class AbuseScoreService {
    const baseRules: Rules
    var rules: Rules
    var rulesGeneration: nat
    var rulesRefresh: Option<nat>

    ghost function View(): Local
      reads this
    {
      Local(baseRules, rules, rulesGeneration, rulesRefresh)
    }

    constructor (baseRules: Rules)
      ensures View() == Local(baseRules, baseRules, 0, None)
    {
      this.baseRules, rules, rulesGeneration, rulesRefresh := baseRules, baseRules, 0, None;
    }

    method ApplyOverrides(o: Overrides)
      modifies this`rules
      ensures rules == Merge(baseRules, o)
    {
      rules := Merge(baseRules, o);
    }

    /** `changeRule` after the store has committed. */
    method ChangeCommitted(o: Overrides)
      modifies this
      ensures View() == FinishChange(old(View()), o)
    {
      rulesGeneration := rulesGeneration + 1;
      ApplyOverrides(o);
    }

    method RefreshRules()
      modifies this
      ensures View() == BeginRefresh(old(View()))
    {
      if rulesRefresh.None? { rulesRefresh := Some(rulesGeneration); }
    }

    method RefreshLoaded(o: Overrides)
      modifies this
      ensures View() == LandRefresh(old(View()), o)
    {
      if rulesRefresh == Some(rulesGeneration) { ApplyOverrides(o); }
      rulesRefresh := None;
    }

    /** The load failed or timed out: keep the current rules. */
    method RefreshFailed()
      modifies this
      ensures View() == old(View()).(refreshing := None)
    {
      rulesRefresh := None;
    }
  }

  // ---------------------------------------------------------------- interleavings

  /**
   * `chain` holds the store's values in commit order. `snapshot` is the index
   * the running load has read, `pending` a local change committed but not yet
   * resumed (the store queues local updates, so there is at most one),
   * `completed` the local changes whose callers have their answer, and `shown`
   * the index behind the effective rules, -1 while nothing was ever loaded.
   */
  datatype World = World(chain: seq<Overrides>, local: Local, snapshot: Option<nat>, pending: Option<nat>, completed: seq<nat>, shown: int)

  datatype Step = StartRefresh | LoadReads | RefreshLands | RefreshTimesOut | CommitLocal(m: Mutation) | FinishLocal | CommitRemote(m: Mutation)

  function Head(w: World): nat
    requires |w.chain| > 0
  {
    |w.chain| - 1
  }

  function Do(w: World, step: Step): World
    requires |w.chain| > 0
  {
    match step
    case StartRefresh => w.(local := BeginRefresh(w.local))
    case LoadReads => if w.local.refreshing.Some? && w.snapshot.None? then w.(snapshot := Some(Head(w))) else w
    case RefreshLands =>
      if w.snapshot.Some? && w.snapshot.value < |w.chain| then
        w.(local := LandRefresh(w.local, w.chain[w.snapshot.value]), snapshot := None,
           shown := if w.local.refreshing == Some(w.local.generation) then w.snapshot.value else w.shown)
      else w
    case RefreshTimesOut => w.(local := w.local.(refreshing := None), snapshot := None)
    case CommitLocal(m) =>
      if w.pending.None?
      then w.(chain := w.chain + [Stored(Mutate(w.chain[Head(w)], m))], pending := Some(|w.chain|)) else w
    case FinishLocal =>
      if w.pending.Some? && w.pending.value < |w.chain| then
        w.(local := FinishChange(w.local, w.chain[w.pending.value]), pending := None,
           completed := w.completed + [w.pending.value], shown := w.pending.value)
      else w
    case CommitRemote(m) => w.(chain := w.chain + [Stored(Mutate(w.chain[Head(w)], m))])
  }

  function Run(base: Rules, initial: Overrides, steps: seq<Step>): (w: World)
    ensures |w.chain| > 0
    decreases |steps|
  {
    if steps == [] then World([initial], Local(base, base, 0, None), None, None, [], -1)
    else
      var w := Run(base, initial, steps[..|steps| - 1]);
      Do(w, steps[|steps| - 1])
  }

  ghost predicate NotBefore(w: World, at: int) {
    forall k :: k in w.completed ==> k <= at
  }

  ghost predicate Inv(base: Rules, w: World) {
    && |w.chain| > 0 && w.local.base == base && -1 <= w.shown < |w.chain|
    && w.local.rules == (if w.shown < 0 then base else Merge(base, w.chain[w.shown]))
    && NotBefore(w, w.shown)
    && (w.local.refreshing.Some? ==> w.local.refreshing.value <= w.local.generation)
    && (w.snapshot.Some? ==> w.local.refreshing.Some? && w.snapshot.value < |w.chain|)
    && (w.snapshot.Some? && w.local.refreshing == Some(w.local.generation) ==>
          NotBefore(w, w.snapshot.value) && w.shown <= w.snapshot.value)
    && (w.pending.Some? ==> w.pending.value < |w.chain| && NotBefore(w, w.pending.value))
  }

  lemma InvariantKept(base: Rules, w: World, step: Step)
    requires Inv(base, w)
    ensures Inv(base, Do(w, step))
  {
    hide Merge, Stored, Mutate;
  }

  /** Once a local change has returned, the effective rules are those of its commit or of a later one, for ever. */
  lemma {:induction false} ReadYourWrites(base: Rules, initial: Overrides, steps: seq<Step>)
    ensures var w := Run(base, initial, steps);
            && Inv(base, w)
            && (w.completed != [] ==> 0 <= w.shown < |w.chain| && w.local.rules == Merge(base, w.chain[w.shown]))
            && forall k :: k in w.completed ==> k <= w.shown
  {
    hide Merge, Stored, Mutate;
    if steps != [] {
      var w := Run(base, initial, steps[..|steps| - 1]);
      ReadYourWrites(base, initial, steps[..|steps| - 1]);
      InvariantKept(base, w, steps[|steps| - 1]);
    }
    var w := Run(base, initial, steps);
    if w.completed != [] { assert w.completed[0] in w.completed; }
  }

  lemma RunSnoc(base: Rules, initial: Overrides, steps: seq<Step>, step: Step)
    ensures Run(base, initial, steps + [step]) == Do(Run(base, initial, steps), step)
    ensures Run(base, initial, []) == World([initial], Local(base, base, 0, None), None, None, [], -1)
  {
    assert (steps + [step])[..|steps|] == steps;
  }

  /**
   * In every run, the effective rules go back to an older commit exactly when a
   * local change resumes after a refresh has already shown a later commit.
   */
  lemma GoesBackIff(base: Rules, initial: Overrides, steps: seq<Step>, step: Step)
    ensures var w := Run(base, initial, steps);
            Do(w, step).shown < w.shown <==> step.FinishLocal? && w.pending.Some? && w.pending.value < w.shown
  {
    hide Merge, Stored, Mutate;
    ReadYourWrites(base, initial, steps);
  }

  /** A refresh that nothing interrupts shows the newest commit, whoever made it. */
  lemma RefreshShows(base: Rules, initial: Overrides, steps: seq<Step>)
    requires var w := Run(base, initial, steps); w.local.refreshing.None?
    ensures var w := Run(base, initial, steps);
            var t := Do(Do(Do(w, StartRefresh), LoadReads), RefreshLands);
            t.shown == |w.chain| - 1 && t.local.rules == Merge(base, w.chain[|w.chain| - 1]) && t.chain == w.chain && t.local.refreshing.None?
  {
    hide Merge, Run;
    ReadYourWrites(base, initial, steps);
    var w := Run(base, initial, steps);
    var started := Do(w, StartRefresh);
    assert started == w.(local := w.local.(refreshing := Some(w.local.generation)));
    var read := Do(started, LoadReads);
    assert read == started.(snapshot := Some(|w.chain| - 1));
  }

  /** One that a local change overtakes, or that fails, leaves the effective rules as they are. */
  lemma OvertakenRefreshIgnored(base: Rules, initial: Overrides, steps: seq<Step>)
    ensures var w := Run(base, initial, steps);
            && Do(w, RefreshTimesOut).local.rules == w.local.rules
            && (w.local.refreshing != Some(w.local.generation) ==> Do(w, RefreshLands).local.rules == w.local.rules && Do(w, RefreshLands).shown == w.shown)
  {
    hide Merge, Stored, Mutate;
  }

  function Weight(x: real): Mutation { Patch(DustIntent, map["weight" := Num(x)]) }

  lemma WeightStored(o: Overrides, x: real)
    requires Clean(o) && x >= 0.0
    ensures var next := Stored(Mutate(o, Weight(x)));
            Clean(next) && DustIntent in next && "weight" in next[DustIntent] && next[DustIntent]["weight"] == Num(x)
  {
    hide Sanitize, ToJson, ValidatePatch, Clean;
    WeightValid(x);
    ValidatedChangeKept(o, DustIntent, JObj(map["weight" := JNum(x)]));
  }

  lemma WeightValid(x: real)
    requires x >= 0.0
    ensures ValidatePatch(DustIntent, JObj(map["weight" := JNum(x)])) == Some(map["weight" := Num(x)])
  {
    var body := JObj(map["weight" := JNum(x)]);
    assert "weight" in body.members && "weight" in Fields(DustIntent);
    assert FieldOk(DustIntent, "weight", body.members["weight"]);
    assert forall f :: f in body.members ==> f == "weight";
    assert body.members != map[];
    assert (map f | f in body.members :: ToValue(body.members[f])) == map["weight" := Num(x)];
  }

  function EffectiveWeight(w: World): Option<Value> {
    if DustIntent in w.local.rules && "weight" in w.local.rules[DustIntent] then Some(w.local.rules[DustIntent]["weight"]) else None
  }

  lemma WeightMerged(base: Rules, o: Overrides, x: real)
    requires DustIntent in base && DustIntent in o && "weight" in o[DustIntent] && o[DustIntent]["weight"] == Num(x)
    ensures var r := Merge(base, o); DustIntent in r && "weight" in r[DustIntent] && r[DustIntent]["weight"] == Num(x)
  {
  }

  /** A run that does: a refresh shows a remote change of a weight, and an earlier local one then hides it again. */
  lemma RemoteChangeMayFlicker(base: Rules, initial: Overrides, x: real, y: real) returns (steps: seq<Step>)
    requires DustIntent in base && Clean(initial) && x >= 0.0 && y >= 0.0
    ensures EffectiveWeight(Run(base, initial, steps)) == Some(Num(y))
    ensures EffectiveWeight(Run(base, initial, steps + [FinishLocal])) == Some(Num(x))
  {
    WeightStored(initial, x);
    var local := Stored(Mutate(initial, Weight(x)));
    WeightStored(local, y);
    var remote := Stored(Mutate(local, Weight(y)));
    WeightMerged(base, local, x);
    WeightMerged(base, remote, y);
    steps := Flicker(base, initial, Weight(x), Weight(y), local, remote);
  }

  lemma Flicker(base: Rules, initial: Overrides, m: Mutation, n: Mutation, local: Overrides, remote: Overrides) returns (steps: seq<Step>)
    requires local == Stored(Mutate(initial, m)) && remote == Stored(Mutate(local, n))
    ensures Run(base, initial, steps).local.rules == Merge(base, remote)
    ensures Run(base, initial, steps + [FinishLocal]).local.rules == Merge(base, local)
  {
    hide Run, Merge, Stored, Mutate;
    RunSnoc(base, initial, [], CommitLocal(m));
    steps := [] + [CommitLocal(m)];
    RunSnoc(base, initial, steps, CommitRemote(n));
    steps := steps + [CommitRemote(n)];
    RunSnoc(base, initial, steps, StartRefresh);
    steps := steps + [StartRefresh];
    RunSnoc(base, initial, steps, LoadReads);
    steps := steps + [LoadReads];
    RunSnoc(base, initial, steps, RefreshLands);
    steps := steps + [RefreshLands];
    RunSnoc(base, initial, steps, FinishLocal);
  }
}
