/** Readiness hysteresis and the timeline of status flips. */
module Health {
  import opened Common

  datatype Status = Up | Down | Ready | NotReady

  const READINESS := "readiness"

  datatype Row = Row(indicator: string, from: Status, to: Status, at: int)

  datatype Cached = Cached(up: bool, critical: bool)

  /** Thresholds; the configuration schema admits only positive ones. */
  datatype Config = Config(failures: int, successes: int)

  predicate Sane(cfg: Config) { cfg.failures >= 1 && cfg.successes >= 1 }

  // ---------------------------------------------------------------- hysteresis

  datatype Streaks = Streaks(evaluated: bool, ready: bool, fails: nat, passes: nat)

  function Judge(s: Streaks, passing: bool, cfg: Config): Streaks {
    var fails := if passing then 0 else s.fails + 1;
    var passes := if passing then s.passes + 1 else 0;
    var ready :=
      if !s.evaluated then passing
      else if s.ready && fails >= cfg.failures then false
      else if !s.ready && passes >= cfg.successes then true
      else s.ready;
    Streaks(true, ready, fails, passes)
  }

  function JudgeAll(verdicts: seq<bool>, cfg: Config): Streaks {
    if verdicts == [] then Streaks(false, false, 0, 0)
    else Judge(JudgeAll(verdicts[..|verdicts| - 1], cfg), verdicts[|verdicts| - 1], cfg)
  }

  /** Readiness after the first `k` evaluations. */
  function ReadyAt(verdicts: seq<bool>, cfg: Config, k: nat): bool
    requires k <= |verdicts|
  {
    JudgeAll(verdicts[..k], cfg).ready
  }

  /** The last `n` of the first `k` verdicts all equal `value`. */
  ghost predicate Window(verdicts: seq<bool>, k: int, n: int, value: bool) {
    n <= k <= |verdicts| && forall i :: 0 <= k - n <= i < k ==> verdicts[i] == value
  }

  lemma {:induction false} StreaksAreWindows(verdicts: seq<bool>, cfg: Config, k: nat)
    requires k <= |verdicts|
    ensures var s := JudgeAll(verdicts[..k], cfg);
            && (s.evaluated <==> k > 0)
            && (forall n: nat :: Window(verdicts, k, n, false) <==> n <= s.fails)
            && (forall n: nat :: Window(verdicts, k, n, true) <==> n <= s.passes)
  {
    if k > 0 {
      assert verdicts[..k][..k - 1] == verdicts[..k - 1];
      StreaksAreWindows(verdicts, cfg, k - 1);
      forall n: nat, value: bool
        ensures Window(verdicts, k, n, value) <==> n == 0 || (verdicts[k - 1] == value && Window(verdicts, k - 1, n - 1, value))
      {
        WindowGrows(verdicts, k, n, value);
      }
    }
  }

  lemma WindowGrows(verdicts: seq<bool>, k: nat, n: nat, value: bool)
    requires 0 < k <= |verdicts|
    ensures Window(verdicts, k, n, value) <==> n == 0 || (verdicts[k - 1] == value && Window(verdicts, k - 1, n - 1, value))
  {
  }

  /** Readiness falls after evaluation `k + 1` exactly at the end of F failing ones, and rises exactly at the end of S passing ones. */
  lemma FlipsIff(verdicts: seq<bool>, cfg: Config, k: nat)
    requires Sane(cfg) && 0 < k < |verdicts|
    ensures ReadyAt(verdicts, cfg, k) ==> (!ReadyAt(verdicts, cfg, k + 1) <==> Window(verdicts, k + 1, cfg.failures, false))
    ensures !ReadyAt(verdicts, cfg, k) ==> (ReadyAt(verdicts, cfg, k + 1) <==> Window(verdicts, k + 1, cfg.successes, true))
  {
    assert verdicts[..k + 1][..k] == verdicts[..k];
    StreaksAreWindows(verdicts, cfg, k);
    StreaksAreWindows(verdicts, cfg, k + 1);
  }

  ghost predicate Flip(verdicts: seq<bool>, cfg: Config, k: int) {
    0 < k < |verdicts| && ReadyAt(verdicts, cfg, k) != ReadyAt(verdicts, cfg, k + 1)
  }

  /** While every verdict equals `value`, readiness does not move away from it. */
  lemma {:induction false} Steady(verdicts: seq<bool>, cfg: Config, i: nat, j: nat, value: bool)
    requires Sane(cfg) && 0 < i <= j <= |verdicts| && Window(verdicts, j, j - i, value)
    requires ReadyAt(verdicts, cfg, i) == value
    ensures ReadyAt(verdicts, cfg, j) == value
  {
    if i < j {
      assert verdicts[j - 1] == value;
      Steady(verdicts, cfg, i, j - 1, value);
      FlipsIff(verdicts, cfg, j - 1);
      var n := if value then cfg.failures else cfg.successes;
      WindowGrows(verdicts, j, n, !value);
    }
  }

  /** Any flip is at least F evaluations after an earlier one when it is a fall, and at least S when it is a rise. */
  lemma FlipsApart(verdicts: seq<bool>, cfg: Config, i: nat, j: nat)
    requires Sane(cfg) && i < j && Flip(verdicts, cfg, i) && Flip(verdicts, cfg, j)
    ensures j - i >= if ReadyAt(verdicts, cfg, j) then cfg.failures else cfg.successes
  {
    var value := !ReadyAt(verdicts, cfg, j);
    var n := if value then cfg.successes else cfg.failures;
    FlipsIff(verdicts, cfg, i);
    FlipsIff(verdicts, cfg, j);
    assert Window(verdicts, j + 1, n, value);
    if j - i < n {
      assert verdicts[i] == value;
      WindowGrows(verdicts, i + 1, if value then cfg.failures else cfg.successes, !value);
      assert ReadyAt(verdicts, cfg, i + 1) == value;
      assert Window(verdicts, j, j - (i + 1), value);
      Steady(verdicts, cfg, i + 1, j, value);
    }
  }

  // ---------------------------------------------------------------- the registry

  datatype State = State(results: map<string, Cached>, streaks: Streaks, timeline: seq<Row>)

  function Record(s: State, cap: Option<nat>, row: Row): State {
    s.(timeline := Trim(s.timeline + [row], cap))
  }

  function StatusOf(up: bool): Status { if up then Up else Down }

  function ReadyStatus(ready: bool): Status { if ready then Ready else NotReady }

  /** The synchronous end of one indicator's check. */
  function Observe(s: State, cap: Option<nat>, name: string, result: Cached, at: int): State {
    var next := s.(results := s.results[name := result]);
    if name in s.results && s.results[name].up != result.up
    then Record(next, cap, Row(name, StatusOf(s.results[name].up), StatusOf(result.up), at))
    else next
  }

  predicate Passing(s: State) {
    forall name :: name in s.results ==> !s.results[name].critical || s.results[name].up
  }

  /** The synchronous end of one evaluation, when all its checks have settled. */
  function Conclude(s: State, cap: Option<nat>, cfg: Config, at: int): State {
    var streaks := Judge(s.streaks, Passing(s), cfg);
    var next := s.(streaks := streaks);
    if s.streaks.ready != streaks.ready
    then Record(next, cap, Row(READINESS, ReadyStatus(s.streaks.ready), ReadyStatus(streaks.ready), at))
    else next
  }

  /** Checks of one evaluation settle in any order, and a slow evaluation may overlap the next. */
  datatype Step = Settle(name: string, result: Cached, at: int) | Finish(at: int)

  function Do(s: State, cap: Option<nat>, cfg: Config, step: Step): State {
    match step
    case Settle(name, result, at) => Observe(s, cap, name, result, at)
    case Finish(at) => Conclude(s, cap, cfg, at)
  }

  function Run(steps: seq<Step>, cap: Option<nat>, cfg: Config): State {
    if steps == [] then State(map[], Streaks(false, false, 0, 0), [])
    else Do(Run(steps[..|steps| - 1], cap, cfg), cap, cfg, steps[|steps| - 1])
  }

  /** The verdict of each finished evaluation. */
  function Verdicts(steps: seq<Step>, cfg: Config): seq<bool> {
    if steps == [] then []
    else
      var init := steps[..|steps| - 1];
      Verdicts(init, cfg) + if steps[|steps| - 1].Finish? then [Passing(Run(init, None, cfg))] else []
  }

  /** Readiness over a run depends on its verdicts alone. */
  lemma {:induction false} ReadinessFollowsVerdicts(steps: seq<Step>, cfg: Config)
    ensures Run(steps, None, cfg).streaks == JudgeAll(Verdicts(steps, cfg), cfg)
  {
    if steps != [] {
      var init, v := steps[..|steps| - 1], Verdicts(steps, cfg);
      ReadinessFollowsVerdicts(init, cfg);
      if steps[|steps| - 1].Finish? {
        assert v[..|v| - 1] == Verdicts(init, cfg);
      } else {
        assert v == Verdicts(init, cfg);
      }
    }
  }

  // ---------------------------------------------------------------- the timeline

  /** The successive flips of a history of statuses. */
  function FlipsOf(history: seq<Status>): seq<(Status, Status)> {
    if |history| < 2 then []
    else
      var n := |history| - 1;
      FlipsOf(history[..n]) + if history[n - 1] != history[n] then [(history[n - 1], history[n])] else []
  }

  /** The moves recorded for one indicator. */
  function Moves(rows: seq<Row>, name: string): seq<(Status, Status)> {
    if rows == [] then []
    else
      var n := |rows| - 1;
      Moves(rows[..n], name) + if rows[n].indicator == name then [(rows[n].from, rows[n].to)] else []
  }

  /** What was observed of one indicator, in order. */
  function Observed(steps: seq<Step>, name: string): seq<Status> {
    if steps == [] then []
    else
      var step := steps[|steps| - 1];
      Observed(steps[..|steps| - 1], name) + if step.Settle? && step.name == name then [StatusOf(step.result.up)] else []
  }

  /** Readiness before the first and after every finished evaluation. */
  function ReadyHistory(steps: seq<Step>, cfg: Config): seq<Status> {
    if steps == [] then [NotReady]
    else ReadyHistory(steps[..|steps| - 1], cfg) + if steps[|steps| - 1].Finish? then [ReadyStatus(Run(steps, None, cfg).streaks.ready)] else []
  }

  lemma FlipsPush(history: seq<Status>, x: Status)
    ensures FlipsOf(history + [x])
            == FlipsOf(history) + if history != [] && history[|history| - 1] != x then [(history[|history| - 1], x)] else []
  {
    assert (history + [x])[..|history|] == history;
  }

  lemma MovesPush(rows: seq<Row>, row: Row, name: string)
    ensures Moves(rows + [row], name) == Moves(rows, name) + if row.indicator == name then [(row.from, row.to)] else []
  {
    assert (rows + [row])[..|rows|] == rows;
  }

  /** The row an observation leaves for `name`, if any. */
  lemma ObserveMoves(s: State, n: string, result: Cached, at: int, name: string)
    ensures Moves(Observe(s, None, n, result, at).timeline, name)
            == Moves(s.timeline, name)
               + if n == name && n in s.results && s.results[n].up != result.up then [(StatusOf(s.results[n].up), StatusOf(result.up))] else []
  {
    if n in s.results && s.results[n].up != result.up {
      MovesPush(s.timeline, Row(n, StatusOf(s.results[n].up), StatusOf(result.up), at), name);
    }
  }

  lemma ConcludeMoves(s: State, cfg: Config, at: int, name: string)
    ensures var ready := Judge(s.streaks, Passing(s), cfg).ready;
            Moves(Conclude(s, None, cfg, at).timeline, name)
            == Moves(s.timeline, name)
               + if name == READINESS && s.streaks.ready != ready then [(ReadyStatus(s.streaks.ready), ReadyStatus(ready))] else []
  {
    var ready := Judge(s.streaks, Passing(s), cfg).ready;
    if s.streaks.ready != ready {
      MovesPush(s.timeline, Row(READINESS, ReadyStatus(s.streaks.ready), ReadyStatus(ready), at), name);
    }
  }

  /** The rows of `name` are the flips of history `o`, which ends at the cached status. */
  ghost predicate Agrees(s: State, name: string, o: seq<Status>) {
    && Moves(s.timeline, name) == FlipsOf(o)
    && if o == [] then name !in s.results else name in s.results && StatusOf(s.results[name].up) == o[|o| - 1]
  }

  lemma SettleAgrees(s: State, name: string, o: seq<Status>, n: string, result: Cached, at: int)
    requires Agrees(s, name, o)
    ensures Agrees(Observe(s, None, n, result, at), name, if n == name then o + [StatusOf(result.up)] else o)
  {
    hide Moves, FlipsOf;
    ObserveMoves(s, n, result, at, name);
    FlipsPush(o, StatusOf(result.up));
  }

  lemma FinishAgrees(s: State, name: string, o: seq<Status>, cfg: Config, at: int)
    requires name != READINESS && Agrees(s, name, o)
    ensures Agrees(Conclude(s, None, cfg, at), name, o)
  {
    hide Moves, FlipsOf, Judge, Passing;
    ConcludeMoves(s, cfg, at, name);
  }

  /** The log holds, for every indicator not called "readiness", exactly the flips of what was observed of it. */
  lemma {:induction false} TimelineIsFlips(steps: seq<Step>, cfg: Config, name: string)
    requires name != READINESS
    ensures Agrees(Run(steps, None, cfg), name, Observed(steps, name))
  {
    if steps != [] {
      TimelineIsFlips(steps[..|steps| - 1], cfg, name);
      NextAgrees(steps, cfg, name);
    }
  }

  lemma NextAgrees(steps: seq<Step>, cfg: Config, name: string)
    requires name != READINESS && steps != []
    requires var init := steps[..|steps| - 1]; Agrees(Run(init, None, cfg), name, Observed(init, name))
    ensures Agrees(Run(steps, None, cfg), name, Observed(steps, name))
  {
    hide Agrees, Observe, Conclude;
    var init, step := steps[..|steps| - 1], steps[|steps| - 1];
    var s, o := Run(init, None, cfg), Observed(init, name);
    match step
    case Settle(n, result, at) =>
      SettleAgrees(s, name, o, n, result, at);
      assert n != name ==> Observed(steps, name) == o;
    case Finish(at) =>
      FinishAgrees(s, name, o, cfg, at);
      assert Observed(steps, name) == o;
  }

  ghost predicate Chained(moves: seq<(Status, Status)>) {
    && (forall i :: 0 <= i < |moves| ==> moves[i].0 != moves[i].1)
    && (forall i :: 0 < i < |moves| ==> moves[i - 1].1 == moves[i].0)
  }

  lemma {:induction false} FlipsChain(history: seq<Status>)
    ensures var f := FlipsOf(history);
            Chained(f) && (f != [] ==> history != [] && f[|f| - 1].1 == history[|history| - 1])
            && (f == [] && history != [] ==> history[0] == history[|history| - 1])
            && (f != [] ==> f[0].0 == history[0])
  {
    if |history| >= 2 { FlipsChain(history[..|history| - 1]); }
  }

  // ---------------------------------------------------------------- the rows called "readiness"

  predicate OfReadiness(status: Status) { status.Ready? || status.NotReady? }

  /** The moves of readiness itself, or those of an indicator that has taken its name. */
  function Part(moves: seq<(Status, Status)>, readiness: bool): seq<(Status, Status)> {
    if moves == [] then []
    else
      var last := moves[|moves| - 1];
      Part(moves[..|moves| - 1], readiness) + if OfReadiness(last.0) == readiness then [last] else []
  }

  lemma PartPush(moves: seq<(Status, Status)>, m: (Status, Status), readiness: bool)
    ensures Part(moves + [m], readiness) == Part(moves, readiness) + if OfReadiness(m.0) == readiness then [m] else []
  {
    assert (moves + [m])[..|moves|] == moves;
  }

  lemma {:induction false} PartsCover(moves: seq<(Status, Status)>)
    ensures |moves| == |Part(moves, true)| + |Part(moves, false)|
    ensures Part(moves, false) == [] ==> Part(moves, true) == moves
    ensures Part(moves, true) == [] ==> Part(moves, false) == moves
  {
    if moves != [] {
      PartsCover(moves[..|moves| - 1]);
      assert moves == moves[..|moves| - 1] + [moves[|moves| - 1]];
    }
  }

  /** No move leads from a status of readiness to one of an indicator, or back. */
  ghost predicate Uniform(moves: seq<(Status, Status)>) {
    forall i :: 0 <= i < |moves| ==> OfReadiness(moves[i].0) == OfReadiness(moves[i].1)
  }

  lemma {:induction false} ChainHasOnePart(moves: seq<(Status, Status)>)
    requires Uniform(moves) && Chained(moves)
    ensures Part(moves, true) == [] || Part(moves, false) == []
  {
    if |moves| >= 2 {
      var init, last, previous := moves[..|moves| - 1], moves[|moves| - 1], moves[|moves| - 2];
      ChainHasOnePart(init);
      assert init[|init| - 1] == previous;
      assert previous in Part(init, OfReadiness(previous.0));
      assert moves[|moves| - 1 - 1].1 == moves[|moves| - 1].0;
    }
  }

  /** The rows called "readiness" are the flips of `h` interleaved with those of `o`. */
  ghost predicate Interleaved(s: State, o: seq<Status>, h: seq<Status>) {
    var moves := Moves(s.timeline, READINESS);
    && Part(moves, true) == FlipsOf(h) && Part(moves, false) == FlipsOf(o) && Uniform(moves)
    && h != [] && h[|h| - 1] == ReadyStatus(s.streaks.ready)
    && if o == [] then READINESS !in s.results else READINESS in s.results && StatusOf(s.results[READINESS].up) == o[|o| - 1]
  }

  lemma SettleInterleaves(s: State, o: seq<Status>, h: seq<Status>, n: string, result: Cached, at: int)
    requires Interleaved(s, o, h)
    ensures Interleaved(Observe(s, None, n, result, at), if n == READINESS then o + [StatusOf(result.up)] else o, h)
  {
    hide Moves, FlipsOf, Part;
    ObserveMoves(s, n, result, at, READINESS);
    FlipsPush(o, StatusOf(result.up));
    var moves := Moves(s.timeline, READINESS);
    if n == READINESS && n in s.results && s.results[n].up != result.up {
      var m := (StatusOf(s.results[n].up), StatusOf(result.up));
      PartPush(moves, m, true);
      PartPush(moves, m, false);
      assert Part(moves, true) + [] == Part(moves, true);
    } else {
      assert moves + [] == moves && FlipsOf(o) + [] == FlipsOf(o);
    }
  }

  lemma FinishInterleaves(s: State, o: seq<Status>, h: seq<Status>, cfg: Config, at: int)
    requires Interleaved(s, o, h)
    ensures var t := Conclude(s, None, cfg, at); Interleaved(t, o, h + [ReadyStatus(t.streaks.ready)])
  {
    hide Moves, FlipsOf, Part, Judge, Passing;
    ConcludeMoves(s, cfg, at, READINESS);
    var ready := Judge(s.streaks, Passing(s), cfg).ready;
    FlipsPush(h, ReadyStatus(ready));
    var m := (ReadyStatus(s.streaks.ready), ReadyStatus(ready));
    PartPush(Moves(s.timeline, READINESS), m, true);
    PartPush(Moves(s.timeline, READINESS), m, false);
  }

  lemma {:induction false} RowsInterleave(steps: seq<Step>, cfg: Config)
    ensures Interleaved(Run(steps, None, cfg), Observed(steps, READINESS), ReadyHistory(steps, cfg))
  {
    if steps != [] {
      RowsInterleave(steps[..|steps| - 1], cfg);
      NextInterleaves(steps, cfg);
    }
  }

  lemma NextInterleaves(steps: seq<Step>, cfg: Config)
    requires steps != []
    requires var init := steps[..|steps| - 1]; Interleaved(Run(init, None, cfg), Observed(init, READINESS), ReadyHistory(init, cfg))
    ensures Interleaved(Run(steps, None, cfg), Observed(steps, READINESS), ReadyHistory(steps, cfg))
  {
    hide Interleaved, Observe, Conclude;
    var init, step := steps[..|steps| - 1], steps[|steps| - 1];
    var s, o, h := Run(init, None, cfg), Observed(init, READINESS), ReadyHistory(init, cfg);
    match step
    case Settle(n, result, at) =>
      SettleInterleaves(s, o, h, n, result, at);
      assert n != READINESS ==> Observed(steps, READINESS) == o;
      assert ReadyHistory(steps, cfg) == h;
    case Finish(at) =>
      FinishInterleaves(s, o, h, cfg, at);
      assert Observed(steps, READINESS) == o;
  }

  /**
   * The rows called "readiness" are exactly the flips of readiness if and only
   * if no indicator of that name was ever seen to flip, and they chain if and
   * only if at most one of the two ever flipped.
   */
  lemma ReadinessRowsIff(steps: seq<Step>, cfg: Config)
    ensures var moves, own, clash :=
              Moves(Run(steps, None, cfg).timeline, READINESS), FlipsOf(ReadyHistory(steps, cfg)), FlipsOf(Observed(steps, READINESS));
            && (moves == own <==> clash == [])
            && (Chained(moves) <==> own == [] || clash == [])
  {
    RowsInterleave(steps, cfg);
    var moves := Moves(Run(steps, None, cfg).timeline, READINESS);
    PartsCover(moves);
    FlipsChain(ReadyHistory(steps, cfg));
    FlipsChain(Observed(steps, READINESS));
    if Chained(moves) { ChainHasOnePart(moves); }
  }

  lemma {:induction false} MovesConcat(a: seq<Row>, b: seq<Row>, name: string)
    ensures Moves(a + b, name) == Moves(a, name) + Moves(b, name)
  {
    if b == [] {
      assert a + b == a;
    } else {
      assert (a + b)[..|a + b| - 1] == a + b[..|b| - 1];
      MovesConcat(a, b[..|b| - 1], name);
    }
  }

  /** The ring buffer holds the last `cap` rows of the log; nothing else depends on the cap. */
  lemma {:induction false} BufferIsSuffix(steps: seq<Step>, cap: nat, cfg: Config)
    ensures var s, log := Run(steps, Some(cap), cfg), Run(steps, None, cfg);
            s == log.(timeline := LastN(log.timeline, cap))
  {
    if steps != [] {
      var init, step := steps[..|steps| - 1], steps[|steps| - 1];
      BufferIsSuffix(init, cap, cfg);
      var log := Run(init, None, cfg);
      match step
      case Settle(n, result, at) =>
        if n in log.results { LastNPush(log.timeline, Row(n, StatusOf(log.results[n].up), StatusOf(result.up), at), cap); }
      case Finish(at) =>
        var ready := Judge(log.streaks, Passing(log), cfg).ready;
        LastNPush(log.timeline, Row(READINESS, ReadyStatus(log.streaks.ready), ReadyStatus(ready), at), cap);
    }
  }

  /** In the served buffer each indicator's rows chain, and end at the status now cached for it. */
  lemma ServedTimelineChains(steps: seq<Step>, cap: nat, cfg: Config, name: string)
    requires name != READINESS
    ensures var s := Run(steps, Some(cap), cfg);
            var m := Moves(s.timeline, name);
            Chained(m) && (m != [] ==> name in s.results && m[|m| - 1].1 == StatusOf(s.results[name].up))
  {
    BufferIsSuffix(steps, cap, cfg);
    TimelineIsFlips(steps, cfg, name);
    FlipsChain(Observed(steps, name));
    var log := Run(steps, None, cfg).timeline;
    SuffixChains(log, cap, name);
  }

  lemma ChainedSuffix(a: seq<(Status, Status)>, m: seq<(Status, Status)>)
    requires Chained(a + m)
    ensures Chained(m)
  {
    var all := a + m;
    forall i | 0 <= i < |m| ensures m[i].0 != m[i].1 {
      assert m[i] == all[|a| + i];
    }
    forall i | 0 < i < |m| ensures m[i - 1].1 == m[i].0 {
      assert m[i] == all[|a| + i] && m[i - 1] == all[|a| + i - 1];
    }
  }

  lemma SuffixChains(log: seq<Row>, cap: nat, name: string)
    requires Chained(Moves(log, name))
    ensures var m, all := Moves(LastN(log, cap), name), Moves(log, name);
            Chained(m) && (m != [] ==> all != [] && m[|m| - 1] == all[|all| - 1])
  {
    hide Moves, Chained;
    var tail := LastN(log, cap);
    var head := log[..|log| - |tail|];
    assert log == head + tail;
    MovesConcat(head, tail, name);
    ChainedSuffix(Moves(head, name), Moves(tail, name));
  }

  /** Readiness flips once, then an indicator registered as "readiness" flips: the rows are not those of readiness and do not chain. */
  lemma ReadinessNameClash()
    ensures var steps := [Finish(0), Settle(READINESS, Cached(true, false), 1), Settle(READINESS, Cached(false, false), 2)];
            !Chained(Moves(Run(steps, None, Config(3, 2)).timeline, READINESS))
  {
    hide Run, Moves, Chained, Judge;
    var cfg := Config(3, 2);
    var a, b, c := Finish(0), Settle(READINESS, Cached(true, false), 1), Settle(READINESS, Cached(false, false), 2);
    FirstReady(cfg, 0);
    RunNext([a], b, cfg);
    RunNext([a, b], c, cfg);
    assert [a] + [b] == [a, b] && [a, b] + [c] == [a, b, c];
    var r, d := Row(READINESS, NotReady, Ready, 0), Row(READINESS, Up, Down, 2);
    assert Run([a, b, c], None, cfg).timeline == [r] + [d];
    MovesPush([r], d, READINESS);
    MovesPush([], r, READINESS);
    assert [] + [r] == [r];
    NoMoves(READINESS);
    BrokenChain(NotReady, Ready, Up, Down);
  }

  lemma RunNext(steps: seq<Step>, step: Step, cfg: Config)
    ensures Run(steps + [step], None, cfg) == Do(Run(steps, None, cfg), None, cfg, step)
  {
    assert (steps + [step])[..|steps|] == steps;
  }

  /** The first evaluation of an empty registry passes and is believed at once. */
  lemma FirstReady(cfg: Config, at: int)
    ensures var s := Run([Finish(at)], None, cfg);
            s.results == map[] && s.timeline == [Row(READINESS, NotReady, Ready, at)]
  {
    RunNext([], Finish(at), cfg);
    assert [] + [Finish(at)] == [Finish(at)];
    assert Passing(Run([], None, cfg));
  }

  lemma NoMoves(name: string)
    ensures Moves([], name) == []
  {
  }

  lemma BrokenChain(a: Status, b: Status, c: Status, d: Status)
    requires b != c
    ensures !Chained([] + [(a, b)] + [(c, d)])
  {
    var m := [] + [(a, b)] + [(c, d)];
    assert m[0].1 == b && m[1].0 == c;
  }

  // ---------------------------------------------------------------- what an evaluation judges

  /** The newest result of its indicator. */
  ghost predicate Newest(steps: seq<Step>, i: nat) {
    && i < |steps| && steps[i].Settle?
    && forall j :: i < j < |steps| && steps[j].Settle? ==> steps[j].name != steps[i].name
  }

  /** No critical indicator's newest result is down. */
  ghost predicate AllWell(steps: seq<Step>) {
    forall i: nat :: Newest(steps, i) && steps[i].result.critical ==> steps[i].result.up
  }

  ghost predicate ResultsOf(results: map<string, Cached>, steps: seq<Step>) {
    && (forall i: nat :: Newest(steps, i) ==> steps[i].name in results && results[steps[i].name] == steps[i].result)
    && (forall name :: name in results ==> exists i: nat :: Newest(steps, i) && steps[i].name == name)
  }

  lemma NewestNext(steps: seq<Step>, step: Step, i: nat)
    ensures Newest(steps + [step], i)
            <==> if i == |steps| then step.Settle? else i < |steps| && steps[i].Settle? && Newest(steps, i) && !(step.Settle? && step.name == steps[i].name)
  {
    var all := steps + [step];
    assert all[|steps|] == step && forall j :: 0 <= j < |steps| ==> all[j] == steps[j];
  }

  lemma {:induction false} ResultsAreNewest(steps: seq<Step>, cap: Option<nat>, cfg: Config)
    ensures ResultsOf(Run(steps, cap, cfg).results, steps)
  {
    if steps != [] {
      var init, step := steps[..|steps| - 1], steps[|steps| - 1];
      ResultsAreNewest(init, cap, cfg);
      assert steps == init + [step];
      ResultsNext(Run(init, cap, cfg), cap, cfg, init, step);
    }
  }

  lemma ResultsNext(s: State, cap: Option<nat>, cfg: Config, init: seq<Step>, step: Step)
    requires ResultsOf(s.results, init)
    ensures ResultsOf(Do(s, cap, cfg, step).results, init + [step])
  {
    hide Judge, Passing, Newest;
    var t, steps := Do(s, cap, cfg, step), init + [step];
    forall i: nat
      ensures Newest(steps, i)
              <==> if i == |init| then step.Settle? else i < |init| && init[i].Settle? && Newest(init, i) && !(step.Settle? && step.name == init[i].name)
    {
      NewestNext(init, step, i);
    }
    forall i: nat | Newest(init, i) ensures i < |init| && steps[i] == init[i] && init[i].Settle? { NewestBounds(init, i); }
    forall name | name in t.results ensures exists i: nat :: Newest(steps, i) && steps[i].name == name {
      if step.Settle? && step.name == name {
        assert Newest(steps, |init|) && steps[|init|] == step;
      } else {
        var i: nat :| Newest(init, i) && init[i].name == name;
        assert Newest(steps, i);
      }
    }
  }

  lemma NewestBounds(steps: seq<Step>, i: nat)
    requires Newest(steps, i)
    ensures i < |steps| && steps[i].Settle?
  {
  }

  /** An evaluation passes if and only if no critical indicator's newest result is down; nothing else is a verdict. */
  lemma VerdictIs(steps: seq<Step>, step: Step, cfg: Config)
    ensures Verdicts(steps + [step], cfg) == Verdicts(steps, cfg) + if step.Finish? then [AllWell(steps)] else []
  {
    hide Run, Newest;
    assert (steps + [step])[..|steps|] == steps;
    ResultsAreNewest(steps, None, cfg);
    var results := Run(steps, None, cfg).results;
    forall i: nat | Newest(steps, i) ensures i < |steps| && steps[i].Settle? { NewestBounds(steps, i); }
    if AllWell(steps) {
      forall name | name in results ensures !results[name].critical || results[name].up {
        var i: nat :| Newest(steps, i) && steps[i].name == name;
      }
    }
    if Passing(Run(steps, None, cfg)) {
      forall i: nat | Newest(steps, i) && steps[i].result.critical ensures steps[i].result.up {
        assert steps[i].name in results;
      }
    }
  }

  /** Each row of the log carries the time of the step that made it, and says what that step left behind. */
  ghost predicate MadeBy(row: Row, step: Step) {
    && row.at == step.at
    && if step.Settle? then row.indicator == step.name && row.to == (if step.result.up then Up else Down) && row.from == (if step.result.up then Down else Up)
       else row.indicator == READINESS && ((row.to == Ready && row.from == NotReady) || (row.to == NotReady && row.from == Ready))
  }

  lemma {:induction false} RowsStamped(steps: seq<Step>, cfg: Config)
    ensures forall row :: row in Run(steps, None, cfg).timeline ==> exists i :: 0 <= i < |steps| && MadeBy(row, steps[i])
  {
    if steps != [] {
      hide Judge, Passing;
      var init, step := steps[..|steps| - 1], steps[|steps| - 1];
      RowsStamped(init, cfg);
      forall row | row in Run(steps, None, cfg).timeline ensures exists i :: 0 <= i < |steps| && MadeBy(row, steps[i]) {
        if row in Run(init, None, cfg).timeline {
          var i :| 0 <= i < |init| && MadeBy(row, init[i]);
          assert MadeBy(row, steps[i]);
        } else {
          assert MadeBy(row, steps[|steps| - 1]);
        }
      }
    }
  }

  // ---------------------------------------------------------------- the service

  class HealthIndicatorRegistry {
    var results: map<string, Cached>
    var timelineBuffer: seq<Row>
    var evaluated: bool
    var ready: bool
    var failStreak: nat
    var passStreak: nat
    const capacity: nat
    const cfg: Config

    function View(): State
      reads this
    {
      State(results, Streaks(evaluated, ready, failStreak, passStreak), timelineBuffer)
    }

    constructor (capacity: nat, cfg: Config)
      ensures View() == Run([], Some(capacity), cfg) && this.capacity == capacity && this.cfg == cfg
    {
      results, timelineBuffer := map[], [];
      evaluated, ready, failStreak, passStreak := false, false, 0, 0;
      this.capacity, this.cfg := capacity, cfg;
    }

    method RecordTransition(row: Row)
      modifies this`timelineBuffer
      ensures View() == Record(old(View()), Some(capacity), row)
    {
      timelineBuffer := timelineBuffer + [row];
      if |timelineBuffer| > capacity { timelineBuffer := timelineBuffer[|timelineBuffer| - capacity..]; }
    }

    method SettleCheck(name: string, result: Cached, at: int)
      modifies this
      ensures View() == Do(old(View()), Some(capacity), cfg, Settle(name, result, at))
    {
      var previous := if name in results then Some(results[name]) else None;
      results := results[name := result];
      if previous.Some? && previous.value.up != result.up {
        RecordTransition(Row(name, StatusOf(previous.value.up), StatusOf(result.up), at));
      }
    }

    method FinishEvaluation(at: int)
      modifies this
      ensures View() == Do(old(View()), Some(capacity), cfg, Finish(at))
    {
      var passing := forall name :: name in results ==> !results[name].critical || results[name].up;
      if passing {
        passStreak := passStreak + 1;
        failStreak := 0;
      } else {
        failStreak := failStreak + 1;
        passStreak := 0;
      }
      var wasReady := ready;
      if !evaluated {
        ready := passing;
      } else if ready && failStreak >= cfg.failures {
        ready := false;
      } else if !ready && passStreak >= cfg.successes {
        ready := true;
      }
      evaluated := true;
      if wasReady != ready {
        RecordTransition(Row(READINESS, ReadyStatus(wasReady), ReadyStatus(ready), at));
      }
    }
  }
}
