/** Feature flags: first-match evaluation, and the two-admin rule for turning dry-run off in production. */
module Flags {
  import opened Common

  datatype Rule = Rule(value: bool, percentage: Option<real>, solvers: Option<seq<string>>, chains: Option<seq<string>>)

  datatype FlagState = FlagState(defaultValue: bool, rules: seq<Rule>)

  datatype Context = Context(targetingKey: Option<string>, solver: Option<string>, chain: Option<string>)

  predicate Listed(list: Option<seq<string>>, value: Option<string>) {
    list.Some? ==> value.Some? && value.value != "" && value.value in list.value
  }

  /** `bucket` maps a targeting key of this flag to 0..99. */
  predicate Matches(rule: Rule, ctx: Context, bucket: string -> nat) {
    && Listed(rule.solvers, ctx.solver)
    && Listed(rule.chains, ctx.chain)
    && (rule.percentage.Some? ==>
          var key := if ctx.targetingKey.Some? then ctx.targetingKey else ctx.solver;
          key.Some? && key.value != "" && bucket(key.value) as real < rule.percentage.value)
  }

  function FirstMatch(rules: seq<Rule>, ctx: Context, bucket: string -> nat): (r: Option<nat>)
    ensures r.Some? ==> r.value < |rules| && Matches(rules[r.value], ctx, bucket)
                        && forall i :: 0 <= i < r.value ==> !Matches(rules[i], ctx, bucket)
    ensures r.None? ==> forall i :: 0 <= i < |rules| ==> !Matches(rules[i], ctx, bucket)
  {
    if rules == [] then None
    else if Matches(rules[0], ctx, bucket) then Some(0)
    else
      match FirstMatch(rules[1..], ctx, bucket)
      case None => assert forall i :: 0 < i < |rules| ==> rules[i] == rules[1..][i - 1]; None
      case Some(i) => Some(i + 1)
  }

  function Evaluate(state: FlagState, ctx: Context, bucket: string -> nat): bool {
    match FirstMatch(state.rules, ctx, bucket)
    case None => state.defaultValue
    case Some(i) => state.rules[i].value
  }

  function PossibleValues(state: FlagState): set<bool> {
    {state.defaultValue} + set i | 0 <= i < |state.rules| :: state.rules[i].value
  }

  /** The safety policy looks only at possible values: it never misses a value some context can get. */
  lemma EvaluatesToPossible(state: FlagState, ctx: Context, bucket: string -> nat)
    ensures Evaluate(state, ctx, bucket) in PossibleValues(state)
  {
    var first := FirstMatch(state.rules, ctx, bucket);
    if first.Some? { assert state.rules[first.value].value in PossibleValues(state); }
  }

  // ---------------------------------------------------------------- which possible values occur

  const BUCKETS := 100

  /** What a context amounts to: a non-empty solver and chain, and the bucket of its key, each possibly absent. */
  datatype Target = Target(solver: Option<string>, chain: Option<string>, slot: Option<nat>)

  predicate InList(list: Option<seq<string>>, value: Option<string>) {
    list.Some? ==> value.Some? && value.value in list.value
  }

  predicate Hits(rule: Rule, t: Target) {
    && InList(rule.solvers, t.solver) && InList(rule.chains, t.chain)
    && (rule.percentage.Some? ==> t.slot.Some? && t.slot.value as real < rule.percentage.value)
  }

  function NonEmpty(value: Option<string>): Option<string> { if value == Some("") then None else value }

  function TargetOf(ctx: Context, bucket: string -> nat): Target {
    var key := NonEmpty(if ctx.targetingKey.Some? then ctx.targetingKey else ctx.solver);
    Target(NonEmpty(ctx.solver), NonEmpty(ctx.chain), if key.Some? then Some(bucket(key.value)) else None)
  }

  lemma MatchesTarget(rule: Rule, ctx: Context, bucket: string -> nat)
    ensures Matches(rule, ctx, bucket) <==> Hits(rule, TargetOf(ctx, bucket))
  {
  }

  /** Keys fall into buckets 0 to 99, and every bucket has a key; the hash is not modelled further. */
  ghost predicate Spreads(bucket: string -> nat, keyFor: nat -> string) {
    && (forall key :: bucket(key) < BUCKETS)
    && (forall slot: nat :: slot < BUCKETS ==> keyFor(slot) != "" && bucket(keyFor(slot)) == slot)
  }

  /** The highest bucket below a percentage. */
  function Top(percentage: real): Option<nat> {
    if percentage <= 0.0 then None
    else if percentage > 99.0 then Some(99)
    else
      var whole := percentage.Floor;
      Some(if whole as real == percentage then whole - 1 else whole)
  }

  lemma TopBounds(percentage: real, slot: nat)
    requires slot < BUCKETS
    ensures slot as real < percentage <==> Top(percentage).Some? && slot <= Top(percentage).value
    ensures Top(percentage).Some? ==> Top(percentage).value < BUCKETS
  {
  }

  /** Some value, if any, that a list lets through: nothing for an absent list, a non-empty member otherwise. */
  ghost predicate Choice(list: Option<seq<string>>, value: Option<string>) {
    if list.None? then value.None? else value.Some? && value.value != "" && value.value in list.value
  }

  /** The target of `rule` that the fewest other rules match: nothing it does not ask for, and its highest bucket. */
  ghost predicate Narrowest(rule: Rule, t: Target) {
    && Choice(rule.solvers, t.solver) && Choice(rule.chains, t.chain)
    && if rule.percentage.None? then t.slot.None? else t.slot.Some? && t.slot == Top(rule.percentage.value)
  }

  /** A rule decides for somebody: one of its narrowest targets, one per pair of listed names, is matched by no earlier rule. */
  ghost predicate Decides(rules: seq<Rule>, i: nat)
    requires i < |rules|
  {
    exists t :: Narrowest(rules[i], t) && forall j :: 0 <= j < i ==> !Hits(rules[j], t)
  }

  predicate Unconditional(rule: Rule) {
    rule.percentage.None? && rule.solvers.None? && rule.chains.None?
  }

  /** Whatever matches a rule has a narrowest target that misses every rule it misses. */
  lemma Narrowed(rule: Rule, t: Target) returns (n: Target)
    requires Hits(rule, t) && (t.slot.Some? ==> t.slot.value < BUCKETS) && t.solver != Some("") && t.chain != Some("")
    ensures Narrowest(rule, n) && Hits(rule, n)
    ensures forall other :: Hits(other, n) ==> Hits(other, t)
  {
    n := Target(if rule.solvers.Some? then t.solver else None, if rule.chains.Some? then t.chain else None,
                if rule.percentage.Some? then Top(rule.percentage.value) else None);
    if rule.percentage.Some? { TopBounds(rule.percentage.value, t.slot.value); }
    forall other | Hits(other, n) ensures Hits(other, t) {
      if rule.percentage.Some? && other.percentage.Some? {
        TopBounds(rule.percentage.value, t.slot.value);
        TopBounds(rule.percentage.value, n.slot.value);
      }
    }
    if rule.percentage.Some? { TopBounds(rule.percentage.value, n.slot.value); }
  }

  /** A context with a given target. */
  function ContextOf(t: Target, keyFor: nat -> string): Context {
    Context(Some(if t.slot.Some? then keyFor(t.slot.value) else ""), t.solver, t.chain)
  }

  lemma ContextHasTarget(t: Target, bucket: string -> nat, keyFor: nat -> string)
    requires Spreads(bucket, keyFor) && t.solver != Some("") && t.chain != Some("") && (t.slot.Some? ==> t.slot.value < BUCKETS)
    ensures TargetOf(ContextOf(t, keyFor), bucket) == t
  {
  }

  lemma FirstMatchDecides(rules: seq<Rule>, i: nat, ctx: Context, bucket: string -> nat)
    requires i < |rules| && (forall key :: bucket(key) < BUCKETS) && FirstMatch(rules, ctx, bucket) == Some(i)
    ensures Decides(rules, i)
  {
    var t := TargetOf(ctx, bucket);
    forall j | 0 <= j < |rules| ensures Matches(rules[j], ctx, bucket) <==> Hits(rules[j], t) { MatchesTarget(rules[j], ctx, bucket); }
    hide Matches, Hits, FirstMatch, Narrowest, TargetOf;
    assert Hits(rules[i], t);
    var n := Narrowed(rules[i], t);
    assert forall j :: 0 <= j < i ==> !Hits(rules[j], n);
  }

  lemma NarrowestHits(rule: Rule, t: Target)
    requires Narrowest(rule, t)
    ensures Hits(rule, t) && t.solver != Some("") && t.chain != Some("") && (t.slot.Some? ==> t.slot.value < BUCKETS)
  {
    if rule.percentage.Some? {
      TopBounds(rule.percentage.value, 0);
      TopBounds(rule.percentage.value, t.slot.value);
    }
  }

  lemma DecidesFirstMatch(rules: seq<Rule>, i: nat, bucket: string -> nat, keyFor: nat -> string) returns (ctx: Context)
    requires i < |rules| && Spreads(bucket, keyFor) && Decides(rules, i)
    ensures FirstMatch(rules, ctx, bucket) == Some(i)
  {
    hide Matches, Hits, Narrowest, TargetOf;
    var t :| Narrowest(rules[i], t) && forall j :: 0 <= j < i ==> !Hits(rules[j], t);
    NarrowestHits(rules[i], t);
    ContextHasTarget(t, bucket, keyFor);
    ctx := ContextOf(t, keyFor);
    forall j | 0 <= j <= i ensures Matches(rules[j], ctx, bucket) <==> Hits(rules[j], t) { MatchesTarget(rules[j], ctx, bucket); }
  }

  /** A rule is the first match of some context if and only if it decides for somebody. */
  lemma FirstMatchIff(rules: seq<Rule>, i: nat, bucket: string -> nat, keyFor: nat -> string)
    requires i < |rules| && Spreads(bucket, keyFor)
    ensures (exists ctx :: FirstMatch(rules, ctx, bucket) == Some(i)) <==> Decides(rules, i)
  {
    hide Decides, FirstMatch;
    if ctx :| FirstMatch(rules, ctx, bucket) == Some(i) { FirstMatchDecides(rules, i, ctx, bucket); }
    if Decides(rules, i) { var ctx := DecidesFirstMatch(rules, i, bucket, keyFor); }
  }

  /** The default is reached by some context if and only if no rule is unconditional. */
  lemma DefaultReachedIff(rules: seq<Rule>, bucket: string -> nat)
    ensures (exists ctx :: FirstMatch(rules, ctx, bucket).None?) <==> forall i :: 0 <= i < |rules| ==> !Unconditional(rules[i])
  {
    var nobody := Context(None, None, None);
    if forall i :: 0 <= i < |rules| ==> !Unconditional(rules[i]) {
      assert FirstMatch(rules, nobody, bucket).None?;
    } else {
      var i :| 0 <= i < |rules| && Unconditional(rules[i]);
      forall ctx ensures FirstMatch(rules, ctx, bucket).Some? { assert Matches(rules[i], ctx, bucket); }
    }
  }

  /** Exactly the values that some context gets. */
  lemma OccursIff(state: FlagState, value: bool, bucket: string -> nat, keyFor: nat -> string)
    requires Spreads(bucket, keyFor)
    ensures (exists ctx :: Evaluate(state, ctx, bucket) == value)
            <==> || (state.defaultValue == value && forall i :: 0 <= i < |state.rules| ==> !Unconditional(state.rules[i]))
                 || exists i :: 0 <= i < |state.rules| && state.rules[i].value == value && Decides(state.rules, i)
  {
    var rules := state.rules;
    DefaultReachedIff(rules, bucket);
    forall i | 0 <= i < |rules| ensures (exists ctx :: FirstMatch(rules, ctx, bucket) == Some(i)) <==> Decides(rules, i) {
      FirstMatchIff(rules, i, bucket, keyFor);
    }
    if ctx :| Evaluate(state, ctx, bucket) == value {
      var first := FirstMatch(rules, ctx, bucket);
      assert first.Some? ==> first == Some(first.value);
    }
    if state.defaultValue == value && forall i :: 0 <= i < |rules| ==> !Unconditional(rules[i]) {
      var ctx :| FirstMatch(rules, ctx, bucket).None?;
      assert Evaluate(state, ctx, bucket) == value;
    }
    if i :| 0 <= i < |rules| && rules[i].value == value && Decides(rules, i) {
      var ctx :| FirstMatch(rules, ctx, bucket) == Some(i);
      assert Evaluate(state, ctx, bucket) == value;
    }
  }

  /** A rule for no solver at all decides for nobody, yet its value counts as possible. */
  lemma PossibleNeedNotOccur(ctx: Context, bucket: string -> nat)
    ensures var state := FlagState(true, [Rule(false, None, Some([]), None)]);
            false in PossibleValues(state) && Evaluate(state, ctx, bucket)
  {
    var state := FlagState(true, [Rule(false, None, Some([]), None)]);
    assert state.rules[0].value in PossibleValues(state);
    assert !Matches(state.rules[0], ctx, bucket);
  }

  // ---------------------------------------------------------------- changing a flag

  datatype FlagKey = OnchainIntentsEnabled | OnchainDryRun

  predicate RequiresTwoApprovals(key: FlagKey, state: FlagState, production: bool) {
    key.OnchainDryRun? && production && false in PossibleValues(state)
  }

  datatype Request = Request(key: FlagKey, proposed: FlagState, proposedBy: string, applied: bool)

  /** How a stored row came about. */
  datatype Origin = Direct(admin: string) | Approved(request: nat, approvals: seq<string>)

  datatype Row = Row(key: FlagKey, state: FlagState, origin: Origin)

  /** An approval that has read its request but not yet run its transaction. */
  datatype Approval = Approval(request: nat, admin: string, approvals: seq<string>)

  /**
   * `rows` are all rows ever written, in order; `cache` is one replica's local
   * copy, `landing` rows it has written but not yet copied, `reloads` table
   * reads whose result has not yet replaced the copy.
   */
  datatype State = State(production: bool, rows: seq<Row>, requests: seq<Request>, approving: seq<Approval>,
                         cache: map<FlagKey, Row>, landing: seq<Row>, reloads: seq<map<FlagKey, Row>>)

  function Table(rows: seq<Row>): map<FlagKey, Row> {
    if rows == [] then map[] else Table(rows[..|rows| - 1])[rows[|rows| - 1].key := rows[|rows| - 1]]
  }

  datatype Step =
    | Update(key: FlagKey, state: FlagState, admin: string, frozen: bool)
    | ReadRequest(request: nat, admin: string, frozen: bool)
    | CommitApproval(i: nat)
    | Land(i: nat)
    | StartReload
    | FinishReload(i: nat)

  function Write(s: State, row: Row): State {
    s.(rows := s.rows + [row], landing := s.landing + [row])
  }

  function Do(s: State, step: Step): State {
    match step
    case Update(key, state, admin, frozen) =>
      if frozen then s
      else if RequiresTwoApprovals(key, state, s.production) then s.(requests := s.requests + [Request(key, state, admin, false)])
      else Write(s, Row(key, state, Direct(admin)))
    case ReadRequest(r, admin, frozen) =>
      if r < |s.requests| && !s.requests[r].applied && admin != s.requests[r].proposedBy && !frozen
      then s.(approving := s.approving + [Approval(r, admin, [s.requests[r].proposedBy, admin])])
      else s
    case CommitApproval(i) =>
      if i < |s.approving| && s.approving[i].request < |s.requests| && !s.requests[s.approving[i].request].applied then
        var a := s.approving[i];
        var req := s.requests[a.request];
        Write(s, Row(req.key, req.proposed, Approved(a.request, a.approvals))).(requests := s.requests[a.request := req.(applied := true)])
      else s
    case Land(i) => if i < |s.landing| then s.(cache := s.cache[s.landing[i].key := s.landing[i]]) else s
    case StartReload => s.(reloads := s.reloads + [Table(s.rows)])
    case FinishReload(i) => if i < |s.reloads| then s.(cache := s.reloads[i]) else s
  }

  /** The service over its tables; each method is one stretch between awaits. */
  class FeatureFlagService {
    const production: bool
    var rows: seq<Row>
    var requests: seq<Request>
    var approving: seq<Approval>
    var flags: map<FlagKey, Row>
    var landing: seq<Row>
    var reloads: seq<map<FlagKey, Row>>

    ghost function View(): State
      reads this
    {
      State(production, rows, requests, approving, flags, landing, reloads)
    }

    constructor (production: bool)
      ensures View() == Run(production, [])
    {
      this.production := production;
      rows, requests, approving, flags, landing, reloads := [], [], [], map[], [], [];
    }

    /** Open a change request when the policy asks for a second admin, else write the row. */
    method UpdateFlag(key: FlagKey, state: FlagState, admin: string, frozen: bool) returns (request: Option<nat>)
      modifies this
      ensures View() == Do(old(View()), Update(key, state, admin, frozen))
      ensures request.Some? ==> request.value == |old(requests)| && rows == old(rows)
      ensures request.None? ==> requests == old(requests)
    {
      if frozen { return None; }
      if RequiresTwoApprovals(key, state, production) {
        requests := requests + [Request(key, state, admin, false)];
        return Some(|requests| - 1);
      }
      var row := Row(key, state, Direct(admin));
      rows, landing := rows + [row], landing + [row];
      return None;
    }

    /** `approve` up to its transaction. */
    method BeginApprove(request: nat, admin: string, frozen: bool) returns (ok: bool)
      modifies this
      ensures View() == Do(old(View()), ReadRequest(request, admin, frozen))
      ensures ok ==> |approving| == |old(approving)| + 1
      ensures !ok ==> View() == old(View())
    {
      if request >= |requests| || requests[request].applied { return false; }
      if admin == requests[request].proposedBy { return false; }
      if frozen { return false; }
      approving := approving + [Approval(request, admin, [requests[request].proposedBy, admin])];
      return true;
    }

    /** The transaction: claim the request while it is pending, then write the row. */
    method FinishApprove(i: nat) returns (ok: bool)
      modifies this
      ensures View() == Do(old(View()), CommitApproval(i))
      ensures ok ==> |rows| == |old(rows)| + 1
      ensures !ok ==> View() == old(View())
    {
      if i >= |approving| || approving[i].request >= |requests| { return false; }
      var a := approving[i];
      var req := requests[a.request];
      if req.applied { return false; }
      requests := requests[a.request := req.(applied := true)];
      var row := Row(req.key, req.proposed, Approved(a.request, a.approvals));
      rows, landing := rows + [row], landing + [row];
      return true;
    }
  }

  function Run(production: bool, steps: seq<Step>): State {
    if steps == [] then State(production, [], [], [], map[], [], [])
    else Do(Run(production, steps[..|steps| - 1]), steps[|steps| - 1])
  }

  ghost predicate TwoAdmins(s: State, row: Row) {
    && row.origin.Approved?
    && |row.origin.approvals| == 2 && row.origin.approvals[0] != row.origin.approvals[1]
    && row.origin.request < |s.requests|
    && var req := s.requests[row.origin.request];
       req.applied && req.key == row.key && req.proposed == row.state && req.proposedBy == row.origin.approvals[0]
  }

  ghost predicate RowOk(s: State, row: Row) {
    && (row.origin.Approved? ==> TwoAdmins(s, row))
    && (RequiresTwoApprovals(row.key, row.state, s.production) ==> row.origin.Approved?)
  }

  ghost predicate FromTable(s: State, m: map<FlagKey, Row>) {
    forall k :: k in m ==> m[k] in s.rows && m[k].key == k
  }

  ghost predicate ApprovalOk(s: State, a: Approval) {
    && a.request < |s.requests|
    && a.approvals == [s.requests[a.request].proposedBy, a.admin] && a.admin != s.requests[a.request].proposedBy
  }

  ghost predicate Inv(s: State) {
    && (forall row :: row in s.rows ==> RowOk(s, row))
    && (forall i, j :: 0 <= i < j < |s.rows| && s.rows[i].origin.Approved? && s.rows[j].origin.Approved? ==>
          s.rows[i].origin.request != s.rows[j].origin.request)
    && (forall a :: a in s.approving ==> ApprovalOk(s, a))
    && FromTable(s, s.cache)
    && (forall row :: row in s.landing ==> row in s.rows)
    && (forall m :: m in s.reloads ==> FromTable(s, m))
  }

  lemma {:induction false} TableRows(rows: seq<Row>)
    ensures forall k :: k in Table(rows) ==> Table(rows)[k] in rows && Table(rows)[k].key == k
  {
    if rows != [] {
      TableRows(rows[..|rows| - 1]);
      assert rows == rows[..|rows| - 1] + [rows[|rows| - 1]];
    }
  }

  /** Rows written earlier keep their standing when requests are added or claimed. */
  lemma RowFrame(s: State, t: State, row: Row)
    requires RowOk(s, row) && t.production == s.production && |s.requests| <= |t.requests|
    requires forall r :: 0 <= r < |s.requests| && s.requests[r].applied ==> t.requests[r] == s.requests[r]
    ensures RowOk(t, row)
  {
    if row.origin.Approved? { assert s.requests[row.origin.request].applied; }
  }

  lemma KeptByWrite(s: State, t: State, row: Row)
    requires Inv(s) && t.rows == s.rows + [row] && t.landing == s.landing + [row] && t.production == s.production
    requires t.cache == s.cache && t.reloads == s.reloads && t.approving == s.approving
    requires |s.requests| == |t.requests|
    requires forall r :: 0 <= r < |s.requests| ==> t.requests[r].proposedBy == s.requests[r].proposedBy
    requires forall r :: 0 <= r < |s.requests| && s.requests[r].applied ==> t.requests[r] == s.requests[r]
    requires RowOk(t, row)
    requires row.origin.Approved? ==> !s.requests[row.origin.request].applied
    ensures Inv(t)
  {
    forall x | x in t.rows ensures RowOk(t, x) { if x in s.rows { RowFrame(s, t, x); } }
    forall i | 0 <= i < |s.rows| && s.rows[i].origin.Approved? && row.origin.Approved?
      ensures t.rows[i] == s.rows[i] && s.rows[i].origin.request != row.origin.request
    {
      assert s.rows[i] in s.rows && RowOk(s, s.rows[i]);
    }
  }

  lemma KeptWithoutWrite(s: State, t: State)
    requires Inv(s) && t.rows == s.rows && t.landing == s.landing && t.production == s.production && s.requests <= t.requests
    requires forall a :: a in t.approving ==> a in s.approving || ApprovalOk(t, a)
    requires FromTable(t, t.cache) && forall m :: m in t.reloads ==> m in s.reloads || FromTable(t, m)
    ensures Inv(t)
  {
    forall x | x in t.rows ensures RowOk(t, x) { RowFrame(s, t, x); }
    forall a | a in t.approving ensures ApprovalOk(t, a) { if a in s.approving { assert ApprovalOk(s, a); } }
    forall m | m in t.reloads ensures FromTable(t, m) { if m in s.reloads { assert FromTable(s, m); } }
  }

  lemma KeptByApproval(s: State, i: nat)
    requires Inv(s)
    ensures Inv(Do(s, CommitApproval(i)))
  {
    var t := Do(s, CommitApproval(i));
    if t != s {
      var a := s.approving[i];
      assert a in s.approving && ApprovalOk(s, a);
      KeptByWrite(s, t, Row(s.requests[a.request].key, s.requests[a.request].proposed, Approved(a.request, a.approvals)));
    }
  }

  lemma KeptByUpdate(s: State, key: FlagKey, state: FlagState, admin: string, frozen: bool)
    requires Inv(s)
    ensures Inv(Do(s, Update(key, state, admin, frozen)))
  {
    var t := Do(s, Update(key, state, admin, frozen));
    if t.rows == s.rows { KeptWithoutWrite(s, t); } else { KeptByWrite(s, t, Row(key, state, Direct(admin))); }
  }

  lemma KeptByReload(s: State)
    requires Inv(s)
    ensures Inv(Do(s, StartReload))
  {
    var t := Do(s, StartReload);
    TableRows(s.rows);
    assert FromTable(t, Table(s.rows));
    KeptWithoutWrite(s, t);
  }

  lemma KeptByLanding(s: State, i: nat)
    requires Inv(s)
    ensures Inv(Do(s, Land(i))) && Inv(Do(s, FinishReload(i)))
  {
    if i < |s.landing| { assert s.landing[i] in s.landing; }
    if i < |s.reloads| { assert s.reloads[i] in s.reloads; }
    KeptWithoutWrite(s, Do(s, Land(i)));
    KeptWithoutWrite(s, Do(s, FinishReload(i)));
  }

  lemma KeptByRead(s: State, r: nat, admin: string, frozen: bool)
    requires Inv(s)
    ensures Inv(Do(s, ReadRequest(r, admin, frozen)))
  {
    KeptWithoutWrite(s, Do(s, ReadRequest(r, admin, frozen)));
  }

  lemma InvariantKept(s: State, step: Step)
    requires Inv(s)
    ensures Inv(Do(s, step)) && Do(s, step).production == s.production
  {
    hide Inv;
    match step
    case Update(key, state, admin, frozen) => KeptByUpdate(s, key, state, admin, frozen);
    case CommitApproval(i) => KeptByApproval(s, i);
    case StartReload => KeptByReload(s);
    case Land(i) => KeptByLanding(s, i);
    case FinishReload(i) => KeptByLanding(s, i);
    case ReadRequest(r, admin, frozen) => KeptByRead(s, r, admin, frozen);
  }

  lemma {:induction false} InvariantHolds(production: bool, steps: seq<Step>)
    ensures Inv(Run(production, steps)) && Run(production, steps).production == production
  {
    if steps != [] {
      InvariantHolds(production, steps[..|steps| - 1]);
      InvariantKept(Run(production, steps[..|steps| - 1]), steps[|steps| - 1]);
    }
  }

  // ---------------------------------------------------------------- what production may rely on

  /** Pin, then the local copy (or a request's snapshot of it), then the environment's default. */
  function Resolve(pin: Option<bool>, cache: map<FlagKey, Row>, key: FlagKey, envDefault: bool, ctx: Context, bucket: string -> nat): bool {
    if pin.Some? then pin.value
    else if key in cache then Evaluate(cache[key].state, ctx, bucket)
    else envDefault
  }

  /**
   * In production, in every interleaving of updates, concurrent approvals and
   * reloads: an unpinned evaluation of dry-run that says false, although the
   * environment says true, goes back to a request two different admins agreed on.
   */
  lemma DryRunOffNeedsTwoAdmins(steps: seq<Step>, ctx: Context, bucket: string -> nat)
    requires !Resolve(None, Run(true, steps).cache, OnchainDryRun, true, ctx, bucket)
    ensures var s := Run(true, steps); OnchainDryRun in s.cache && TwoAdmins(s, s.cache[OnchainDryRun])
  {
    var s := Run(true, steps);
    InvariantHolds(true, steps);
    var row := s.cache[OnchainDryRun];
    EvaluatesToPossible(row.state, ctx, bucket);
    assert RowOk(s, row);
  }

  /** The same of everything ever stored, and no request is applied twice. */
  lemma RequestsApplyOnce(production: bool, steps: seq<Step>, i: nat, j: nat, ctx: Context, bucket: string -> nat)
    requires var rows := Run(production, steps).rows; i < |rows| && j < |rows|
    ensures var s := Run(production, steps);
            && (production && s.rows[i].key == OnchainDryRun && !Evaluate(s.rows[i].state, ctx, bucket) ==> TwoAdmins(s, s.rows[i]))
            && (s.rows[i].origin.Approved? && s.rows[j].origin.Approved? && s.rows[i].origin.request == s.rows[j].origin.request ==> i == j)
  {
    var s := Run(production, steps);
    InvariantHolds(production, steps);
    assert s.rows[i] in s.rows && RowOk(s, s.rows[i]);
    EvaluatesToPossible(s.rows[i].state, ctx, bucket);
  }

  // ---------------------------------------------------------------- what a change does

  /** Some part of the state says false. */
  ghost predicate SaysFalse(state: FlagState) {
    !state.defaultValue || exists i :: 0 <= i < |state.rules| && !state.rules[i].value
  }

  lemma SaysFalseIff(state: FlagState)
    ensures SaysFalse(state) <==> false in PossibleValues(state)
  {
  }

  lemma TableNext(rows: seq<Row>, row: Row)
    ensures Table(rows + [row]) == Table(rows)[row.key := row]
  {
    assert (rows + [row])[..|rows|] == rows;
  }

  /**
   * An update while nothing is frozen is the stored state of its flag at once,
   * unless it may turn dry-run off in production: then it is a request, and
   * nothing stored has changed.
   */
  lemma UpdateEffect(s: State, key: FlagKey, state: FlagState, admin: string, frozen: bool)
    ensures var t := Do(s, Update(key, state, admin, frozen));
            && t.cache == s.cache && t.production == s.production
            && (frozen ==> t == s)
            && (!frozen ==>
                  if key == OnchainDryRun && s.production && SaysFalse(state)
                  then t.rows == s.rows && t.requests == s.requests + [Request(key, state, admin, false)]
                  else t.requests == s.requests && Table(t.rows) == Table(s.rows)[key := Row(key, state, Direct(admin))])
  {
    hide Table, PossibleValues;
    SaysFalseIff(state);
    TableNext(s.rows, Row(key, state, Direct(admin)));
  }

  /** Another admin's approval of a pending request stores what was proposed, with both names; nobody else's does anything. */
  lemma ApprovalEffect(s: State, r: nat, admin: string, frozen: bool)
    ensures var read := Do(s, ReadRequest(r, admin, frozen));
            if r < |s.requests| && !s.requests[r].applied && admin != s.requests[r].proposedBy && !frozen
            then var req, t := s.requests[r], Do(read, CommitApproval(|s.approving|));
                 && read.rows == s.rows
                 && Table(t.rows) == Table(s.rows)[req.key := Row(req.key, req.proposed, Approved(r, [req.proposedBy, admin]))]
                 && t.requests == s.requests[r := req.(applied := true)]
            else read == s
  {
    hide Table;
    if r < |s.requests| {
      TableNext(s.rows, Row(s.requests[r].key, s.requests[r].proposed, Approved(r, [s.requests[r].proposedBy, admin])));
    }
  }

  /** A stored row is served once it has landed, and by every replica that reloads. */
  lemma StoredIsServed(s: State, row: Row, env: bool, ctx: Context, bucket: string -> nat)
    ensures var t := Write(s, row);
            var landed, reloaded := Do(t, Land(|s.landing|)), Do(Do(t, StartReload), FinishReload(|s.reloads|));
            && Resolve(None, landed.cache, row.key, env, ctx, bucket) == Evaluate(row.state, ctx, bucket)
            && Resolve(None, reloaded.cache, row.key, env, ctx, bucket) == Evaluate(row.state, ctx, bucket)
            && (forall k :: k != row.key ==> Resolve(None, landed.cache, k, env, ctx, bucket) == Resolve(None, s.cache, k, env, ctx, bucket))
            && reloaded.cache == Table(s.rows + [row])
  {
    hide Table, Evaluate;
    TableNext(s.rows, row);
  }

  /** A pin decides alone; without one an unknown flag has the environment's value. */
  lemma PinnedOrDefault(pin: bool, cache: map<FlagKey, Row>, key: FlagKey, env: bool, ctx: Context, bucket: string -> nat)
    ensures Resolve(Some(pin), cache, key, env, ctx, bucket) == pin
    ensures key !in cache ==> Resolve(None, cache, key, env, ctx, bucket) == env
  {
  }
}
