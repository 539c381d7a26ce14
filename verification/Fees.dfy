/** Protocol fees: rule precedence, volume tiers, rounding, caps and the integrator's share. */
module Fees {
  import opened Common

  const BPS := 10000

  datatype FeeError = BadDenominator | BpsOutOfRange | Negative | MinAboveMax

  function CeilDiv(n: int, d: int): Result<int, FeeError> {
    if d <= 0 then Err(BadDenominator) else if n <= 0 then Ok(0) else Ok((n + d - 1) / d)
  }

  function ApplyBpsCeil(amount: int, bps: int): Result<int, FeeError> {
    if bps < 0 || bps > BPS then Err(BpsOutOfRange)
    else if amount < 0 then Err(Negative)
    else CeilDiv(amount * bps, BPS)
  }

  function FloorBps(amount: int, bps: int): Result<int, FeeError> {
    if bps < 0 || bps > BPS then Err(BpsOutOfRange)
    else if amount < 0 then Err(Negative)
    else Ok(amount * bps / BPS)
  }

  // ---------------------------------------------------------------- rounding

  function Ceil(n: int): int
    requires n >= 0
  {
    CeilDiv(n, BPS).value
  }

  /** The least whole number of units that covers `n` ten-thousandths. */
  lemma CeilIsLeastCover(n: int, k: int)
    requires n >= 0
    ensures Ceil(n) * BPS >= n && (k * BPS >= n ==> k >= Ceil(n))
  {
  }

  /** The least whole number of parts of size `d` that covers `n`; a part must have a size. */
  lemma CeilDivIs(n: int, d: int)
    ensures CeilDiv(n, d).Err? <==> d <= 0
    ensures d > 0 ==> var c := CeilDiv(n, d).value; if n <= 0 then c == 0 else (c - 1) * d < n <= c * d
  {
    if d > 0 && n > 0 {
      var m := n + d - 1;
      assert m / d * d <= m < m / d * d + d;
      assert (m / d - 1) * d == m / d * d - d;
    }
  }

  lemma CeilSplits(a: int, b: int)
    requires a >= 0 && b >= 0
    ensures Ceil(a + b) <= Ceil(a) + Ceil(b) <= Ceil(a + b) + 1
  {
  }

  function SumOf(parts: seq<nat>): nat {
    if parts == [] then 0 else SumOf(parts[..|parts| - 1]) + parts[|parts| - 1]
  }

  function CeilFees(parts: seq<nat>, bps: nat): int {
    if parts == [] then 0
    else CeilFees(parts[..|parts| - 1], bps) + Ceil(parts[|parts| - 1] * bps)
  }

  /** Charging in parts costs the whole fee, and at most one unit more per extra part. */
  lemma {:induction false} PartsCost(parts: seq<nat>, bps: nat)
    requires |parts| > 0
    ensures Ceil(SumOf(parts) * bps) <= CeilFees(parts, bps) <= Ceil(SumOf(parts) * bps) + |parts| - 1
  {
    var init, last := parts[..|parts| - 1], parts[|parts| - 1];
    assert SumOf(parts) * bps == SumOf(init) * bps + last * bps;
    if init != [] {
      PartsCost(init, bps);
      CeilSplits(SumOf(init) * bps, last * bps);
    }
  }

  const PROTOCOL_FEE_BPS := 5

  function CalculateProtocolFee(dstAmount: nat): int {
    dstAmount * PROTOCOL_FEE_BPS / BPS
  }

  /** The default rule's fee is the on-chain fee, plus one unit unless 2000 divides the amount. */
  lemma DefaultFeeVersusProtocolFee(amount: nat)
    ensures ApplyBpsCeil(amount, PROTOCOL_FEE_BPS)
            == Ok(CalculateProtocolFee(amount) + if amount % 2000 == 0 then 0 else 1)
  {
    var q, r := amount / 2000, amount % 2000;
    assert amount * 5 == q * BPS + r * 5;
    assert 0 <= r * 5 < BPS;
  }

  // ---------------------------------------------------------------- selection

  datatype Scope = Pair | Chain | Default

  datatype Tier = Tier(minVolume: int, bps: int)

  datatype Rule = Rule(id: string, version: int, scope: Scope, srcChain: Option<string>, dstChain: Option<string>,
                       srcToken: Option<string>, dstToken: Option<string>, bps: int, minFee: int, maxFee: int, tiers: seq<Tier>)

  datatype Referral = Referral(code: string, integratorId: string, shareBps: int)

  datatype Input = Input(amount: int, srcChain: string, dstChain: string, srcToken: Option<string>, dstToken: Option<string>,
                         volume: Option<int>, referralCode: Option<string>)

  const DEFAULT_RULE := Rule("default", 1, Default, None, None, None, None, 5, 0, 0, [])

  predicate Absent(o: Option<string>) { o.None? || o.value == "" }

  predicate Matches(rule: Rule, input: Input) {
    match rule.scope
    case Default => true
    case Chain => rule.srcChain == Some(input.srcChain) && (Absent(rule.dstChain) || rule.dstChain == Some(input.dstChain))
    case Pair =>
      && rule.srcChain == Some(input.srcChain) && rule.dstChain == Some(input.dstChain)
      && (Absent(rule.srcToken) || rule.srcToken == input.srcToken)
      && (Absent(rule.dstToken) || rule.dstToken == input.dstToken)
  }

  function Specificity(rule: Rule): int {
    match rule.scope
    case Pair => 3
    case Chain => 2
    case Default => 1
  }

  /** Lower or equal precedence. */
  predicate AtMost(a: Rule, b: Rule) {
    Specificity(a) < Specificity(b) || (Specificity(a) == Specificity(b) && a.version <= b.version)
  }

  /** The reducer's choice between the best so far and the next rule. */
  function Better(best: Rule, rule: Rule): Rule {
    var score := Specificity(rule) - Specificity(best);
    if score != 0 then (if score > 0 then rule else best)
    else if rule.version >= best.version then rule else best
  }

  function Reduce(matched: seq<Rule>): Rule
    requires matched != []
  {
    if |matched| == 1 then matched[0] else Better(Reduce(matched[..|matched| - 1]), matched[|matched| - 1])
  }

  function Test(input: Input): Rule -> bool {
    (r: Rule) => Matches(r, input)
  }

  function SelectRule(rules: seq<Rule>, input: Input): Rule {
    var matched := Filter(rules, Test(input));
    if matched == [] then DEFAULT_RULE else Reduce(matched)
  }

  /** The reduction finds the last of the rules of highest precedence. */
  lemma {:induction false} ReduceIsLastMaximal(matched: seq<Rule>) returns (i: nat)
    requires matched != []
    ensures i < |matched| && Reduce(matched) == matched[i]
    ensures forall j :: 0 <= j < |matched| ==> AtMost(matched[j], matched[i])
    ensures forall j :: i < j < |matched| ==> !AtMost(matched[i], matched[j])
  {
    if |matched| == 1 {
      i := 0;
    } else {
      var init, last := matched[..|matched| - 1], matched[|matched| - 1];
      i := ReduceIsLastMaximal(init);
      assert forall j :: 0 <= j < |init| ==> init[j] == matched[j];
      if Reduce(matched) == last && AtMost(init[i], last) { i := |matched| - 1; }
    }
  }

  lemma EmptyTogether(m: seq<Rule>, n: seq<Rule>)
    requires forall r :: r in m <==> r in n
    ensures m == [] <==> n == []
  {
    if m != [] { assert m[0] in m; }
    if n != [] { assert n[0] in n; }
  }

  /** No list order matters when matching rules differ in scope or version. */
  lemma SelectionOrderFree(rules: seq<Rule>, others: seq<Rule>, input: Input)
    requires forall r :: r in rules <==> r in others
    requires forall a, b :: a in rules && b in rules && Matches(a, input) && Matches(b, input) && AtMost(a, b) && AtMost(b, a) ==> a == b
    ensures SelectRule(rules, input) == SelectRule(others, input)
  {
    var m, n := Filter(rules, Test(input)), Filter(others, Test(input));
    EmptyTogether(m, n);
    if m != [] && n != [] {
      var i := ReduceIsLastMaximal(m);
      var j := ReduceIsLastMaximal(n);
      assert m[i] in m && n[j] in n;
      assert m[i] in n && n[j] in m;
      var i' :| 0 <= i' < |m| && m[i'] == n[j];
      var j' :| 0 <= j' < |n| && n[j'] == m[i];
    }
  }

  ghost predicate TierApplies(tiers: seq<Tier>, i: int, volume: int) {
    0 <= i < |tiers| && tiers[i].minVolume <= volume
  }

  /** `i` is the last of the applicable tiers with the highest threshold, -1 if none applies. */
  ghost predicate IsTier(tiers: seq<Tier>, volume: int, i: int) {
    if i == -1 then forall j :: !TierApplies(tiers, j, volume)
    else
      && TierApplies(tiers, i, volume)
      && (forall j :: TierApplies(tiers, j, volume) ==> tiers[j].minVolume <= tiers[i].minVolume)
      && (forall j :: i < j && TierApplies(tiers, j, volume) ==> tiers[j].minVolume < tiers[i].minVolume)
  }

  function TierAt(tiers: seq<Tier>, volume: int): int {
    if tiers == [] then -1
    else
      var n := |tiers| - 1;
      var i := TierAt(tiers[..n], volume);
      if volume >= tiers[n].minVolume && (i < 0 || i >= n || tiers[n].minVolume >= tiers[i].minVolume) then n else i
  }

  lemma {:induction false} TierAtIsTier(tiers: seq<Tier>, volume: int)
    ensures -1 <= TierAt(tiers, volume) < |tiers| && IsTier(tiers, volume, TierAt(tiers, volume))
  {
    if tiers != [] {
      var n := |tiers| - 1;
      TierAtIsTier(tiers[..n], volume);
      assert forall j :: 0 <= j < n ==> (TierApplies(tiers[..n], j, volume) <==> TierApplies(tiers, j, volume));
      assert forall j :: TierApplies(tiers, j, volume) ==> j == n || TierApplies(tiers[..n], j, volume);
    }
  }

  lemma TierUnique(tiers: seq<Tier>, volume: int, i: int, j: int)
    requires -1 <= i < |tiers| && -1 <= j < |tiers| && IsTier(tiers, volume, i) && IsTier(tiers, volume, j)
    ensures i == j
  {
    if i != -1 { assert TierApplies(tiers, i, volume); }
    if j != -1 { assert TierApplies(tiers, j, volume); }
  }

  function TierRate(rule: Rule, volume: int): Result<int, FeeError> {
    if exists t :: t in rule.tiers && t.minVolume < 0 then Err(Negative)
    else
      var i := TierAt(rule.tiers, volume);
      Ok(if 0 <= i < |rule.tiers| then rule.tiers[i].bps else rule.bps)
  }

  /** No list order matters when tiers differ in threshold. */
  lemma TierOrderFree(tiers: seq<Tier>, others: seq<Tier>, volume: int)
    requires forall t :: t in tiers <==> t in others
    requires forall a, b :: a in tiers && b in tiers && a.minVolume == b.minVolume ==> a == b
    ensures var i, j := TierAt(tiers, volume), TierAt(others, volume);
            && -1 <= i < |tiers| && -1 <= j < |others| && (i == -1 <==> j == -1)
            && (i >= 0 && j >= 0 ==> tiers[i] == others[j])
  {
    var i, j := TierAt(tiers, volume), TierAt(others, volume);
    TierAtIsTier(tiers, volume);
    TierAtIsTier(others, volume);
    if i >= 0 {
      assert tiers[i] in others;
      var j' :| 0 <= j' < |others| && others[j'] == tiers[i];
      assert TierApplies(others, j', volume);
    }
    if j >= 0 {
      assert others[j] in tiers;
      var i' :| 0 <= i' < |tiers| && tiers[i'] == others[j];
      assert TierApplies(tiers, i', volume);
    }
  }

  lemma TierRateOrderFree(rule: Rule, others: seq<Tier>, volume: int)
    requires forall t :: t in rule.tiers <==> t in others
    requires forall a, b :: a in rule.tiers && b in rule.tiers && a.minVolume == b.minVolume ==> a == b
    ensures TierRate(rule.(tiers := others), volume) == TierRate(rule, volume)
  {
    hide TierAt;
    TierOrderFree(rule.tiers, others, volume);
  }

  /** The loop over tiers, with its running floor. */
  method TierBps(rule: Rule, volume: int) returns (r: Result<int, FeeError>)
    ensures r == TierRate(rule, volume)
  {
    var bps, floor, i := rule.bps, -1, 0;
    ghost var best := -1;
    while i < |rule.tiers|
      invariant 0 <= i <= |rule.tiers| && forall j :: 0 <= j < i ==> rule.tiers[j].minVolume >= 0
      invariant -1 <= best < i && IsTier(rule.tiers[..i], volume, best)
      invariant if best == -1 then floor == -1 && bps == rule.bps
                else floor == rule.tiers[best].minVolume && bps == rule.tiers[best].bps
    {
      var tier := rule.tiers[i];
      assert tier in rule.tiers;
      if tier.minVolume < 0 { return Err(Negative); }
      ghost var seen, next := rule.tiers[..i], rule.tiers[..i + 1];
      assert forall j :: 0 <= j < i ==> (TierApplies(seen, j, volume) <==> TierApplies(next, j, volume));
      assert forall j :: TierApplies(next, j, volume) ==> j == i || TierApplies(seen, j, volume);
      if volume >= tier.minVolume && tier.minVolume >= floor {
        floor, bps := tier.minVolume, tier.bps;
        best := i;
      }
      i := i + 1;
    }
    assert rule.tiers[..i] == rule.tiers;
    TierAtIsTier(rule.tiers, volume);
    TierUnique(rule.tiers, volume, best, TierAt(rule.tiers, volume));
    return Ok(bps);
  }

  // ---------------------------------------------------------------- quotes

  function Clamp(fee: int, rule: Rule): Result<int, FeeError> {
    if rule.minFee < 0 || rule.maxFee < 0 then Err(Negative)
    else if rule.maxFee > 0 && rule.minFee > rule.maxFee then Err(MinAboveMax)
    else
      var raised := if rule.minFee > 0 && fee < rule.minFee then rule.minFee else fee;
      Ok(if rule.maxFee > 0 && raised > rule.maxFee then rule.maxFee else raised)
  }

  datatype Quote = Quote(amount: int, fee: int, treasuryFee: int, integratorFee: int, integratorId: Option<string>,
                         referralCode: Option<string>, ruleId: string, ruleVersion: int, bps: int)

  function FindReferral(referrals: seq<Referral>, code: Option<string>): Option<Referral> {
    if referrals == [] || Absent(code) then None
    else if referrals[0].code == code.value then Some(referrals[0])
    else FindReferral(referrals[1..], code)
  }

  function QuoteFee(rules: seq<Rule>, referrals: seq<Referral>, input: Input): Result<Quote, FeeError> {
    if input.amount < 0 || (input.volume.Some? && input.volume.value < 0) then Err(Negative)
    else
      var rule := SelectRule(if |rules| > 0 then rules else [DEFAULT_RULE], input);
      match TierRate(rule, if input.volume.Some? then input.volume.value else input.amount)
      case Err(e) => Err(e)
      case Ok(bps) =>
        match ApplyBpsCeil(input.amount, bps)
        case Err(e) => Err(e)
        case Ok(raw) =>
          match Clamp(raw, rule)
          case Err(e) => Err(e)
          case Ok(fee) =>
            var referral := FindReferral(referrals, input.referralCode);
            match FloorBps(fee, if referral.Some? then referral.value.shareBps else 0)
            case Err(e) => Err(e)
            case Ok(share) =>
              Ok(Quote(input.amount, fee, fee - share, share,
                       if referral.Some? then Some(referral.value.integratorId) else None,
                       if referral.Some? then Some(referral.value.code) else None, rule.id, rule.version, bps))
  }

  /** A quote splits its fee exactly, and both shares are non-negative; the fee respects the rule's caps. */
  lemma QuoteConserves(rules: seq<Rule>, referrals: seq<Referral>, input: Input)
    requires QuoteFee(rules, referrals, input).Ok?
    ensures var q := QuoteFee(rules, referrals, input).value;
            var rule := SelectRule(if |rules| > 0 then rules else [DEFAULT_RULE], input);
            && q.treasuryFee + q.integratorFee == q.fee && q.treasuryFee >= 0 && q.integratorFee >= 0
            && q.fee >= rule.minFee && (rule.maxFee > 0 ==> q.fee <= rule.maxFee)
            && (q.integratorId.None? ==> q.integratorFee == 0)
  {
    var q := QuoteFee(rules, referrals, input).value;
    var referral := FindReferral(referrals, input.referralCode);
    var share := if referral.Some? then referral.value.shareBps else 0;
    ShareWithin(q.fee, share);
  }

  lemma FloorWithin(x: int, fee: int)
    requires 0 <= x <= fee * BPS
    ensures 0 <= x / BPS <= fee
  {
  }

  lemma ShareWithin(fee: int, share: int)
    requires 0 <= fee && 0 <= share <= BPS
    ensures 0 <= fee * share / BPS <= fee && (share == 0 ==> fee * share / BPS == 0)
  {
    assert fee * (BPS - share) >= 0;
    assert fee * share == fee * BPS - fee * (BPS - share);
    FloorWithin(fee * share, fee);
  }

  function FillFees(rules: seq<Rule>, referrals: seq<Referral>, input: Input, parts: seq<nat>): int {
    if parts == [] then 0
    else
      var q := QuoteFee(rules, referrals, input.(amount := parts[|parts| - 1]));
      FillFees(rules, referrals, input, parts[..|parts| - 1]) + if q.Ok? then q.value.fee else 0
  }

  /** Filling an intent in parts, under a rule without tiers or caps, costs between the whole fee and one unit more per extra fill. */
  lemma PartialFillsCost(rules: seq<Rule>, referrals: seq<Referral>, input: Input, parts: seq<nat>)
    requires |parts| > 0 && input.amount == SumOf(parts)
    requires QuoteFee(rules, referrals, input).Ok?
    requires Plain(SelectRule(if |rules| > 0 then rules else [DEFAULT_RULE], input))
    ensures var whole := QuoteFee(rules, referrals, input).value.fee;
            whole <= FillFees(rules, referrals, input, parts) <= whole + |parts| - 1
  {
    var rule := SelectRule(if |rules| > 0 then rules else [DEFAULT_RULE], input);
    FillFeesAreCeils(rules, referrals, input, rule, parts);
    PartsCost(parts, rule.bps);
  }

  predicate Plain(rule: Rule) { rule.tiers == [] && rule.minFee == 0 && rule.maxFee == 0 }

  lemma {:induction false} FillFeesAreCeils(rules: seq<Rule>, referrals: seq<Referral>, input: Input, rule: Rule, parts: seq<nat>)
    requires QuoteFee(rules, referrals, input).Ok?
    requires rule == SelectRule(if |rules| > 0 then rules else [DEFAULT_RULE], input) && Plain(rule)
    ensures rule.bps >= 0 && FillFees(rules, referrals, input, parts) == CeilFees(parts, rule.bps)
  {
    PlainFee(rules, referrals, input, rule, 0);
    if parts != [] {
      FillFeesAreCeils(rules, referrals, input, rule, parts[..|parts| - 1]);
      PlainFee(rules, referrals, input, rule, parts[|parts| - 1]);
    }
  }

  predicate Charges(q: Result<Quote, FeeError>, part: nat, bps: nat) {
    q.Ok? && q.value.fee == Ceil(part * bps)
  }

  /** Under a rule without tiers or caps every part is quoted, at its rounded-up fee. */
  lemma PlainFee(rules: seq<Rule>, referrals: seq<Referral>, input: Input, rule: Rule, part: nat)
    requires QuoteFee(rules, referrals, input).Ok?
    requires rule == SelectRule(if |rules| > 0 then rules else [DEFAULT_RULE], input) && Plain(rule)
    ensures 0 <= rule.bps <= BPS
    ensures Charges(QuoteFee(rules, referrals, input.(amount := part)), part, rule.bps)
  {
    SameRule(input, part);
    assert forall v :: TierRate(rule, v) == Ok(rule.bps);
    assert ApplyBpsCeil(part, rule.bps) == Ok(Ceil(part * rule.bps));
    assert Clamp(Ceil(part * rule.bps), rule) == Ok(Ceil(part * rule.bps));
  }

  lemma SameRule(input: Input, amount: int)
    ensures forall rs: seq<Rule> :: SelectRule(rs, input.(amount := amount)) == SelectRule(rs, input)
  {
    forall rs: seq<Rule> ensures SelectRule(rs, input.(amount := amount)) == SelectRule(rs, input) {
      FilterSame(rs, Test(input.(amount := amount)), Test(input));
    }
  }

  // ---------------------------------------------------------------- what a quote says

  /** `b` is preferred to `a`, or not told apart: a pair beats a chain beats the default, then the higher version wins. */
  ghost predicate Yields(a: Rule, b: Rule) {
    match b.scope
    case Pair => a.scope.Pair? ==> a.version <= b.version
    case Chain => !a.scope.Pair? && (a.scope.Chain? ==> a.version <= b.version)
    case Default => a.scope.Default? && a.version <= b.version
  }

  /** The rule in charge: the last of the most preferred rules that match, the default one if none does. */
  ghost predicate InCharge(rules: seq<Rule>, input: Input, r: Rule) {
    if forall x :: x in rules ==> !Matches(x, input) then r == DEFAULT_RULE
    else exists i :: 0 <= i < |rules| && IsLastBest(rules, input, i) && rules[i] == r
  }

  ghost predicate IsLastBest(rules: seq<Rule>, input: Input, i: nat)
    requires i < |rules|
  {
    && Matches(rules[i], input)
    && (forall j :: 0 <= j < |rules| && Matches(rules[j], input) ==> Yields(rules[j], rules[i]))
    && (forall j :: i < j < |rules| && Matches(rules[j], input) ==> !Yields(rules[i], rules[j]))
  }

  /** Which inputs a rule is for. */
  lemma MatchesBy(rule: Rule, input: Input)
    ensures rule.scope.Default? ==> Matches(rule, input)
    ensures !rule.scope.Default? && rule.srcChain != Some(input.srcChain) ==> !Matches(rule, input)
    ensures rule.scope.Chain? && rule.srcChain == Some(input.srcChain) ==>
              (Matches(rule, input) <==> rule.dstChain == None || rule.dstChain == Some("") || rule.dstChain == Some(input.dstChain))
    ensures rule.scope.Pair? && rule.srcChain == Some(input.srcChain) ==>
              (Matches(rule, input) <==>
                 rule.dstChain == Some(input.dstChain) && rule.srcToken in {None, Some(""), input.srcToken} && rule.dstToken in {None, Some(""), input.dstToken})
  {
  }

  /** Some rule matches. */
  ghost predicate AnyMatches(rules: seq<Rule>, input: Input) {
    exists x :: x in rules && Matches(x, input)
  }

  lemma {:induction false} SelectedIsInCharge(rules: seq<Rule>, input: Input)
    ensures InCharge(rules, input, SelectRule(rules, input))
  {
    hide Matches, Yields, IsLastBest, SelectRule;
    if rules == [] {
      NothingSelected(input);
    } else {
      var init, x := rules[..|rules| - 1], rules[|rules| - 1];
      SelectedIsInCharge(init, input);
      assert rules == init + [x];
      SelectNext(init, x, input);
      var best := SelectRule(init, input);
      if AnyMatches(init, input) {
        var i :| 0 <= i < |init| && IsLastBest(init, input, i) && init[i] == best;
        LastBestNext(init, x, input, i);
      } else if Matches(x, input) {
        OnlyBest(init, x, input);
      }
    }
  }

  lemma NothingSelected(input: Input)
    ensures SelectRule([], input) == DEFAULT_RULE
  {
  }

  lemma OnlyBest(init: seq<Rule>, x: Rule, input: Input)
    requires !AnyMatches(init, input) && Matches(x, input)
    ensures IsLastBest(init + [x], input, |init|)
  {
    hide Matches;
    forall j | 0 <= j < |init| ensures !Matches((init + [x])[j], input) { assert init[j] in init; }
  }

  /** The best so far stays the best unless it yields to the next rule. */
  lemma LastBestNext(init: seq<Rule>, x: Rule, input: Input, i: nat)
    requires i < |init| && IsLastBest(init, input, i)
    ensures if Matches(x, input) && Yields(init[i], x) then IsLastBest(init + [x], input, |init|) else IsLastBest(init + [x], input, i)
  {
    hide Matches;
    var rules := init + [x];
    assert forall j :: 0 <= j < |init| ==> rules[j] == init[j];
    if Matches(x, input) && Yields(init[i], x) {
      forall j | 0 <= j < |rules| && Matches(rules[j], input) ensures Yields(rules[j], x) {
        if j < |init| { YieldsChain(init[j], init[i], x); }
      }
    } else if Matches(x, input) {
      YieldsTotal(init[i], x);
    }
  }

  lemma YieldsChain(a: Rule, b: Rule, c: Rule)
    requires Yields(a, b) && Yields(b, c)
    ensures Yields(a, c)
  {
  }

  lemma YieldsTotal(a: Rule, b: Rule)
    ensures Yields(a, b) || Yields(b, a)
  {
  }

  lemma SelectNext(init: seq<Rule>, x: Rule, input: Input)
    ensures var best := SelectRule(init, input);
            SelectRule(init + [x], input)
            == if !Matches(x, input) then best else if !AnyMatches(init, input) || Yields(best, x) then x else best
  {
    hide Matches, Yields, Better;
    var m := Filter(init, Test(input));
    FilterConcat(init, [x], Test(input));
    OneFiltered(x, input);
    assert m == [] <==> !AnyMatches(init, input) by {
      if AnyMatches(init, input) { var y :| y in init && Matches(y, input); assert y in m; }
      if m != [] { assert m[0] in m; }
    }
    if Matches(x, input) {
      assert (m + [x])[..|m|] == m;
      if m != [] { BetterIs(Reduce(m), x); }
    } else {
      assert m + [] == m;
    }
  }

  lemma OneFiltered(x: Rule, input: Input)
    ensures Filter([x], Test(input)) == if Matches(x, input) then [x] else []
  {
    hide Matches;
    assert [x][1..] == [];
  }

  lemma BetterIs(best: Rule, rule: Rule)
    ensures Better(best, rule) == if Yields(best, rule) then rule else best
  {
  }

  function VolumeOf(input: Input): int { if input.volume.Some? then input.volume.value else input.amount }

  /** The rate of the tier at a volume. */
  ghost predicate IsRate(rule: Rule, volume: int, bps: int) {
    exists i :: -1 <= i < |rule.tiers| && IsTier(rule.tiers, volume, i) && bps == if i == -1 then rule.bps else rule.tiers[i].bps
  }

  /** The fee of an amount: the rate's share rounded up, raised to the floor and cut to the ceiling. */
  ghost predicate IsFee(rule: Rule, amount: int, bps: int, fee: int) {
    exists raw {:trigger raw * BPS} :: raw * BPS >= amount * bps > (raw - 1) * BPS
      && var raised := if raw < rule.minFee then rule.minFee else raw;
         fee == if 0 < rule.maxFee < raised then rule.maxFee else raised
  }

  /** The first referral with the code given, if one is. */
  ghost predicate IsReferral(referrals: seq<Referral>, code: Option<string>, r: Option<Referral>) {
    if r.None? then code == None || code == Some("") || forall i :: 0 <= i < |referrals| ==> Some(referrals[i].code) != code
    else code != Some("") && exists i :: 0 <= i < |referrals| && referrals[i] == r.value && Some(r.value.code) == code
                                         && forall j :: 0 <= j < i ==> Some(referrals[j].code) != code
  }

  lemma {:induction false} FoundReferral(referrals: seq<Referral>, code: Option<string>)
    ensures IsReferral(referrals, code, FindReferral(referrals, code))
  {
    if referrals != [] && !Absent(code) {
      var rest, r := referrals[1..], FindReferral(referrals, code);
      FoundReferral(rest, code);
      assert forall i :: 0 <= i < |rest| ==> rest[i] == referrals[i + 1];
      if referrals[0].code == code.value {
        assert referrals[0] == r.value;
      } else if r.Some? {
        var i :| 0 <= i < |rest| && rest[i] == r.value && forall j :: 0 <= j < i ==> Some(rest[j].code) != code;
        assert referrals[i + 1] == r.value;
        forall j | 0 <= j < i + 1 ensures Some(referrals[j].code) != code { if j > 0 { assert referrals[j] == rest[j - 1]; } }
      } else {
        forall i | 0 <= i < |referrals| ensures Some(referrals[i].code) != code { if i > 0 { assert referrals[i] == rest[i - 1]; } }
      }
    }
  }

  /** What the rule in charge charges, by the tier at the volume, and how the referral's share of it is rounded. */
  lemma QuoteIsPriced(rules: seq<Rule>, referrals: seq<Referral>, input: Input)
    requires QuoteFee(rules, referrals, input).Ok?
    ensures var q := QuoteFee(rules, referrals, input).value;
            exists rule, referral ::
              && InCharge(rules, input, rule) && q.ruleId == rule.id && q.ruleVersion == rule.version
              && IsRate(rule, VolumeOf(input), q.bps) && q.amount == input.amount && IsFee(rule, input.amount, q.bps, q.fee)
              && IsReferral(referrals, input.referralCode, referral)
              && (if referral.None? then q.integratorFee == 0 && q.integratorId == None && q.referralCode == None
                  else q.integratorFee * BPS <= q.fee * referral.value.shareBps < (q.integratorFee + 1) * BPS
                       && q.integratorId == Some(referral.value.integratorId) && q.referralCode == Some(referral.value.code))
  {
    var q := QuoteFee(rules, referrals, input).value;
    var rule, referral := SelectRule(if |rules| > 0 then rules else [DEFAULT_RULE], input), FindReferral(referrals, input.referralCode);
    SelectedIsInCharge(rules, input);
    assert rules == [] ==> rule == DEFAULT_RULE;
    RateIs(rule, VolumeOf(input));
    FeeIs(rule, input.amount, q.bps);
    FoundReferral(referrals, input.referralCode);
    ShareIs(q.fee, if referral.Some? then referral.value.shareBps else 0);
    hide SelectRule, FindReferral, TierRate, ApplyBpsCeil, Clamp, FloorBps, InCharge, IsRate, IsFee, IsReferral;
    assert InCharge(rules, input, rule) && IsReferral(referrals, input.referralCode, referral);
  }

  lemma RateIs(rule: Rule, volume: int)
    ensures TierRate(rule, volume).Ok? ==> IsRate(rule, volume, TierRate(rule, volume).value)
  {
    TierAtIsTier(rule.tiers, volume);
  }

  lemma FeeIs(rule: Rule, amount: int, bps: int)
    ensures var raw := ApplyBpsCeil(amount, bps); raw.Ok? && Clamp(raw.value, rule).Ok? ==> IsFee(rule, amount, bps, Clamp(raw.value, rule).value)
  {
    var raw := ApplyBpsCeil(amount, bps);
    if raw.Ok? && Clamp(raw.value, rule).Ok? {
      hide Clamp;
      var n := amount * bps;
      assert n >= 0;
      assert raw.value * BPS >= n > (raw.value - 1) * BPS;
      assert IsFee(rule, amount, bps, Clamp(raw.value, rule).value) by { ClampIs(raw.value, rule); }
    }
  }

  lemma ClampIs(raw: int, rule: Rule)
    requires Clamp(raw, rule).Ok? && raw >= 0
    ensures Clamp(raw, rule).value == var raised := if raw < rule.minFee then rule.minFee else raw; if 0 < rule.maxFee < raised then rule.maxFee else raised
  {
  }

  lemma ShareIs(fee: int, share: int)
    ensures FloorBps(fee, share).Ok? ==>
              FloorBps(fee, share).value * BPS <= fee * share < (FloorBps(fee, share).value + 1) * BPS && (share == 0 ==> FloorBps(fee, share).value == 0)
  {
  }

  /** A quote is refused if and only if an amount is malformed, a rate or share is out of range, or the floor is above the ceiling. */
  lemma QuotedIff(rules: seq<Rule>, referrals: seq<Referral>, input: Input)
    ensures var rule := SelectRule(if |rules| > 0 then rules else [DEFAULT_RULE], input);
            var referral := FindReferral(referrals, input.referralCode);
            QuoteFee(rules, referrals, input).Ok?
            <==> && input.amount >= 0 && VolumeOf(input) >= 0
                 && (forall t :: t in rule.tiers ==> t.minVolume >= 0)
                 && (exists bps :: IsRate(rule, VolumeOf(input), bps) && 0 <= bps <= BPS)
                 && rule.minFee >= 0 && rule.maxFee >= 0 && (rule.maxFee > 0 ==> rule.minFee <= rule.maxFee)
                 && (referral.Some? ==> 0 <= referral.value.shareBps <= BPS)
  {
    hide SelectRule, FindReferral, TierAt, IsTier, IsRate, TierRate, Clamp, ApplyBpsCeil, FloorBps;
    var rule := SelectRule(if |rules| > 0 then rules else [DEFAULT_RULE], input);
    var v := VolumeOf(input);
    TierRateIff(rule, v);
    if TierRate(rule, v).Ok? && input.amount >= 0 {
      var bps := TierRate(rule, v).value;
      assert IsRate(rule, v, bps);
      ApplyBpsIff(input.amount, bps);
      if ApplyBpsCeil(input.amount, bps).Ok? {
        var raw := ApplyBpsCeil(input.amount, bps).value;
        ClampIff(raw, rule);
        var referral := FindReferral(referrals, input.referralCode);
        if Clamp(raw, rule).Ok? { FloorBpsIff(Clamp(raw, rule).value, if referral.Some? then referral.value.shareBps else 0); }
      }
    }
  }

  lemma TierRateIff(rule: Rule, volume: int)
    ensures TierRate(rule, volume).Ok? <==> forall t :: t in rule.tiers ==> t.minVolume >= 0
    ensures TierRate(rule, volume).Ok? ==> forall bps :: IsRate(rule, volume, bps) <==> bps == TierRate(rule, volume).value
  {
    TierAtIsTier(rule.tiers, volume);
    hide TierAt, IsTier;
    forall bps | IsRate(rule, volume, bps) && TierRate(rule, volume).Ok? ensures bps == TierRate(rule, volume).value {
      var i :| -1 <= i < |rule.tiers| && IsTier(rule.tiers, volume, i) && bps == if i == -1 then rule.bps else rule.tiers[i].bps;
      TierUnique(rule.tiers, volume, i, TierAt(rule.tiers, volume));
    }
  }

  lemma ApplyBpsIff(amount: int, bps: int)
    requires amount >= 0
    ensures ApplyBpsCeil(amount, bps).Ok? <==> 0 <= bps <= BPS
    ensures ApplyBpsCeil(amount, bps).Ok? ==> ApplyBpsCeil(amount, bps).value >= 0
  {
  }

  lemma ClampIff(fee: int, rule: Rule)
    requires fee >= 0
    ensures Clamp(fee, rule).Ok? <==> rule.minFee >= 0 && rule.maxFee >= 0 && (rule.maxFee > 0 ==> rule.minFee <= rule.maxFee)
    ensures Clamp(fee, rule).Ok? ==> Clamp(fee, rule).value >= 0
  {
  }

  lemma FloorBpsIff(fee: int, share: int)
    requires fee >= 0
    ensures FloorBps(fee, share).Ok? <==> 0 <= share <= BPS
  {
  }
}
