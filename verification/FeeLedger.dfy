/** The double-entry fee ledger: postings for a fill, the in-memory ledger and the service around it. */
module FeeLedger {
  import opened Common
  import opened Fees

  datatype Side = Debit | Credit
  datatype Account = User | Treasury | Integrator

  datatype Entry = Entry(id: string, intentId: string, ruleId: string, ruleVersion: int, side: Side, account: Account,
                         accountId: string, amount: int, createdAt: int)

  function SumSide(entries: seq<Entry>, side: Side): int {
    if entries == [] then 0
    else SumSide(entries[..|entries| - 1], side) + if entries[|entries| - 1].side == side then entries[|entries| - 1].amount else 0
  }

  /** Sum over one side of one account. */
  function SumAccount(entries: seq<Entry>, side: Side, account: Account): int {
    if entries == [] then 0
    else
      var last := entries[|entries| - 1];
      SumAccount(entries[..|entries| - 1], side, account) + if last.side == side && last.account == account then last.amount else 0
  }

  predicate Balanced(entries: seq<Entry>) {
    SumSide(entries, Debit) == SumSide(entries, Credit)
  }

  predicate Credited(quote: Quote) {
    quote.integratorFee > 0 && quote.integratorId.Some? && quote.integratorId.value != ""
  }

  function UserDebit(quote: Quote, intentId: string, userId: string, at: int): Entry {
    Entry(intentId + ":debit:user", intentId, quote.ruleId, quote.ruleVersion, Debit, User, userId, quote.fee, at)
  }

  function TreasuryCredit(quote: Quote, intentId: string, at: int): Entry {
    Entry(intentId + ":credit:treasury", intentId, quote.ruleId, quote.ruleVersion, Credit, Treasury, "treasury", quote.treasuryFee, at)
  }

  function IntegratorCredit(quote: Quote, intentId: string, at: int): Entry
    requires Credited(quote)
  {
    Entry(intentId + ":credit:integrator", intentId, quote.ruleId, quote.ruleVersion, Credit, Integrator, quote.integratorId.value,
          quote.integratorFee, at)
  }

  datatype LedgerError = Unbalanced

  /** The batch for one fill; `Err` when the quote's shares do not add up to what is credited. */
  function PostingsForFill(quote: Quote, intentId: string, userId: string, at: int): Result<seq<Entry>, LedgerError> {
    if quote.fee == 0 then Ok([])
    else
      var base := [UserDebit(quote, intentId, userId, at), TreasuryCredit(quote, intentId, at)];
      var entries := if Credited(quote) then base + [IntegratorCredit(quote, intentId, at)] else base;
      if Balanced(entries) then Ok(entries) else Err(Unbalanced)
  }

  // ---------------------------------------------------------------- sums

  lemma {:induction false} SumSideConcat(a: seq<Entry>, b: seq<Entry>, side: Side)
    ensures SumSide(a + b, side) == SumSide(a, side) + SumSide(b, side)
  {
    if b == [] {
      assert a + b == a;
    } else {
      assert (a + b)[..|a + b| - 1] == a + b[..|b| - 1];
      SumSideConcat(a, b[..|b| - 1], side);
    }
  }

  lemma {:induction false} SumAccountConcat(a: seq<Entry>, b: seq<Entry>, side: Side, account: Account)
    ensures SumAccount(a + b, side, account) == SumAccount(a, side, account) + SumAccount(b, side, account)
  {
    if b == [] {
      assert a + b == a;
    } else {
      assert (a + b)[..|a + b| - 1] == a + b[..|b| - 1];
      SumAccountConcat(a, b[..|b| - 1], side, account);
    }
  }

  lemma {:induction false} SideIsAllAccounts(entries: seq<Entry>, side: Side)
    ensures SumSide(entries, side)
            == SumAccount(entries, side, User) + SumAccount(entries, side, Treasury) + SumAccount(entries, side, Integrator)
  {
    if entries != [] { SideIsAllAccounts(entries[..|entries| - 1], side); }
  }

  lemma SumTwo(a: Entry, b: Entry, side: Side, account: Account)
    ensures SumSide([a, b], side) == (if a.side == side then a.amount else 0) + if b.side == side then b.amount else 0
    ensures SumAccount([a, b], side, account)
            == (if a.side == side && a.account == account then a.amount else 0)
               + if b.side == side && b.account == account then b.amount else 0
  {
    assert [a, b] == [a] + [b];
    SumSideConcat([a], [b], side);
    SumAccountConcat([a], [b], side, account);
    assert [a][..0] == [] && [b][..0] == [];
  }

  lemma SumOne(a: Entry, side: Side, account: Account)
    ensures SumSide([a], side) == if a.side == side then a.amount else 0
    ensures SumAccount([a], side, account) == if a.side == side && a.account == account then a.amount else 0
  {
    assert [a][..0] == [];
  }

  /** A quote's batch is refused exactly when the credited shares do not add up to a non-zero fee. */
  lemma PostingsAccepted(quote: Quote, intentId: string, userId: string, at: int)
    ensures PostingsForFill(quote, intentId, userId, at).Ok?
            <==> quote.fee == 0 || quote.fee == quote.treasuryFee + if Credited(quote) then quote.integratorFee else 0
  {
    var u, t := UserDebit(quote, intentId, userId, at), TreasuryCredit(quote, intentId, at);
    SumTwo(u, t, Debit, User);
    SumTwo(u, t, Credit, Treasury);
    if Credited(quote) {
      var i := IntegratorCredit(quote, intentId, at);
      SumSideConcat([u, t], [i], Debit);
      SumSideConcat([u, t], [i], Credit);
      SumOne(i, Debit, User);
      SumOne(i, Credit, Integrator);
    }
  }

  /** What an accepted batch moves: the fee, once, from the user to the treasury and the integrator. */
  lemma PostingsMove(quote: Quote, intentId: string, userId: string, at: int)
    requires PostingsForFill(quote, intentId, userId, at).Ok?
    ensures var b := PostingsForFill(quote, intentId, userId, at).value;
            && Balanced(b)
            && SumAccount(b, Debit, User) == quote.fee
            && SumAccount(b, Credit, Treasury) + SumAccount(b, Credit, Integrator) == quote.fee
            && SumAccount(b, Credit, Integrator) == (if quote.fee != 0 && Credited(quote) then quote.integratorFee else 0)
            && OneSided(b)
  {
    if quote.fee != 0 {
      var b := PostingsForFill(quote, intentId, userId, at).value;
      var u, t := UserDebit(quote, intentId, userId, at), TreasuryCredit(quote, intentId, at);
      SumTwo(u, t, Debit, User);
      SumTwo(u, t, Credit, Integrator);
      if Credited(quote) {
        var i := IntegratorCredit(quote, intentId, at);
        SumAccountConcat([u, t], [i], Debit, User);
        SumAccountConcat([u, t], [i], Credit, Integrator);
        SumOne(i, Debit, User);
        SumOne(i, Credit, Integrator);
      }
      UserOnlyPays(b);
      SideIsAllAccounts(b, Debit);
      SideIsAllAccounts(b, Credit);
    }
  }

  /** Who is charged and credited: the user for the fee, the treasury and the quote's integrator, all for this fill, rule and time. */
  lemma PostedEntries(quote: Quote, intentId: string, userId: string, at: int, e: Entry)
    requires PostingsForFill(quote, intentId, userId, at).Ok? && e in PostingsForFill(quote, intentId, userId, at).value
    ensures e.intentId == intentId && e.createdAt == at && e.ruleId == quote.ruleId && e.ruleVersion == quote.ruleVersion
    ensures match e.account
            case User => e.side == Debit && e.accountId == userId && e.amount == quote.fee && e.id == intentId + ":debit:user"
            case Treasury => e.side == Credit && e.accountId == "treasury" && e.amount == quote.treasuryFee && e.id == intentId + ":credit:treasury"
            case Integrator =>
              e.side == Credit && quote.integratorId == Some(e.accountId) && e.amount == quote.integratorFee > 0 && e.id == intentId + ":credit:integrator"
  {
  }

  /** Users are only debited; treasury and integrators are only credited. */
  predicate OneSided(entries: seq<Entry>) {
    forall i :: 0 <= i < |entries| ==> (entries[i].side == Debit <==> entries[i].account == User)
  }

  lemma {:induction false} UserOnlyPays(entries: seq<Entry>)
    requires OneSided(entries)
    ensures SumAccount(entries, Credit, User) == 0
    ensures SumAccount(entries, Debit, Treasury) == 0 && SumAccount(entries, Debit, Integrator) == 0
  {
    if entries != [] { UserOnlyPays(entries[..|entries| - 1]); }
  }

  /** A quote the engine itself made is refused exactly when an integrator with an empty id is due a share. */
  lemma QuotedFillAccepted(rules: seq<Rule>, referrals: seq<Referral>, input: Input, intentId: string, userId: string, at: int)
    requires QuoteFee(rules, referrals, input).Ok?
    ensures var q := QuoteFee(rules, referrals, input).value;
            PostingsForFill(q, intentId, userId, at).Err? <==> q.integratorFee > 0 && q.integratorId == Some("")
  {
    var q := QuoteFee(rules, referrals, input).value;
    QuoteConserves(rules, referrals, input);
    PostingsAccepted(q, intentId, userId, at);
  }

  lemma EmptyIntegratorIdRefused()
    ensures var rules := [DEFAULT_RULE];
            var referrals := [Referral("ref", "", 5000)];
            var input := Input(10000, "stellar", "base", None, None, None, Some("ref"));
            var q := QuoteFee(rules, referrals, input);
            && q.Ok? && q.value.fee == 5 && q.value.integratorFee == 2
            && PostingsForFill(q.value, "i", "u", 0).Err?
  {
    var rules := [DEFAULT_RULE];
    var referrals := [Referral("ref", "", 5000)];
    var input := Input(10000, "stellar", "base", None, None, None, Some("ref"));
    assert Filter(rules, Test(input)) == rules by { assert rules[1..] == []; assert Filter(rules[1..], Test(input)) == []; }
    assert SelectRule(rules, input) == DEFAULT_RULE;
    assert TierRate(DEFAULT_RULE, 10000) == Ok(5);
    var q := QuoteFee(rules, referrals, input);
    assert q.Ok? && q.value.fee == 5 && q.value.integratorFee == 2;
    PostingsAccepted(q.value, "i", "u", 0);
  }

  // ---------------------------------------------------------------- the ledger

  datatype Totals = Totals(entryCount: nat, totalFees: int, treasuryFees: int, integratorFees: int, last24hFees: int)

  predicate Recent(e: Entry, since: int) { e.side == Debit && e.account == User && e.createdAt >= since }

  function SumRecent(entries: seq<Entry>, since: int): int {
    if entries == [] then 0
    else
      var last := entries[|entries| - 1];
      SumRecent(entries[..|entries| - 1], since) + if Recent(last, since) then last.amount else 0
  }

  lemma {:induction false} SumRecentConcat(a: seq<Entry>, b: seq<Entry>, since: int)
    ensures SumRecent(a + b, since) == SumRecent(a, since) + SumRecent(b, since)
  {
    if b == [] {
      assert a + b == a;
    } else {
      assert (a + b)[..|a + b| - 1] == a + b[..|b| - 1];
      SumRecentConcat(a, b[..|b| - 1], since);
    }
  }

  lemma SumRecentOne(e: Entry, since: int)
    ensures SumRecent([e], since) == if Recent(e, since) then e.amount else 0
  {
    assert [e][..0] == [];
  }

  /** A fill posted at or after the start of the window counts its fee once, an earlier one nothing. */
  lemma RecentFees(entries: seq<Entry>, quote: Quote, intentId: string, userId: string, at: int, since: int)
    requires PostingsForFill(quote, intentId, userId, at).Ok?
    ensures SumRecent(entries + PostingsForFill(quote, intentId, userId, at).value, since)
            == SumRecent(entries, since) + if at >= since then quote.fee else 0
  {
    var batch := PostingsForFill(quote, intentId, userId, at).value;
    SumRecentConcat(entries, batch, since);
    if quote.fee != 0 {
      var u, t := UserDebit(quote, intentId, userId, at), TreasuryCredit(quote, intentId, at);
      SumRecentConcat([u], [t], since);
      SumRecentOne(u, since);
      SumRecentOne(t, since);
      assert [u] + [t] == [u, t];
      if Credited(quote) {
        SumRecentConcat([u, t], [IntegratorCredit(quote, intentId, at)], since);
        SumRecentOne(IntegratorCredit(quote, intentId, at), since);
      }
    }
  }

  class MemoryFeeLedger {
    var entries: seq<Entry>

    ghost predicate Valid()
      reads this
    {
      Balanced(entries)
    }

    constructor ()
      ensures Valid() && entries == []
    {
      entries := [];
    }

    /** Appends a balanced batch; an unbalanced one is thrown back and nothing changes. */
    method Append(batch: seq<Entry>) returns (r: Result<(), LedgerError>)
      requires Valid()
      modifies this
      ensures Valid()
      ensures r.Ok? <==> Balanced(batch)
      ensures entries == if r.Ok? then old(entries) + batch else old(entries)
    {
      SumSideConcat(entries, batch, Debit);
      SumSideConcat(entries, batch, Credit);
      if !Balanced(batch) { return Err(Unbalanced); }
      if !Balanced(entries + batch) { return Err(Unbalanced); }
      entries := entries + batch;
      return Ok(());
    }

    /** The three reductions over the entries; a balanced ledger never throws here. */
    method GetTotals(now: int, windowSec: int) returns (r: Result<Totals, LedgerError>)
      requires Valid()
      ensures r.Ok? && r.value.entryCount == |entries|
      ensures r.value.totalFees == r.value.treasuryFees + r.value.integratorFees
      ensures OneSided(entries) ==> r.value.totalFees == SumAccount(entries, Debit, User)
      ensures r.value.treasuryFees == SumAccount(entries, Credit, Treasury)
      ensures r.value.last24hFees == SumRecent(entries, now - windowSec)
    {
      if !Balanced(entries) { return Err(Unbalanced); }
      var treasury, integrator, recent, i := 0, 0, 0, 0;
      while i < |entries|
        invariant 0 <= i <= |entries|
        invariant treasury == SumAccount(entries[..i], Credit, Treasury) && integrator == SumAccount(entries[..i], Credit, Integrator)
        invariant recent == SumRecent(entries[..i], now - windowSec)
      {
        var e := entries[i];
        assert entries[..i + 1][..i] == entries[..i];
        if e.side == Credit && e.account == Treasury { treasury := treasury + e.amount; }
        if e.side == Credit && e.account == Integrator { integrator := integrator + e.amount; }
        if Recent(e, now - windowSec) { recent := recent + e.amount; }
        i := i + 1;
      }
      assert entries[..i] == entries;
      if OneSided(entries) { UserOnlyPays(entries); }
      SideIsAllAccounts(entries, Debit);
      SideIsAllAccounts(entries, Credit);
      return Ok(Totals(|entries|, treasury + integrator, treasury, integrator, recent));
    }
  }

  datatype FillError = QuoteFailed(FeeError) | PostFailed(LedgerError)

  /** Fees of the quotes posted so far. */
  function FeesOf(quotes: seq<Quote>): int {
    if quotes == [] then 0 else FeesOf(quotes[..|quotes| - 1]) + quotes[|quotes| - 1].fee
  }

  /** Balanced, one-sided, and holding exactly the fees of the quotes posted. */
  predicate Holds(entries: seq<Entry>, posted: seq<Quote>) {
    && Balanced(entries) && OneSided(entries)
    && SumAccount(entries, Debit, User) == FeesOf(posted)
    && SumAccount(entries, Credit, Treasury) + SumAccount(entries, Credit, Integrator) == FeesOf(posted)
  }

  lemma PostingHolds(entries: seq<Entry>, posted: seq<Quote>, quote: Quote, intentId: string, userId: string, at: int)
    requires Holds(entries, posted) && PostingsForFill(quote, intentId, userId, at).Ok?
    ensures Holds(entries + PostingsForFill(quote, intentId, userId, at).value, posted + [quote])
  {
    var batch := PostingsForFill(quote, intentId, userId, at).value;
    PostingsMove(quote, intentId, userId, at);
    BatchHolds(entries, posted, quote, batch);
  }

  lemma BatchHolds(entries: seq<Entry>, posted: seq<Quote>, quote: Quote, batch: seq<Entry>)
    requires Holds(entries, posted) && Balanced(batch) && OneSided(batch)
    requires SumAccount(batch, Debit, User) == quote.fee
    requires SumAccount(batch, Credit, Treasury) + SumAccount(batch, Credit, Integrator) == quote.fee
    ensures Holds(entries + batch, posted + [quote])
  {
    SumSideConcat(entries, batch, Debit);
    SumSideConcat(entries, batch, Credit);
    SumAccountConcat(entries, batch, Debit, User);
    SumAccountConcat(entries, batch, Credit, Treasury);
    SumAccountConcat(entries, batch, Credit, Integrator);
    assert (posted + [quote])[..|posted|] == posted;
  }

  class FeesService {
    const rules: seq<Rule>
    const referrals: seq<Referral>
    const ledger: MemoryFeeLedger
    ghost var posted: seq<Quote>

    ghost predicate Valid()
      reads this, ledger
    {
      ledger.Valid() && Holds(ledger.entries, posted)
    }

    constructor (rules: seq<Rule>, referrals: seq<Referral>)
      ensures Valid() && posted == [] && fresh(ledger) && this.rules == rules && this.referrals == referrals
    {
      this.rules, this.referrals := rules, referrals;
      ledger := new MemoryFeeLedger();
      posted := [];
    }

    method Post(quote: Quote, intentId: string, userId: string, at: int) returns (r: Result<(), LedgerError>)
      requires Valid()
      modifies this, ledger
      ensures Valid()
      ensures r.Ok? <==> PostingsForFill(quote, intentId, userId, at).Ok?
      ensures r.Ok? ==> posted == old(posted) + [quote] && ledger.entries == old(ledger.entries) + PostingsForFill(quote, intentId, userId, at).value
      ensures r.Err? ==> posted == old(posted) && ledger.entries == old(ledger.entries)
    {
      var batch := PostingsForFill(quote, intentId, userId, at);
      if batch.Err? { return Err(batch.error); }
      PostingHolds(ledger.entries, posted, quote, intentId, userId, at);
      PostingsMove(quote, intentId, userId, at);
      if |batch.value| > 0 {
        var appended := ledger.Append(batch.value);
      } else {
        assert ledger.entries + batch.value == ledger.entries;
      }
      posted := posted + [quote];
      return Ok(());
    }

    method RecordFill(input: Input, intentId: string, userId: string, at: int) returns (r: Result<Quote, FillError>)
      requires Valid()
      modifies this, ledger
      ensures Valid()
      ensures var q := QuoteFee(rules, referrals, input);
              r.Ok? <==> q.Ok? && !(q.value.integratorFee > 0 && q.value.integratorId == Some(""))
      ensures r.Ok? ==> QuoteFee(rules, referrals, input) == Ok(r.value) && posted == old(posted) + [r.value]
      ensures r.Err? ==> posted == old(posted) && ledger.entries == old(ledger.entries)
    {
      var q := QuoteFee(rules, referrals, input);
      if q.Err? { return Err(QuoteFailed(q.error)); }
      QuotedFillAccepted(rules, referrals, input, intentId, userId, at);
      var p := Post(q.value, intentId, userId, at);
      if p.Err? { return Err(PostFailed(p.error)); }
      return Ok(q.value);
    }
  }
}
