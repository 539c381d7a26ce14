/** Runtime-tunable abuse rules: validation, sanitising, layering and the persisted overrides blob. */
module AbuseRules {
  import opened Common

  datatype Signal = CreateCancelRatio | DustIntent | BurstIdentical | NewAddress | IpAsnCluster | SolverSpam

  function SignalName(s: Signal): string {
    match s
    case CreateCancelRatio => "create_cancel_ratio"
    case DustIntent => "dust_intent"
    case BurstIdentical => "burst_identical"
    case NewAddress => "new_address"
    case IpAsnCluster => "ip_asn_cluster"
    case SolverSpam => "solver_spam"
  }

  /** The fields each default rule has. */
  function Fields(s: Signal): set<string> {
    {"enabled", "weight", "windowSeconds"} +
    match s
    case CreateCancelRatio => {"minCancelRatio", "minCreates"}
    case DustIntent => {"maxDustUsd"}
    case BurstIdentical => {"maxCount"}
    case NewAddress => {"minAgeSeconds"}
    case IpAsnCluster => {"minAddressesPerIp"}
    case SolverSpam => {"maxCycles"}
  }

  /** A JavaScript value; `JNonFinite` is NaN or an infinity. */
  datatype Json = JNull | JBool(b: bool) | JNum(x: real) | JNonFinite | JStr(s: string) | JArr(items: seq<Json>) | JObj(members: map<string, Json>)

  datatype Value = Flag(b: bool) | Num(x: real)

  type Fielded = map<string, Value>
  type Overrides = map<Signal, Fielded>

  predicate FieldOk(s: Signal, field: string, v: Json) {
    && field in Fields(s)
    && if field == "enabled" then v.JBool?
       else v.JNum? && v.x >= 0.0 && (field == "minCancelRatio" ==> v.x <= 1.0)
  }

  function ToValue(v: Json): Value
    requires v.JBool? || v.JNum?
  {
    if v.JBool? then Flag(v.b) else Num(v.x)
  }

  function FromValue(v: Value): Json {
    match v
    case Flag(b) => JBool(b)
    case Num(x) => JNum(x)
  }

  /** The entries of one rule's object that survive; an array has no entry named like a field. */
  function Kept(s: Signal, raw: Json): Fielded {
    if raw.JObj? then map f | f in raw.members && FieldOk(s, f, raw.members[f]) :: ToValue(raw.members[f]) else map[]
  }

  function Sanitize(raw: Json): Overrides {
    if raw.JObj? then
      map s: Signal | SignalName(s) in raw.members && Kept(s, raw.members[SignalName(s)]) != map[] :: Kept(s, raw.members[SignalName(s)])
    else map[]
  }

  function FieldsToJson(f: Fielded): Json {
    JObj(map k | k in f :: FromValue(f[k]))
  }

  /** The stored form; distinct signals have distinct names. */
  function ToJson(o: Overrides): Json {
    JObj(map s | s in o :: SignalName(s) := FieldsToJson(o[s]))
  }

  lemma NamesDistinct(a: Signal, b: Signal)
    ensures SignalName(a) == SignalName(b) ==> a == b
  {
    assert SignalName(a)[0] == SignalName(b)[0] || SignalName(a) != SignalName(b);
  }

  /** What the store may hold: known fields with values of the right kind and range, no empty rule. */
  ghost predicate Clean(o: Overrides) {
    forall s :: s in o ==> o[s] != map[] && CleanFields(s, o[s])
  }

  ghost predicate CleanFields(s: Signal, f: Fielded) {
    forall k :: k in f ==> FieldOk(s, k, FromValue(f[k]))
  }

  lemma KeptIsClean(s: Signal, raw: Json)
    ensures CleanFields(s, Kept(s, raw))
  {
  }

  lemma SanitizeIsClean(raw: Json)
    ensures Clean(Sanitize(raw))
  {
    forall s | s in Sanitize(raw) ensures CleanFields(s, Sanitize(raw)[s]) { KeptIsClean(s, raw.members[SignalName(s)]); }
  }

  lemma KeptOfStored(s: Signal, f: Fielded)
    ensures Kept(s, FieldsToJson(f)) == f <==> CleanFields(s, f)
  {
    var kept := Kept(s, FieldsToJson(f));
    assert forall k :: k in kept ==> kept[k] == f[k];
    if CleanFields(s, f) {
      assert kept == f;
    } else {
      var k :| k in f && !FieldOk(s, k, FromValue(f[k]));
      assert k !in kept;
    }
  }

  lemma StoredMember(o: Overrides, s: Signal)
    ensures var j := ToJson(o);
            && (SignalName(s) in j.members <==> s in o)
            && (s in o ==> j.members[SignalName(s)] == FieldsToJson(o[s]))
  {
    forall t | t in o ensures SignalName(t) == SignalName(s) ==> t == s { NamesDistinct(t, s); }
  }

  /** A signal whose fields are clean passes through the store untouched, whatever the others hold. */
  lemma SanitizeAt(o: Overrides, t: Signal)
    requires t in o ==> o[t] != map[] && CleanFields(t, o[t])
    ensures var back := Sanitize(ToJson(o)); (t in back <==> t in o) && (t in o ==> back[t] == o[t])
  {
    StoredMember(o, t);
    if t in o { KeptOfStored(t, o[t]); }
  }

  /** Overrides survive storing and loading exactly when they are clean. */
  lemma StoreRoundTripIff(o: Overrides)
    ensures Sanitize(ToJson(o)) == o <==> Clean(o)
  {
    hide Sanitize, ToJson, FieldOk;
    var back := Sanitize(ToJson(o));
    SanitizeIsClean(ToJson(o));
    if Clean(o) {
      forall s ensures (s in back <==> s in o) && (s in o ==> back[s] == o[s]) { SanitizeAt(o, s); }
      assert back == o;
    }
  }

  /** Sanitising is idempotent: what is stored is what the next load returns. */
  lemma SanitizeIdempotent(raw: Json)
    ensures Sanitize(ToJson(Sanitize(raw))) == Sanitize(raw)
  {
    SanitizeIsClean(raw);
    StoreRoundTripIff(Sanitize(raw));
  }

  // ---------------------------------------------------------------- changes

  datatype Mutation = Patch(signal: Signal, fields: Fielded) | Reset(signal: Signal)

  function Mutate(o: Overrides, m: Mutation): Overrides {
    match m
    case Patch(s, fields) => o[s := (if s in o then o[s] else map[]) + fields]
    case Reset(s) => o - {s}
  }

  /** A PATCH body is accepted when it is a non-empty object with only well-formed fields, and then taken whole. */
  function ValidatePatch(s: Signal, body: Json): Option<Fielded> {
    if body.JObj? && body.members != map[] && (forall f :: f in body.members ==> FieldOk(s, f, body.members[f]))
    then Some(map f | f in body.members :: ToValue(body.members[f]))
    else None
  }

  /** A validated change is stored in full: sanitising drops none of it. */
  lemma ValidatedChangeKept(o: Overrides, s: Signal, body: Json)
    requires Clean(o) && ValidatePatch(s, body).Some?
    ensures var next := Mutate(o, Patch(s, ValidatePatch(s, body).value));
            Clean(next) && Sanitize(ToJson(next)) == next
    ensures forall f :: f in body.members ==>
              FromValue(Mutate(o, Patch(s, ValidatePatch(s, body).value))[s][f]) == body.members[f]
  {
    hide Sanitize, ToJson, Fields;
    var patch := ValidatePatch(s, body).value;
    var next := Mutate(o, Patch(s, patch));
    assert patch.Keys == body.members.Keys && patch.Keys <= next[s].Keys;
    PatchedFieldsClean(s, if s in o then o[s] else map[], body);
    StoreRoundTripIff(next);
  }

  lemma PatchedFieldsClean(s: Signal, before: Fielded, body: Json)
    requires CleanFields(s, before) && ValidatePatch(s, body).Some?
    ensures CleanFields(s, before + ValidatePatch(s, body).value)
  {
    var patch := ValidatePatch(s, body).value;
    forall k | k in before + patch ensures FieldOk(s, k, FromValue((before + patch)[k])) {
      if k in patch { assert FieldOk(s, k, body.members[k]); }
    }
  }

  // ---------------------------------------------------------------- layering

  type Rules = map<Signal, Fielded>

  function Merge(base: Rules, o: Overrides): Rules {
    map s | s in base :: if s in o then base[s] + o[s] else base[s]
  }

  function Stored(o: Overrides): Overrides { Sanitize(ToJson(o)) }

  ghost predicate SameAt(a: Overrides, b: Overrides, t: Signal) {
    (t in a <==> t in b) && (t in a ==> a[t] == b[t])
  }

  lemma MutateAt(o: Overrides, m: Mutation, t: Signal)
    requires t != m.signal
    ensures SameAt(Mutate(o, m), o, t)
  {
  }

  lemma StoredAt(o: Overrides, next: Overrides, t: Signal)
    requires Clean(o) && SameAt(next, o, t)
    ensures SameAt(Stored(next), o, t)
  {
    SanitizeAt(next, t);
  }

  /** Patching then resetting a rule leaves no override of it, and the others as they were. */
  lemma PatchThenReset(o: Overrides, a: Overrides, s: Signal, fields: Fielded, t: Signal)
    requires Clean(o) && a == Stored(Mutate(o, Patch(s, fields)))
    ensures s !in Stored(Mutate(a, Reset(s)))
    ensures t != s ==> SameAt(Stored(Mutate(a, Reset(s))), o, t)
  {
    SanitizeIsClean(ToJson(Mutate(o, Patch(s, fields))));
    StoredMember(Mutate(a, Reset(s)), s);
    if t != s {
      MutateAt(o, Patch(s, fields), t);
      StoredAt(o, Mutate(o, Patch(s, fields)), t);
      MutateAt(a, Reset(s), t);
      StoredAt(a, Mutate(a, Reset(s)), t);
    }
  }

  lemma MergeAt(base: Rules, a: Overrides, b: Overrides, t: Signal)
    requires SameAt(a, b, t) && t in base
    ensures Merge(base, a)[t] == Merge(base, b)[t]
  {
  }

  /** So the effective rule is the base rule again, and no other rule moved. */
  lemma ResetRevertsToBase(base: Rules, o: Overrides, a: Overrides, b: Overrides, s: Signal, fields: Fielded, t: Signal)
    requires Clean(o) && a == Stored(Mutate(o, Patch(s, fields))) && b == Stored(Mutate(a, Reset(s))) && t in base
    ensures Merge(base, b)[t] == if t == s then base[s] else Merge(base, o)[t]
  {
    hide Stored, Mutate;
    PatchThenReset(o, a, s, fields, t);
    if t == s {
      assert SameAt(b, map[], s);
      MergeAt(base, b, map[], s);
    } else {
      MergeAt(base, b, o, t);
    }
  }

  // ---------------------------------------------------------------- what a change does, field by field

  /** Which values a field takes: a switch, a ratio, or any other non-negative number, each on the rules that have it. */
  lemma FieldRules(s: Signal, v: Json)
    ensures FieldOk(s, "enabled", v) <==> v.JBool?
    ensures forall f :: f in {"weight", "windowSeconds"} ==> (FieldOk(s, f, v) <==> v.JNum? && v.x >= 0.0)
    ensures FieldOk(s, "minCancelRatio", v) <==> s.CreateCancelRatio? && v.JNum? && 0.0 <= v.x <= 1.0
    ensures FieldOk(s, "minCreates", v) <==> s.CreateCancelRatio? && v.JNum? && v.x >= 0.0
    ensures FieldOk(s, "maxDustUsd", v) <==> s.DustIntent? && v.JNum? && v.x >= 0.0
    ensures FieldOk(s, "maxCount", v) <==> s.BurstIdentical? && v.JNum? && v.x >= 0.0
    ensures FieldOk(s, "minAgeSeconds", v) <==> s.NewAddress? && v.JNum? && v.x >= 0.0
    ensures FieldOk(s, "minAddressesPerIp", v) <==> s.IpAsnCluster? && v.JNum? && v.x >= 0.0
    ensures FieldOk(s, "maxCycles", v) <==> s.SolverSpam? && v.JNum? && v.x >= 0.0
    ensures forall f :: FieldOk(s, f, v) ==>
              f in {"enabled", "weight", "windowSeconds", "minCancelRatio", "minCreates", "maxDustUsd", "maxCount", "minAgeSeconds",
                    "minAddressesPerIp", "maxCycles"}
  {
  }

  /** A body is accepted if and only if it sets something and sanitising would keep all of it, and then that is what is taken. */
  lemma PatchAcceptedIff(s: Signal, body: Json)
    ensures ValidatePatch(s, body).Some? <==> body.JObj? && body.members != map[] && Kept(s, body).Keys == body.members.Keys
    ensures ValidatePatch(s, body).Some? ==> ValidatePatch(s, body).value == Kept(s, body)
  {
    if body.JObj? && Kept(s, body).Keys == body.members.Keys {
      forall f | f in body.members ensures FieldOk(s, f, body.members[f]) { assert f in Kept(s, body); }
    }
  }

  /**
   * After an accepted PATCH the fields of the body have the body's values, the
   * fields overridden before and not in the body keep theirs, no other field
   * is overridden, and neither is any other rule.
   */
  lemma PatchFields(o: Overrides, s: Signal, body: Json, next: Overrides)
    requires Clean(o) && ValidatePatch(s, body).Some? && next == Stored(Mutate(o, Patch(s, ValidatePatch(s, body).value)))
    ensures s in next
    ensures forall f :: f in next[s] <==> f in body.members || (s in o && f in o[s])
    ensures forall f :: f in body.members ==> FromValue(next[s][f]) == body.members[f]
    ensures forall f :: f !in body.members && s in o && f in o[s] ==> next[s][f] == o[s][f]
    ensures forall t :: t != s ==> SameAt(next, o, t)
  {
    hide Sanitize, ToJson, Fields, FieldOk;
    ValidatedChangeKept(o, s, body);
    assert ValidatePatch(s, body).value.Keys == body.members.Keys;
  }

  /** And of the effective rule: the body's values, everything else of every rule as it was. */
  lemma PatchedRule(base: Rules, o: Overrides, s: Signal, body: Json, next: Overrides)
    requires Clean(o) && ValidatePatch(s, body).Some? && next == Stored(Mutate(o, Patch(s, ValidatePatch(s, body).value))) && s in base
    ensures forall f :: f in body.members ==> f in Merge(base, next)[s] && FromValue(Merge(base, next)[s][f]) == body.members[f]
    ensures forall f :: f !in body.members ==>
              (f in Merge(base, next)[s] <==> f in Merge(base, o)[s])
              && (f in Merge(base, o)[s] ==> Merge(base, next)[s][f] == Merge(base, o)[s][f])
    ensures forall t :: t in base && t != s ==> Merge(base, next)[t] == Merge(base, o)[t]
  {
    hide Stored, Mutate, ValidatePatch, Clean;
    PatchFields(o, s, body, next);
    forall t | t in base && t != s ensures Merge(base, next)[t] == Merge(base, o)[t] { MergeAt(base, next, o, t); }
  }

  /** Layering: an overridden field has the override's value, every other one that of the base. */
  lemma MergeFields(base: Rules, o: Overrides, s: Signal, f: string)
    requires s in base
    ensures Merge(base, o).Keys == base.Keys
    ensures f in Merge(base, o)[s] <==> f in base[s] || (s in o && f in o[s])
    ensures f in Merge(base, o)[s] ==> Merge(base, o)[s][f] == if s in o && f in o[s] then o[s][f] else base[s][f]
  {
  }
}
