/** Which load answers a read: the one in flight, the one whose value is stored and alive, or a new one. */
module ReadCacheAnswers {
  import opened Common
  import opened MemoryStore
  import opened ReadCache
  import opened ReadCacheProtocol

  lemma RunNext(capacity: nat, steps: seq<Step>, step: Step)
    ensures Run(capacity, steps + [step]) == Do(Run(capacity, steps), step)
  {
    assert (steps + [step])[..|steps|] == steps;
  }

  // ---------------------------------------------------------------- a read that has found its load

  /** Only load `l` can answer call `c` any more. */
  ghost predicate Bound(s: State, c: nat, l: nat) {
    c < |s.calls| &&
    match s.calls[c].phase
    case Hit(v) => v.load == l
    case Missed(_) => false
    case Waiting(m) => m == l
    case Answered(m) => m == l
  }

  lemma BoundKept(s: State, step: Step, c: nat, l: nat)
    requires Bound(s, c, l)
    ensures Bound(Do(s, step), c, l)
  {
    hide FullKey, Generation, WriteBack, InvalidateAll, Invalidate, Invalidations;
  }

  lemma {:induction false} BoundStays(capacity: nat, before: seq<Step>, after: seq<Step>, c: nat, l: nat)
    requires Bound(Run(capacity, before), c, l)
    ensures Bound(Run(capacity, before + after), c, l)
  {
    hide Bound, Do, Run;
    if after == [] {
      assert before + after == before;
    } else {
      var init, step := after[..|after| - 1], after[|after| - 1];
      BoundStays(capacity, before, init, c, l);
      assert before + after == (before + init) + [step];
      RunNext(capacity, before + init, step);
      BoundKept(Run(capacity, before + init), step, c, l);
    }
  }

  /** Call `c`, if it has returned, was answered by load `l`. */
  ghost predicate AnsweredOnlyBy(tr: seq<Event>, c: nat, l: nat) {
    forall j :: 0 <= j < |tr| && tr[j].Returned? && tr[j].call == c ==> tr[j].load == l
  }

  lemma BoundAnswers(capacity: nat, before: seq<Step>, after: seq<Step>, c: nat, l: nat)
    requires Bound(Run(capacity, before), c, l)
    ensures AnsweredOnlyBy(Run(capacity, before + after).trace, c, l)
  {
    hide Run;
    BoundStays(capacity, before, after, c, l);
    InvariantHolds(capacity, before + after);
    var s := Run(capacity, before + after);
    forall j | 0 <= j < |s.trace| && s.trace[j].Returned? && s.trace[j].call == c ensures s.trace[j].load == l {
      assert EventOk(s, j);
    }
  }

  /** A read that begins while a current shared load of its key is pending is answered by that load, whatever comes next. */
  lemma ReadCoalesces(capacity: nat, before: seq<Step>, after: seq<Step>, l: nat, storeFails: bool, now: int)
    requires var s := Run(capacity, before);
             && l < |s.loads| && s.loads[l].shared && !s.loads[l].progress.Settled?
             && s.loads[l].generation == Gen(s, s.loads[l].ks)
    ensures var s := Run(capacity, before);
            var request := Request(s.loads[l].ks, s.loads[l].key, false, storeFails, now);
            AnsweredOnlyBy(Run(capacity, before + [request] + after).trace, |s.calls|, l)
  {
    hide Run, FullKey, Generation;
    var s := Run(capacity, before);
    var request := Request(s.loads[l].ks, s.loads[l].key, false, storeFails, now);
    InvariantHolds(capacity, before);
    assert LoadOk(s, l);
    RunNext(capacity, before, request);
    BoundAnswers(capacity, before + [request], after, |s.calls|, l);
  }

  /** A read that finds a live stored value, and no pending load, is answered by the load that stored it. */
  lemma ReadHits(capacity: nat, before: seq<Step>, after: seq<Step>, ks: Keyspace, key: string, now: int)
    requires var s := Run(capacity, before);
             FullKey(ks, key) !in s.local.inFlight && Get(s.local.store, FullKey(ks, key), now).0.Some?
    ensures var s := Run(capacity, before);
            AnsweredOnlyBy(Run(capacity, before + [Request(ks, key, false, false, now)] + after).trace, |s.calls|,
                           Get(s.local.store, FullKey(ks, key), now).0.value.load)
  {
    hide Run, FullKey, Generation, Get;
    var s, request := Run(capacity, before), Request(ks, key, false, false, now);
    RunNext(capacity, before, request);
    BoundAnswers(capacity, before + [request], after, |s.calls|, Get(s.local.store, FullKey(ks, key), now).0.value.load);
  }

  /** A read that finds neither is answered by the load it starts, which is shared; a store that failed is not written back to. */
  lemma MissLoads(capacity: nat, before: seq<Step>, after: seq<Step>, ks: Keyspace, key: string, storeFails: bool, now: int)
    requires var s := Run(capacity, before);
             FullKey(ks, key) !in s.local.inFlight && (storeFails || Get(s.local.store, FullKey(ks, key), now).0.None?)
    ensures var s := Run(capacity, before);
            var steps := before + [Request(ks, key, false, storeFails, now)] + [Resume(|s.calls|)];
            var t := Run(capacity, steps);
            && |t.loads| == |s.loads| + 1
            && t.loads[|s.loads|] == Load(ks, key, Gen(s, ks), !storeFails, true, |s.trace| + 1, Running)
            && FullKey(ks, key) in t.local.inFlight && t.local.inFlight[FullKey(ks, key)].load == |s.loads|
            && AnsweredOnlyBy(Run(capacity, steps + after).trace, |s.calls|, |s.loads|)
  {
    hide Run, FullKey, Generation, Get;
    var s, request := Run(capacity, before), Request(ks, key, false, storeFails, now);
    RunNext(capacity, before, request);
    RunNext(capacity, before + [request], Resume(|s.calls|));
    BoundAnswers(capacity, before + [request] + [Resume(|s.calls|)], after, |s.calls|, |s.loads|);
  }

  /** A read that bypasses the cache is answered by a load of its own, which nobody joins and which is not stored. */
  lemma BypassLoads(capacity: nat, before: seq<Step>, after: seq<Step>, ks: Keyspace, key: string, storeFails: bool, now: int)
    ensures var s, request := Run(capacity, before), Request(ks, key, true, storeFails, now);
            var t := Run(capacity, before + [request]);
            && |t.loads| == |s.loads| + 1 && !t.loads[|s.loads|].shared && !t.loads[|s.loads|].healthy && t.local == s.local
            && AnsweredOnlyBy(Run(capacity, before + [request] + after).trace, |s.calls|, |s.loads|)
  {
    hide Run, FullKey, Generation;
    RunNext(capacity, before, Request(ks, key, true, storeFails, now));
    BoundAnswers(capacity, before + [Request(ks, key, true, storeFails, now)], after, |Run(capacity, before).calls|, |Run(capacity, before).loads|);
  }

  /** A load that runs to its end gives a waiting caller the database's version, or its failure. */
  lemma LoadAnswers(s: State, c: nat, l: nat, ttlMs: int, now: int)
    requires c < |s.calls| && l < |s.loads| && s.calls[c].phase == Waiting(l) && s.loads[l].progress.Running?
    ensures var t := Do(Do(Do(Do(s, ReadDatabase(l)), FinishLoad(l, ttlMs, now)), Settle(l)), Return(c));
            t.trace == s.trace + [Returned(c, l, Value(Version(s, s.loads[l].ks)))] && t.calls[c].phase == Answered(l)
    ensures var t := Do(Do(s, FailLoad(l)), Return(c));
            t.trace == s.trace + [Returned(c, l, Failed)] && t.calls[c].phase == Answered(l)
  {
    hide FullKey, Generation, WriteBack;
    var a := Do(s, ReadDatabase(l));
    var b := Do(a, FinishLoad(l, ttlMs, now));
    var d := Do(b, Settle(l));
    assert a.loads[l].progress == Seen(Version(s, s.loads[l].ks)) && a.calls == s.calls && a.trace == s.trace;
    assert b.loads[l].progress == Loaded(Version(s, s.loads[l].ks)) && b.calls == s.calls && b.trace == s.trace;
    assert d.loads[l].progress == Settled(Value(Version(s, s.loads[l].ks))) && d.calls == s.calls && d.trace == s.trace;
  }

  // ---------------------------------------------------------------- the store holds what was loaded, until it expires

  lemma DistinctKept(s: State, step: Step)
    requires Distinct(s.local.store)
    ensures Distinct(Do(s, step).local.store)
  {
    hide FullKey, Generation, Invalidations, Distinct, Get, WithoutKeyspace, InvalidateAll, WriteBack;
    match step
    case Request(ks, key, bypass, storeFails, now) => GetDistinct(s.local.store, FullKey(ks, key), now);
    case FinishLoad(l, ttlMs, now) =>
      if l < |s.loads| && s.loads[l].progress.Seen? {
        var x := s.loads[l];
        WriteBackDistinct(s.local, FullKey(x.ks, x.key), x.ks, x.generation, x.healthy, Cached(l, x.progress.version), ttlMs, now);
      }
    case InvalidateKeyspaces(keyspaces) => InvalidateAllDistinct(s.local, keyspaces);
    case RemoteNotice(ks, own) => FilterDistinct(s.local.store, (e: Entry<Cached>) => !(Prefix(ks) <= e.key)); InvalidateIs(s.local, ks);
    case _ =>
  }

  lemma InvalidateIs(l: Local, ks: Keyspace)
    ensures Invalidate(l, ks).store == Filter(l.store, (e: Entry<Cached>) => !(Prefix(ks) <= e.key))
  {
  }

  lemma WriteBackDistinct(l: Local, fullKey: string, ks: Keyspace, generation: nat, healthy: bool, value: Cached, ttlMs: int, now: int)
    requires Distinct(l.store)
    ensures Distinct(WriteBack(l, fullKey, ks, generation, healthy, value, ttlMs, now).store)
  {
    hide Generation, Distinct;
    GetAfterPut(l.store, Entry(fullKey, value, ks, now + ttlMs), l.capacity, now);
  }

  lemma GetDistinct(es: seq<Entry<Cached>>, key: string, now: int)
    requires Distinct(es)
    ensures Distinct(Get(es, key, now).1)
  {
    FilterDistinct(es, (e: Entry<Cached>) => e.key != key);
  }

  lemma {:induction false} InvalidateAllDistinct(l: Local, keyspaces: seq<Keyspace>)
    requires Distinct(l.store)
    ensures Distinct(InvalidateAll(l, keyspaces).store)
  {
    if keyspaces != [] {
      var init, ks := keyspaces[..|keyspaces| - 1], keyspaces[|keyspaces| - 1];
      InvalidateAllDistinct(l, init);
      FilterDistinct(InvalidateAll(l, init).store, (e: Entry<Cached>) => !(Prefix(ks) <= e.key));
    }
  }

  lemma {:induction false} DistinctHolds(capacity: nat, steps: seq<Step>)
    ensures Distinct(Run(capacity, steps).local.store) && Run(capacity, steps).local.capacity == capacity
  {
    if steps != [] {
      hide Do, Distinct;
      DistinctHolds(capacity, steps[..|steps| - 1]);
      DistinctKept(Run(capacity, steps[..|steps| - 1]), steps[|steps| - 1]);
      CapacityKept(Run(capacity, steps[..|steps| - 1]), steps[|steps| - 1]);
    } else {
      assert Run(capacity, []) == Init(capacity);
    }
  }

  lemma CapacityKept(s: State, step: Step)
    ensures Do(s, step).local.capacity == s.local.capacity
  {
    hide FullKey, Generation, Invalidations, Get, Put, WithoutKeyspace;
    if step.InvalidateKeyspaces? { InvalidateAllCapacity(s.local, step.keyspaces); }
  }

  lemma {:induction false} InvalidateAllCapacity(l: Local, keyspaces: seq<Keyspace>)
    ensures InvalidateAll(l, keyspaces).capacity == l.capacity
  {
    if keyspaces != [] { InvalidateAllCapacity(l, keyspaces[..|keyspaces| - 1]); }
  }

  /**
   * A load that resolves is found by readers of its key until its time is up,
   * if the store was healthy and can hold a value and no invalidation
   * intervened; otherwise the store is as before.
   */
  lemma FinishedIsStored(capacity: nat, before: seq<Step>, l: nat, ttlMs: int, at: int, now: int)
    requires var s := Run(capacity, before); l < |s.loads| && s.loads[l].progress.Seen?
    ensures var s, t := Run(capacity, before), Run(capacity, before + [FinishLoad(l, ttlMs, at)]);
            var x := s.loads[l];
            if x.healthy && x.generation == Gen(s, x.ks) && capacity > 0
            then Get(t.local.store, FullKey(x.ks, x.key), now).0 == if now < at + ttlMs then Some(Cached(l, x.progress.version)) else None
            else t.local.store == s.local.store || capacity == 0
  {
    hide Run, FullKey, Generation, Put, Get;
    DistinctHolds(capacity, before);
    RunNext(capacity, before, FinishLoad(l, ttlMs, at));
    var s := Run(capacity, before);
    var x := s.loads[l];
    GetAfterPut(s.local.store, Entry(FullKey(x.ks, x.key), Cached(l, x.progress.version), x.ks, at + ttlMs), capacity, now);
  }

  /** Where a stored value comes from, and how long it may be served. */
  ghost predicate Stamped(steps: seq<Step>, e: Entry<Cached>) {
    exists i :: 0 <= i < |steps| && Stamps(steps[i], e)
  }

  predicate Stamps(step: Step, e: Entry<Cached>) {
    step.FinishLoad? && step.load == e.value.load && e.expiresAt == step.now + step.ttlMs
  }

  lemma StepStamps(s: State, step: Step, e: Entry<Cached>)
    requires e in Do(s, step).local.store
    ensures e in s.local.store || Stamps(step, e)
  {
    hide FullKey, Generation, Invalidations, Put, InvalidateAll;
    if step.InvalidateKeyspaces? { InvalidateAllShrinks(s.local, step.keyspaces); }
  }

  lemma {:induction false} InvalidateAllShrinks(l: Local, keyspaces: seq<Keyspace>)
    ensures forall e :: e in InvalidateAll(l, keyspaces).store ==> e in l.store
    ensures forall k :: k in InvalidateAll(l, keyspaces).inFlight ==> k in l.inFlight && InvalidateAll(l, keyspaces).inFlight[k] == l.inFlight[k]
  {
    if keyspaces != [] { InvalidateAllShrinks(l, keyspaces[..|keyspaces| - 1]); }
  }

  lemma {:induction false} EntriesStamped(capacity: nat, steps: seq<Step>)
    ensures forall e :: e in Run(capacity, steps).local.store ==> Stamped(steps, e)
  {
    if steps != [] {
      hide Do, Stamps;
      var init, step := steps[..|steps| - 1], steps[|steps| - 1];
      EntriesStamped(capacity, init);
      forall e | e in Run(capacity, steps).local.store ensures Stamped(steps, e) {
        StepStamps(Run(capacity, init), step, e);
        if e in Run(capacity, init).local.store {
          var i :| 0 <= i < |init| && Stamps(init[i], e);
          assert Stamps(steps[i], e);
        } else {
          assert Stamps(steps[|steps| - 1], e);
        }
      }
    }
  }

  /** An invalidation removes the keyspace's entries and flights, and leaves those of every other keyspace alone. */
  lemma InvalidateIsExact(s: State, ks: Keyspace)
    requires Inv(s)
    ensures var t := Do(s, InvalidateKeyspaces([ks]));
            && (forall e :: e in t.local.store <==> e in s.local.store && s.loads[e.value.load].ks != ks)
            && (forall k :: k in t.local.inFlight <==> k in s.local.inFlight && s.local.inFlight[k].keyspace != ks)
            && (forall k :: k in t.local.inFlight ==> t.local.inFlight[k] == s.local.inFlight[k])
            && (forall other :: Gen(t, other) == Gen(s, other) + if other == ks then 1 else 0)
  {
    hide Invalidations, FullKey;
    assert [ks][..0] == [] && InvalidateAll(s.local, []) == s.local;
    forall e | e in s.local.store
      ensures e.value.load < |s.loads| && (Prefix(ks) <= e.key <==> s.loads[e.value.load].ks == ks)
    {
      assert EntryOk(s, e);
      PrefixDecidesKeyspace(ks, s.loads[e.value.load].ks, s.loads[e.value.load].key);
    }
  }

  // ---------------------------------------------------------------- a load that is over

  /** The clean-up of a settled load removes its flight and nothing else. */
  lemma FinallyEndsFlight(s: State, l: nat)
    requires Inv(s) && l < |s.loads| && s.loads[l].shared && s.loads[l].progress.Settled?
    ensures var t := Do(s, Finally(l));
            && (forall k :: k in t.local.inFlight <==> k in s.local.inFlight && s.local.inFlight[k].load != l)
            && (forall k :: k in t.local.inFlight ==> t.local.inFlight[k] == s.local.inFlight[k])
            && t.local == s.local.(inFlight := t.local.inFlight) && t == s.(local := t.local)
  {
    hide FullKey, Generation;
    forall k | k in s.local.inFlight && s.local.inFlight[k].load == l ensures k == FullKey(s.loads[l].ks, s.loads[l].key) {
      assert FlightOk(s, k);
    }
  }

  /** No flight is of load `l`, which is not a load to come. */
  ghost predicate Gone(s: State, l: nat) {
    l < |s.loads| && forall k :: k in s.local.inFlight ==> s.local.inFlight[k].load != l
  }

  lemma GoneKept(s: State, step: Step, l: nat)
    requires Gone(s, l)
    ensures Gone(Do(s, step), l)
  {
    hide FullKey, Generation, Invalidations, Get, Put, WithoutKeyspace, InvalidateAll;
    if step.InvalidateKeyspaces? { InvalidateAllShrinks(s.local, step.keyspaces); }
  }

  /** A call that is not bound to it will not be. */
  lemma AvoidsKept(s: State, step: Step, c: nat, l: nat)
    requires Gone(s, l) && c < |s.calls| && !Bound(s, c, l)
    ensures c < |Do(s, step).calls| && !Bound(Do(s, step), c, l)
  {
    hide FullKey, Generation, Invalidations, WriteBack, InvalidateAll, Invalidate;
  }

  lemma {:induction false} GoneStays(capacity: nat, before: seq<Step>, after: seq<Step>, l: nat)
    requires Gone(Run(capacity, before), l)
    ensures Gone(Run(capacity, before + after), l)
  {
    hide Gone, Do, Run;
    if after == [] {
      assert before + after == before;
    } else {
      var init, step := after[..|after| - 1], after[|after| - 1];
      GoneStays(capacity, before, init, l);
      assert before + after == (before + init) + [step];
      RunNext(capacity, before + init, step);
      GoneKept(Run(capacity, before + init), step, l);
    }
  }

  lemma {:induction false} AvoidsStays(capacity: nat, before: seq<Step>, after: seq<Step>, c: nat, l: nat)
    requires var s := Run(capacity, before); Gone(s, l) && c < |s.calls| && !Bound(s, c, l)
    ensures var t := Run(capacity, before + after); c < |t.calls| && !Bound(t, c, l)
  {
    hide Gone, Bound, Do, Run;
    if after == [] {
      assert before + after == before;
    } else {
      var init, step := after[..|after| - 1], after[|after| - 1];
      AvoidsStays(capacity, before, init, c, l);
      GoneStays(capacity, before, init, l);
      assert before + after == (before + init) + [step];
      RunNext(capacity, before + init, step);
      AvoidsKept(Run(capacity, before + init), step, c, l);
    }
  }

  lemma GoneAfterFinally(capacity: nat, before: seq<Step>, between: seq<Step>, l: nat)
    requires var s := Run(capacity, before); l < |s.loads| && s.loads[l].shared && s.loads[l].progress.Settled?
    ensures Gone(Run(capacity, before + [Finally(l)] + between), l)
  {
    hide Run, Do;
    InvariantHolds(capacity, before);
    FinallyEndsFlight(Run(capacity, before), l);
    RunNext(capacity, before, Finally(l));
    GoneStays(capacity, before + [Finally(l)], between, l);
  }

  /** What a read must have found to be bound to a load that is over. */
  lemma BoundByHit(s: State, request: Step, l: nat)
    requires Gone(s, l) && request.Request? && Bound(Do(s, request), |s.calls|, l)
    ensures exists e :: e in s.local.store && e.key == FullKey(request.ks, request.key) && e.value.load == l && request.now < e.expiresAt
  {
    hide FullKey, Generation;
  }

  /**
   * A read that begins after the clean-up of a settled load is answered by that
   * load only from the store, with a value some resolution stored for longer.
   */
  lemma ReadAfterFinally(capacity: nat, before: seq<Step>, between: seq<Step>, request: Step, after: seq<Step>, l: nat, returned: nat)
    requires var s := Run(capacity, before); l < |s.loads| && s.loads[l].shared && s.loads[l].progress.Settled?
    requires request.Request?
    requires var s := Run(capacity, before + [Finally(l)] + between);
             var tr := Run(capacity, before + [Finally(l)] + between + [request] + after).trace;
             returned < |tr| && tr[returned].Returned? && tr[returned].call == |s.calls| && tr[returned].load == l
    ensures var found := before + [Finally(l)] + between;
            exists e :: e in Run(capacity, found).local.store && e.key == FullKey(request.ks, request.key) && e.value.load == l
                        && request.now < e.expiresAt && Stamped(found, e)
  {
    hide Run, Do, FullKey, Stamped;
    var found := before + [Finally(l)] + between;
    var s, t := Run(capacity, found), Run(capacity, found + [request] + after);
    GoneAfterFinally(capacity, before, between, l);
    RunNext(capacity, found, request);
    InvariantHolds(capacity, found + [request] + after);
    assert EventOk(t, returned) && Bound(t, |s.calls|, l);
    if !Bound(Run(capacity, found + [request]), |s.calls|, l) {
      GoneKept(s, request, l);
      CallAdded(s, request);
      AvoidsStays(capacity, found + [request], after, |s.calls|, l);
      assert false;
    }
    BoundByHit(s, request, l);
    EntriesStamped(capacity, found);
  }

  lemma CallAdded(s: State, request: Step)
    requires request.Request?
    ensures |s.calls| < |Do(s, request).calls|
  {
    hide FullKey, Generation;
  }

  /** So a failed load answers no read that begins after its clean-up. */
  lemma FailureIsNotKept(capacity: nat, before: seq<Step>, between: seq<Step>, request: Step, after: seq<Step>, l: nat)
    requires var s := Run(capacity, before); l < |s.loads| && s.loads[l].shared && s.loads[l].progress == Settled(Failed)
    requires request.Request?
    ensures var s := Run(capacity, before + [Finally(l)] + between);
            var tr := Run(capacity, before + [Finally(l)] + between + [request] + after).trace;
            forall j :: 0 <= j < |tr| && tr[j].Returned? && tr[j].call == |s.calls| ==> tr[j].load != l
  {
    hide Run, Do, FullKey, Stamped;
    var found := before + [Finally(l)] + between;
    var s, tr := Run(capacity, found), Run(capacity, found + [request] + after).trace;
    InvariantHolds(capacity, found);
    SettledStays(capacity, before, [Finally(l)] + between, l);
    assert before + ([Finally(l)] + between) == found;
    forall j | 0 <= j < |tr| && tr[j].Returned? && tr[j].call == |s.calls| ensures tr[j].load != l {
      if tr[j].load == l {
        ReadAfterFinally(capacity, before, between, request, after, l, j);
        assert false;
      }
    }
  }

  lemma SettledKept(s: State, step: Step, l: nat)
    requires l < |s.loads| && s.loads[l].progress.Settled?
    ensures l < |Do(s, step).loads| && Do(s, step).loads[l] == s.loads[l]
  {
    hide FullKey, Generation, Invalidations, WriteBack, InvalidateAll, Invalidate;
  }

  lemma {:induction false} SettledStays(capacity: nat, before: seq<Step>, after: seq<Step>, l: nat)
    requires var s := Run(capacity, before); l < |s.loads| && s.loads[l].progress.Settled?
    ensures var s, t := Run(capacity, before), Run(capacity, before + after); l < |t.loads| && t.loads[l] == s.loads[l]
  {
    hide Do, Run;
    if after == [] {
      assert before + after == before;
    } else {
      var init, step := after[..|after| - 1], after[|after| - 1];
      SettledStays(capacity, before, init, l);
      assert before + after == (before + init) + [step];
      RunNext(capacity, before + init, step);
      SettledKept(Run(capacity, before + init), step, l);
    }
  }
}
