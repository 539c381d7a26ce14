/** Copying the audit log into its partitioned shadow table, by keyset batches with retries and resume. */
module Backfill {
  import opened Common
  import opened Keyset

  datatype LogRow = LogRow(timestamp: int, payload: string)

  type Rows = seq<Keyed<LogRow>>

  /** The partitioned table; its primary key must hold the partition column. */
  type Copy = map<(int, int), LogRow>

  function PrimaryKey(): Keyed<LogRow> -> (int, int) { (r: Keyed<LogRow>) => (r.id, r.data.timestamp) }

  function Insert(target: Copy, rows: Rows): Copy { InsertMissing(target, rows, PrimaryKey()) }

  const MAX_BATCH_SIZE := 5000

  datatype CopyResult = CopyResult(scanned: nat, copied: nat, batches: nat)

  datatype CopyError = BadBatchSize | Failed | Killed

  /** How an attempt at a batch ends. */
  datatype Fault = Fine | Retryable | Fatal

  /** Some attempt succeeds, after failures that may all be retried. */
  ghost predicate Lands(fault: nat -> Fault, maxRetries: nat) {
    exists k: nat :: k <= maxRetries && fault(k).Fine? && forall j: nat :: j < k ==> fault(j).Retryable?
  }

  /** The attempts at the batch after `cursor`. */
  function Attempts(fault: (int, nat) -> Fault, cursor: int): nat -> Fault { (k: nat) => fault(cursor, k) }

  ghost predicate AllLand(fault: (int, nat) -> Fault, maxRetries: nat) {
    forall cursor :: Lands(Attempts(fault, cursor), maxRetries)
  }

  /** What the final count looks for: a row without its id and timestamp in the target. */
  ghost predicate NoneMissing(rows: Rows, target: Copy) {
    forall row :: row in rows ==> (row.id, row.data.timestamp) in target
  }

  /** Source rows with from < id <= to. */
  function Between(t: Rows, from: int, to: int): Rows {
    Filter(t, (r: Keyed<LogRow>) => from < r.id <= to)
  }

  lemma {:induction false} BetweenThenAfter(t: Rows, from: int, mid: int)
    requires Sorted(t) && from <= mid
    ensures Between(t, from, mid) + After(t, mid) == After(t, from)
  {
    if t != [] {
      BetweenThenAfter(t[1..], from, mid);
      if t[0].id > mid {
        NoneBetween(t[1..], from, mid);
      }
    }
  }

  lemma {:induction false} NoneBetween(t: Rows, from: int, mid: int)
    requires forall r :: r in t ==> r.id > mid
    ensures Between(t, from, mid) == []
  {
    if t != [] {
      assert t[0] in t;
      NoneBetween(t[1..], from, mid);
    }
  }

  /** The first batch is exactly the rows up to its last id. */
  lemma BatchIsBetween(t: Rows, cursor: int, page: Rows, last: int, limit: nat)
    requires Sorted(t) && page == Page(t, cursor, limit) && page != [] && last == page[|page| - 1].id
    ensures last > cursor && Between(t, cursor, last) == page
  {
    NextPage(t, cursor, limit);
    BetweenThenAfter(t, cursor, last);
    var rest := After(t, last);
    assert (Between(t, cursor, last) + rest)[..|After(t, cursor)| - |rest|] == Between(t, cursor, last);
    assert (page + rest)[..|After(t, cursor)| - |rest|] == page;
  }

  lemma {:induction false} BetweenTwice(t: Rows, a: int, b: int, c: int)
    requires Sorted(t) && a <= b <= c
    ensures Between(t, a, b) + Between(t, b, c) == Between(t, a, c)
  {
    if t != [] {
      BetweenTwice(t[1..], a, b, c);
      if t[0].id > b {
        NoneBetween(t[1..], a, b);
      }
    }
  }

  lemma BetweenMembers(t: Rows, a: int, b: int, a': int, b': int)
    requires a <= a' && b' <= b
    ensures forall r :: r in Between(t, a', b') ==> r in Between(t, a, b)
  {
  }

  /** Copying an overlapping stretch again adds nothing: only the furthest id reached counts. */
  lemma Overlap(target: Copy, t: Rows, start: int, reached: int, from: int, to: int)
    requires Sorted(t) && start <= from <= reached
    ensures Insert(Insert(target, Between(t, start, reached)), Between(t, from, to))
            == Insert(target, Between(t, start, if reached < to then to else reached))
  {
    var done := Insert(target, Between(t, start, reached));
    InsertMissingHolds(target, Between(t, start, reached), PrimaryKey());
    if to <= reached {
      BetweenMembers(t, start, reached, from, to);
      InsertAgain(done, Between(t, from, to), PrimaryKey());
    } else {
      BetweenTwice(t, from, reached, to);
      BetweenMembers(t, start, reached, from, reached);
      InsertMissingConcat(done, Between(t, from, reached), Between(t, reached, to), PrimaryKey());
      InsertAgain(done, Between(t, from, reached), PrimaryKey());
      BetweenTwice(t, start, reached, to);
      InsertMissingConcat(target, Between(t, start, reached), Between(t, reached, to), PrimaryKey());
    }
  }

  class AuditCopy {
    const source: Rows
    var target: Copy
    var saved: int  // the state file; 0 when there is none

    constructor (source: Rows, target: Copy)
      requires Sorted(source)
      ensures this.source == source && this.target == target && saved == 0
    {
      this.source, this.target, saved := source, target, 0;
    }

    /** One batch statement in its own transaction, retried on lock and serialisation failures. */
    method CopyBatch(cursor: int, batchSize: nat, maxRetries: nat, fault: nat -> Fault) returns (ok: bool, page: Rows, copied: nat)
      modifies this`target
      ensures ok <==> Lands(fault, maxRetries)
      ensures ok ==> page == Page(source, cursor, batchSize) && target == Insert(old(target), page)
      ensures ok ==> copied == |target| - |old(target)|
      ensures !ok ==> target == old(target)
    {
      var attempt := 0;
      ok, page, copied := false, [], 0;
      while true
        invariant target == old(target) && attempt <= maxRetries
        invariant forall j: nat :: j < attempt ==> fault(j).Retryable?
        decreases maxRetries - attempt
      {
        if fault(attempt).Fine? {
          page := Page(source, cursor, batchSize);
          var next := Insert(target, page);
          InsertGrows(target, page);
          copied := |next| - |target|;
          target := next;
          return true, page, copied;
        }
        if fault(attempt).Fatal? || attempt >= maxRetries { return; }
        attempt := attempt + 1;
      }
    }

    /**
     * Copy every source row past the saved id; stopped anywhere, the target
     * holds all rows up to some id at or past the saved one. A run that is not
     * killed and whose batches all land completes.
     */
    method CopyAuditRows(batchSize: int, maxRetries: nat, fault: (int, nat) -> Fault, calm: bool)
      returns (result: Result<CopyResult, CopyError>, ghost reached: int)
      requires Sorted(source)
      modifies this`target, this`saved
      ensures result == Err(BadBatchSize) <==> !(1 <= batchSize <= MAX_BATCH_SIZE)
      ensures calm && AllLand(fault, maxRetries) && 1 <= batchSize <= MAX_BATCH_SIZE ==> result.Ok?
      ensures old(saved) <= saved <= reached
      ensures target == Insert(old(target), Between(source, old(saved), reached))
      ensures result.Ok? ==> After(source, reached) == [] && saved == reached
      ensures result.Ok? ==> result.value.scanned == |After(source, old(saved))| && result.value.copied == |target| - |old(target)|
      ensures result.Ok? ==> FullBatches(result.value, batchSize)
    {
      hide FullBatches, Lands, Insert, Between, After, Page, Sorted;
      reached := saved;
      EmptyBetween(source, saved);
      InsertNothing(target);
      if batchSize < 1 || batchSize > MAX_BATCH_SIZE { return Err(BadBatchSize), reached; }
      var counts := CopyResult(0, 0, 0);
      var cursor := saved;
      var more := true;
      NoBatches(batchSize);
      while more
        invariant old(saved) <= saved == cursor == reached
        invariant target == Insert(old(target), Between(source, old(saved), cursor))
        invariant counts.scanned == |Between(source, old(saved), cursor)| && counts.copied == |target| - |old(target)|
        invariant !more ==> After(source, cursor) == []
        invariant if more then counts.scanned == counts.batches * batchSize else FullBatches(counts, batchSize)
        decreases |After(source, cursor)|, more
      {
        InsertNothing(target);
        var ok, page, copied := CopyBatch(cursor, batchSize, maxRetries, Attempts(fault, cursor));
        if !ok { return Err(Failed), reached; }
        if page == [] { AllFull(counts, batchSize); break; }
        var last := page[|page| - 1].id;
        BatchCopied(old(target), source, old(saved), cursor, page, last, batchSize);
        BatchCounted(counts, |page|, copied, batchSize);
        reached := last;
        var killed := Fails(calm);
        if killed { return Err(Killed), reached; }  // committed, but the state file not yet written
        cursor := last;
        counts := CopyResult(counts.scanned + |page|, counts.copied + copied, counts.batches + 1);
        saved := last;
        killed := Fails(calm);
        if killed { return Err(Killed), reached; }
        more := |page| >= batchSize;
      }
      BetweenThenAfter(source, old(saved), reached);
      return Ok(counts), reached;
    }

    /**
     * Any number of interrupted runs, each resumed from the state file, then
     * one that completes; a run that is calm and whose batches all land is one.
     */
    method ResumeUntilDone(runs: nat, batchSize: int, maxRetries: nat, fault: (nat, int, nat) -> Fault, calm: nat -> bool) returns (done: bool)
      requires Sorted(source)
      modifies this`target, this`saved
      ensures done ==> target == Insert(old(target), After(source, old(saved)))
      ensures done ==> NoneMissing(After(source, old(saved)), target)
      ensures (exists r: nat :: r < runs && calm(r) && AllLand(FaultsOf(fault, r), maxRetries)) && 1 <= batchSize <= MAX_BATCH_SIZE ==> done
    {
      hide AllLand;
      ghost var reached := saved;
      EmptyBetween(source, saved);
      var i := 0;
      while i < runs
        invariant 0 <= i <= runs && old(saved) <= saved <= reached
        invariant target == Insert(old(target), Between(source, old(saved), reached))
        invariant 1 <= batchSize <= MAX_BATCH_SIZE ==> forall r: nat :: r < i ==> !(calm(r) && AllLand(FaultsOf(fault, r), maxRetries))
      {
        ghost var from := saved;
        var result; ghost var to;
        result, to := CopyAuditRows(batchSize, maxRetries, FaultsOf(fault, i), calm(i));
        Overlap(old(target), source, old(saved), reached, from, to);
        reached := if reached < to then to else reached;
        if result.Ok? {
          AfterFurther(source, to, reached);
          BetweenThenAfter(source, old(saved), reached);
          assert Between(source, old(saved), reached) == After(source, old(saved));
          InsertMissingHolds(old(target), After(source, old(saved)), PrimaryKey());
          return true;
        }
        i := i + 1;
      }
      return false;
    }
  }

  /** The faults of one run. */
  function FaultsOf(fault: (nat, int, nat) -> Fault, run: nat): (int, nat) -> Fault { (cursor: int, k: nat) => fault(run, cursor, k) }

  /** As many batches as it takes to scan that many rows. */
  ghost predicate FullBatches(c: CopyResult, batchSize: int) {
    (c.batches - 1) * batchSize < c.scanned <= c.batches * batchSize || (c.batches == 0 && c.scanned == 0)
  }

  lemma NoBatches(batchSize: int)
    ensures 0 * batchSize == 0
  {
  }

  lemma AllFull(c: CopyResult, batchSize: int)
    requires batchSize > 0 && c.scanned == c.batches * batchSize
    ensures FullBatches(c, batchSize)
  {
    assert (c.batches - 1) * batchSize == c.batches * batchSize - batchSize;
  }

  lemma BatchCounted(c: CopyResult, rows: nat, copied: nat, batchSize: int)
    requires batchSize > 0 && 0 < rows <= batchSize && c.scanned == c.batches * batchSize
    ensures (c.batches + 1) * batchSize == c.batches * batchSize + batchSize
    ensures FullBatches(CopyResult(c.scanned + rows, c.copied + copied, c.batches + 1), batchSize)
  {
    assert (c.batches + 1) * batchSize == c.batches * batchSize + batchSize;
  }

  lemma {:induction false} EmptyBetween(t: Rows, at: int)
    ensures Between(t, at, at) == []
  {
    if t != [] { EmptyBetween(t[1..], at); }
  }

  lemma InsertNothing(target: Copy)
    ensures Insert(target, []) == target
  {
  }

  lemma AfterFurther(t: Rows, a: int, b: int)
    requires a <= b && After(t, a) == []
    ensures After(t, b) == []
  {
    AfterTwice(t, a, b);
  }

  lemma BatchCopied(target: Copy, t: Rows, start: int, cursor: int, page: Rows, last: int, limit: nat)
    requires Sorted(t) && start <= cursor && page == Page(t, cursor, limit) && page != [] && last == page[|page| - 1].id
    ensures cursor < last
    ensures Insert(Insert(target, Between(t, start, cursor)), page) == Insert(target, Between(t, start, last))
    ensures |Between(t, start, cursor)| + |page| == |Between(t, start, last)|
    ensures |After(t, last)| < |After(t, cursor)| && (|page| < limit ==> After(t, last) == [])
  {
    BatchIsBetween(t, cursor, page, last, limit);
    BetweenTwice(t, start, cursor, last);
    InsertMissingConcat(target, Between(t, start, cursor), page, PrimaryKey());
    NextPage(t, cursor, limit);
  }

  lemma {:induction false} InsertGrows(m: Copy, rows: Rows)
    ensures |Insert(m, rows)| >= |m|
  {
    if rows != [] { InsertGrows(m, rows[..|rows| - 1]); }
  }
}
