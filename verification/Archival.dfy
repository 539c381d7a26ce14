/**
 * Cold archival: export a date's terminal intents and their audit rows,
 * write a manifest, verify the uploads, then delete. Every await may be the
 * last one of a run, and every upload may store the wrong bytes, except in a
 * run that is `calm`.
 */
module Archival {
  import opened Common
  import opened Keyset

  datatype IntentState =
    | Open | Accepted | Filled | Cancelled | Expired | Slashed
    | PendingOpen | PendingAccepted | PendingFilled | PendingCancelled

  const TERMINAL_STATES := [Filled, Cancelled, Expired, Slashed]

  /** A UTC day, counted from the epoch; times are in seconds. */
  type Date = int

  const DAY := 86400

  /** The columns of an intent that are exported. */
  datatype Columns = Columns(state: IntentState, createdAt: int, payload: string)

  /** The columns that are not; a time that is kept twice counts once as exported and once here. */
  datatype Unexported = Unexported(
    id: string,
    auction: Option<string>,
    idempotencyKey: Option<string>,
    srcTxHash: Option<string>,
    srcVerification: Option<string>,
    usdValueAtCreate: Option<string>,
    fillVerifiedAt: Option<string>,
    fillVerificationState: Option<string>,
    fillVerificationReason: Option<string>,
    allowPartialFill: bool,
    minFillAmount: Option<string>,
    timeTwins: string)

  datatype Intent = Intent(columns: Columns, rest: Unexported)

  /** `metadata` is JSON text. */
  datatype Audit = Audit(intentId: int, payload: string, metadata: Option<string>)

  type Intents = seq<Keyed<Intent>>
  type Audits = seq<Keyed<Audit>>
  type ArchivedIntents = seq<Keyed<Columns>>
  type ArchivedAudits = seq<Keyed<Audit>>

  /** What the export keeps of an intent. */
  function Exported(): Intent -> Columns { (r: Intent) => r.columns }

  predicate Truthy(json: string) { json !in ["null", "false", "0", "\"\""] }

  /** What the export keeps of an audit row: falsy metadata becomes none. */
  function ExportedAudit(): Audit -> Audit {
    (a: Audit) => a.(metadata := if a.metadata.Some? && Truthy(a.metadata.value) then a.metadata else None)
  }

  function Archived(r: Keyed<Intent>): Keyed<Columns> { Keyed(r.id, Exported()(r.data)) }

  function ArchivedAudit(a: Keyed<Audit>): Keyed<Audit> { Keyed(a.id, ExportedAudit()(a.data)) }

  datatype ObjectKey = ManifestKey(date: Date) | IntentsKey(date: Date, index: nat) | AuditKey(date: Date, index: nat)

  /** Stored bytes. Parquet is an exact container for its rows; `Other` is anything else. */
  datatype Blob = IntentsFile(intents: ArchivedIntents) | AuditFile(audits: ArchivedAudits) | ManifestFile(manifest: Manifest) | Other(bytes: string)

  /** SHA-256, taken to be injective. */
  datatype Digest = Sha(of: Blob)

  /** The `type` (or older `kind`) of a manifest entry. */
  datatype FileKind = IntentsKind | AuditKind | NoKind

  datatype FileRef = FileRef(key: ObjectKey, kind: FileKind, rowCount: nat, sha256: Digest)

  datatype Manifest = Manifest(date: Date, files: seq<FileRef>)

  type Bucket = map<ObjectKey, Blob>

  function Sha256(b: Blob): Digest { Sha(b) }

  predicate Matches(bucket: Bucket, f: FileRef) {
    f.key in bucket && Sha256(bucket[f.key]) == f.sha256
  }

  /** `verifyManifest`: every listed file is there with the expected digest. */
  predicate Verified(bucket: Bucket, files: seq<FileRef>) {
    forall i :: 0 <= i < |files| ==> Matches(bucket, files[i])
  }

  /** The query: a terminal state, and created within the bounds of the date. */
  function IsEligible(date: Date): Keyed<Intent> -> bool {
    (r: Keyed<Intent>) => r.data.columns.state in TERMINAL_STATES && date * DAY <= r.data.columns.createdAt < (date + 1) * DAY
  }

  function Eligible(t: Intents, date: Date): Intents { Filter(t, IsEligible(date)) }

  /** Nothing can happen to the intent any more, and it was created on that day. */
  ghost predicate Due(r: Keyed<Intent>, date: Date) {
    && (match r.data.columns.state
        case Filled | Cancelled | Expired | Slashed => true
        case Open | Accepted | PendingOpen | PendingAccepted | PendingFilled | PendingCancelled => false)
    && r.data.columns.createdAt / DAY == date
  }

  lemma EligibleIff(r: Keyed<Intent>, date: Date)
    ensures IsEligible(date)(r) <==> Due(r, date)
  {
  }

  /** A run selects exactly the due intents, unless its files may hold no rows. */
  lemma SelectedIff(t: Intents, date: Date, maxRowsPerFile: nat, r: Keyed<Intent>)
    ensures r in Selection(t, date, maxRowsPerFile) <==> r in t && maxRowsPerFile > 0 && Due(r, date)
  {
    EligibleIff(r, date);
  }

  /** What a run exports; `take: 0` selects nothing. */
  function Selection(t: Intents, date: Date, maxRowsPerFile: nat): Intents {
    if maxRowsPerFile == 0 then [] else Eligible(t, date)
  }

  function WithoutIds(t: Intents, ids: seq<int>): Intents {
    Filter(t, (r: Keyed<Intent>) => r.id !in ids)
  }

  function WithoutAuditsOf(t: Audits, ids: seq<int>): Audits {
    Filter(t, (a: Keyed<Audit>) => a.data.intentId !in ids)
  }

  function AuditsOf(t: Audits, ids: seq<int>): Audits {
    Filter(t, (a: Keyed<Audit>) => a.data.intentId in ids)
  }

  /** Rows recorded by the files' digests, in file order. */
  function IntentRows(files: seq<FileRef>): ArchivedIntents {
    if files == [] then []
    else
      var f := files[|files| - 1];
      IntentRows(files[..|files| - 1]) + if f.sha256.of.IntentsFile? then f.sha256.of.intents else []
  }

  function AuditRows(files: seq<FileRef>): ArchivedAudits {
    if files == [] then []
    else
      var f := files[|files| - 1];
      AuditRows(files[..|files| - 1]) + if f.sha256.of.AuditFile? then f.sha256.of.audits else []
  }

  lemma {:induction false} IntentRowsConcat(a: seq<FileRef>, b: seq<FileRef>)
    ensures IntentRows(a + b) == IntentRows(a) + IntentRows(b)
  {
    if b == [] { assert a + b == a; } else {
      assert (a + b)[..|a + b| - 1] == a + b[..|b| - 1];
      IntentRowsConcat(a, b[..|b| - 1]);
    }
  }

  lemma {:induction false} AuditRowsConcat(a: seq<FileRef>, b: seq<FileRef>)
    ensures AuditRows(a + b) == AuditRows(a) + AuditRows(b)
  {
    if b == [] { assert a + b == a; } else {
      assert (a + b)[..|a + b| - 1] == a + b[..|b| - 1];
      AuditRowsConcat(a, b[..|b| - 1]);
    }
  }

  const AUDIT_BATCH := 5000
  const DELETE_BATCH := 1000

  ghost predicate FilesOf(files: seq<FileRef>, date: Date) {
    forall i :: 0 <= i < |files| ==> files[i].key.date == date && Labelled(files[i])
  }

  /** The entry's kind is that of the bytes it records. */
  predicate Labelled(f: FileRef) {
    && (f.kind.IntentsKind? <==> f.sha256.of.IntentsFile?)
    && (f.kind.AuditKind? <==> f.sha256.of.AuditFile?)
    && !f.kind.NoKind? && !f.key.ManifestKey?
  }

  datatype Outcome = Skipped | Stopped | Rejected | Done(manifest: Manifest)

  /** A run for `date` before its manifest is written touches only that date's data files. */
  ghost predicate OnlyDataOf(a: Bucket, b: Bucket, date: Date) {
    forall k: ObjectKey :: k.date != date || k.ManifestKey? ==> (k in a <==> k in b) && (k in a ==> a[k] == b[k])
  }

  lemma OnlyDataOfChain(a: Bucket, b: Bucket, c: Bucket, date: Date)
    requires OnlyDataOf(a, b, date) && OnlyDataOf(b, c, date)
    ensures OnlyDataOf(a, c, date)
  {
  }

  /** Exporting one more page keeps "exported so far, then the rest" equal to the whole selection. */
  lemma IntentPageExported(files: seq<FileRef>, f: FileRef, rows: Intents, cursor: int, limit: nat)
    requires Sorted(rows) && Page(rows, cursor, limit) != []
    requires IntentRows(files) + Mapped(After(rows, cursor), Exported()) == Mapped(rows, Exported())
    requires f.sha256 == Sha256(IntentsFile(Mapped(Page(rows, cursor, limit), Exported())))
    ensures var page := Page(rows, cursor, limit);
            var last := page[|page| - 1].id;
            && IntentRows(files + [f]) == IntentRows(files) + Mapped(page, Exported()) && AuditRows(files + [f]) == AuditRows(files)
            && IntentRows(files + [f]) + Mapped(After(rows, last), Exported()) == Mapped(rows, Exported())
            && |After(rows, last)| < |After(rows, cursor)| && (|page| < limit ==> After(rows, last) == [])
  {
    hide Mapped, Sorted, After, Page;
    var page := Page(rows, cursor, limit);
    var rest := After(rows, page[|page| - 1].id);
    assert (files + [f])[..|files|] == files;
    assert IntentRows(files + [f]) == IntentRows(files) + Mapped(page, Exported());
    assert After(rows, cursor) == page + rest by { NextPage(rows, cursor, limit); }
    MappedConcat(page, rest, Exported());
    assert IntentRows(files) + (Mapped(page, Exported()) + Mapped(rest, Exported()))
        == (IntentRows(files) + Mapped(page, Exported())) + Mapped(rest, Exported());
  }

  lemma AuditPageExported(files: seq<FileRef>, f: FileRef, rows: Audits, cursor: int, limit: nat)
    requires Sorted(rows) && Page(rows, cursor, limit) != []
    requires AuditRows(files) + Mapped(After(rows, cursor), ExportedAudit()) == Mapped(rows, ExportedAudit())
    requires f.sha256 == Sha256(AuditFile(Mapped(Page(rows, cursor, limit), ExportedAudit())))
    ensures var page := Page(rows, cursor, limit);
            var last := page[|page| - 1].id;
            && AuditRows(files + [f]) == AuditRows(files) + Mapped(page, ExportedAudit()) && IntentRows(files + [f]) == IntentRows(files)
            && AuditRows(files + [f]) + Mapped(After(rows, last), ExportedAudit()) == Mapped(rows, ExportedAudit())
            && |After(rows, last)| < |After(rows, cursor)| && (|page| < limit ==> After(rows, last) == [])
  {
    hide Mapped, Sorted, After, Page;
    var page := Page(rows, cursor, limit);
    var rest := After(rows, page[|page| - 1].id);
    assert (files + [f])[..|files|] == files;
    assert AuditRows(files + [f]) == AuditRows(files) + Mapped(page, ExportedAudit());
    assert After(rows, cursor) == page + rest by { NextPage(rows, cursor, limit); }
    MappedConcat(page, rest, ExportedAudit());
    assert AuditRows(files) + (Mapped(page, ExportedAudit()) + Mapped(rest, ExportedAudit()))
        == (AuditRows(files) + Mapped(page, ExportedAudit())) + Mapped(rest, ExportedAudit());
  }

  ghost predicate OnlyAuditFiles(a: Bucket, b: Bucket) {
    forall k: ObjectKey :: !k.AuditKey? ==> (k in a <==> k in b) && (k in a ==> a[k] == b[k])
  }

  /** A file stored under a key of its own leaves the others verified. */
  lemma VerifiedNext(a: Bucket, b: Bucket, files: seq<FileRef>, f: FileRef)
    requires Verified(a, files) && b == a[f.key := f.sha256.of]
    requires forall i :: 0 <= i < |files| ==> files[i].key != f.key
    ensures Verified(b, files + [f])
  {
    forall i | 0 <= i < |files| ensures Matches(b, files[i]) { assert Matches(a, files[i]); }
  }

  /** Numbered intent files, all stored as recorded. */
  ghost predicate IntentFiles(bucket: Bucket, files: seq<FileRef>, date: Date) {
    Verified(bucket, files) && forall i :: 0 <= i < |files| ==> files[i].key == IntentsKey(date, i)
  }

  /** The same of audit files, and nothing else was stored since `start`. */
  ghost predicate AuditFiles(start: Bucket, bucket: Bucket, files: seq<FileRef>, date: Date) {
    && Verified(bucket, files) && OnlyAuditFiles(start, bucket)
    && forall i :: 0 <= i < |files| ==> files[i].key == AuditKey(date, i)
  }

  lemma NoFiles(bucket: Bucket, date: Date)
    ensures FilesOf([], date) && IntentFiles(bucket, [], date) && AuditFiles(bucket, bucket, [], date)
  {
  }

  lemma FilesOfNext(files: seq<FileRef>, f: FileRef, date: Date)
    requires FilesOf(files, date) && f.key.date == date && Labelled(f)
    ensures FilesOf(files + [f], date)
  {
  }

  lemma IntentFilesNext(a: Bucket, b: Bucket, files: seq<FileRef>, f: FileRef, date: Date)
    requires IntentFiles(a, files, date) && f.key == IntentsKey(date, |files|) && b == a[f.key := f.sha256.of]
    ensures IntentFiles(b, files + [f], date)
  {
    VerifiedNext(a, b, files, f);
  }

  lemma AuditFilesNext(start: Bucket, a: Bucket, b: Bucket, files: seq<FileRef>, f: FileRef, date: Date)
    requires AuditFiles(start, a, files, date) && f.key == AuditKey(date, |files|) && b == a[f.key := f.sha256.of]
    ensures AuditFiles(start, b, files + [f], date)
  {
    VerifiedNext(a, b, files, f);
  }

  lemma VerifiedBoth(a: Bucket, b: Bucket, intents: seq<FileRef>, audits: seq<FileRef>)
    requires Verified(a, intents) && Verified(b, audits) && OnlyAuditFiles(a, b)
    requires forall i :: 0 <= i < |intents| ==> intents[i].key.IntentsKey?
    ensures Verified(b, intents + audits)
  {
    forall i | 0 <= i < |intents| ensures Matches(b, intents[i]) { assert Matches(a, intents[i]); }
  }

  lemma VerifiedBesideManifest(a: Bucket, files: seq<FileRef>, date: Date, blob: Blob)
    requires Verified(a, files) && FilesOf(files, date)
    ensures Verified(a[ManifestKey(date) := blob], files)
  {
    forall i | 0 <= i < |files| ensures Matches(a[ManifestKey(date) := blob], files[i]) { assert Matches(a, files[i]) && Labelled(files[i]); }
  }

  ghost predicate Tables(intents: Intents, audits: Audits) {
    && Sorted(intents) && (forall r :: r in intents ==> r.id > 0)
    && Sorted(audits) && (forall a :: a in audits ==> a.id > 0)
  }

  /** The export starts from a sorted selection, none of it read yet. */
  lemma SelectionStart(intents: Intents, audits: Audits, date: Date, maxRowsPerFile: nat)
    requires Tables(intents, audits)
    ensures Sorted(Selection(intents, date, maxRowsPerFile))
    ensures After(Selection(intents, date, maxRowsPerFile), 0) == Selection(intents, date, maxRowsPerFile)
  {
    FilterSorted(intents, IsEligible(date));
    AllAfter(Selection(intents, date, maxRowsPerFile), 0);
  }

  lemma AuditsOfStart(intents: Intents, audits: Audits, ids: seq<int>)
    requires Tables(intents, audits)
    ensures Sorted(AuditsOf(audits, ids)) && After(AuditsOf(audits, ids), 0) == AuditsOf(audits, ids)
  {
    FilterSorted(audits, (a: Keyed<Audit>) => a.data.intentId in ids);
    AllAfter(AuditsOf(audits, ids), 0);
  }

  lemma EmptyPage<T>(rows: seq<Keyed<T>>, cursor: int, limit: nat)
    requires limit > 0
    ensures Page(rows, cursor, limit) == [] ==> After(rows, cursor) == []
  {
  }

  lemma SelectionEnd(intents: Intents, date: Date, cursor: int, maxRowsPerFile: nat)
    ensures var rows := Selection(intents, date, maxRowsPerFile);
            Page(rows, cursor, maxRowsPerFile) == [] ==> After(rows, cursor) == []
  {
    if maxRowsPerFile > 0 { EmptyPage(Selection(intents, date, maxRowsPerFile), cursor, maxRowsPerFile); }
  }

  lemma OnlyDataOfSame(a: Bucket, date: Date)
    ensures OnlyDataOf(a, a, date)
  {
  }

  ghost predicate Sealed(bucket: Bucket, sealed: seq<FileRef>) {
    Verified(bucket, sealed) && forall i :: 0 <= i < |sealed| ==> ManifestKey(sealed[i].key.date) in bucket
  }

  /** The exported columns of every deleted row are in a file that still matches the digest it was verified against. */
  ghost predicate NothingLost(bucket: Bucket, sealed: seq<FileRef>, removedIntents: set<Keyed<Intent>>, removedAudits: set<Keyed<Audit>>) {
    && Sealed(bucket, sealed)
    && (forall r :: r in removedIntents ==> Archived(r) in IntentRows(sealed))
    && (forall a :: a in removedAudits ==> ArchivedAudit(a) in AuditRows(sealed))
  }

  class ArchivalService {
    const maxRowsPerFile: nat
    var intents: Intents
    var audits: Audits
    var bucket: Bucket

    /** Files of verified manifests, and every row a run has deleted. */
    ghost var sealed: seq<FileRef>
    ghost var removedIntents: set<Keyed<Intent>>
    ghost var removedAudits: set<Keyed<Audit>>

    ghost predicate Valid()
      reads this
    {
      Tables(intents, audits) && NothingLost(bucket, sealed, removedIntents, removedAudits)
    }

    constructor (maxRowsPerFile: nat, intents: Intents, audits: Audits, bucket: Bucket)
      requires Sorted(intents) && Sorted(audits)
      requires (forall r :: r in intents ==> r.id > 0) && (forall a :: a in audits ==> a.id > 0)
      ensures Valid() && this.intents == intents && this.audits == audits && this.bucket == bucket
      ensures removedIntents == {} && removedAudits == {}
    {
      this.maxRowsPerFile := maxRowsPerFile;
      this.intents, this.audits, this.bucket := intents, audits, bucket;
      sealed, removedIntents, removedAudits := [], {}, {};
    }

    /** An upload that may not happen, or may store other bytes. */
    method Put(key: ObjectKey, body: Blob, calm: bool) returns (ok: bool)
      modifies this`bucket
      ensures calm ==> ok && bucket == old(bucket)[key := body]
      ensures bucket == old(bucket) || (key in bucket && bucket == old(bucket)[key := bucket[key]])
      ensures ok ==> key in bucket
    {
      var stop := Fails(calm);
      if stop { return false; }
      var stored := body;
      if !calm { stored := *; }
      bucket := bucket[key := stored];
      stop := Fails(calm);
      if stop { return false; }
      return true;
    }

    /** One page: read it, write its file. */
    method UploadIntents(batch: Intents, date: Date, index: nat, calm: bool) returns (ok: bool, f: FileRef)
      modifies this`bucket
      ensures calm ==> ok && bucket == old(bucket)[f.key := f.sha256.of]
      ensures OnlyDataOf(old(bucket), bucket, date)
      ensures f == FileRef(IntentsKey(date, index), IntentsKind, |batch|, Sha256(IntentsFile(Mapped(batch, Exported()))))
    {
      var body := IntentsFile(Mapped(batch, Exported()));
      f := FileRef(IntentsKey(date, index), IntentsKind, |batch|, Sha256(body));
      ok := Put(f.key, body, calm);
    }

    method UploadAudits(batch: Audits, date: Date, index: nat, calm: bool) returns (ok: bool, f: FileRef)
      modifies this`bucket
      ensures calm ==> ok && bucket == old(bucket)[f.key := f.sha256.of]
      ensures OnlyDataOf(old(bucket), bucket, date)
      ensures f == FileRef(AuditKey(date, index), AuditKind, |batch|, Sha256(AuditFile(Mapped(batch, ExportedAudit()))))
    {
      var body := AuditFile(Mapped(batch, ExportedAudit()));
      f := FileRef(AuditKey(date, index), AuditKind, |batch|, Sha256(body));
      ok := Put(f.key, body, calm);
    }

    method ExportIntents(date: Date, calm: bool) returns (ok: bool, files: seq<FileRef>, ids: seq<int>)
      requires Tables(intents, audits)
      modifies this`bucket
      ensures calm ==> ok && IntentFiles(bucket, files, date)
      ensures OnlyDataOf(old(bucket), bucket, date)
      ensures ok ==> FilesOf(files, date) && AuditRows(files) == []
      ensures ok ==> IntentRows(files) == Mapped(Selection(intents, date, maxRowsPerFile), Exported()) && ids == IdsOf(IntentRows(files))
    {
      hide Tables, Selection, Page, After, OnlyDataOf, Sorted, IdsOf, Mapped, FilesOf, IntentFiles;
      NoFiles(bucket, date);
      files, ids, ok := [], [], false;
      ghost var rows := Selection(intents, date, maxRowsPerFile);
      SelectionStart(intents, audits, date, maxRowsPerFile);
      OnlyDataOfSame(bucket, date);
      MappedConcat([], [], Exported());
      MappedHolds([], Exported());
      assert ids == IdsOf(IntentRows(files)) by { NoIds(); }
      var cursor, more := 0, true;
      while more
        invariant OnlyDataOf(old(bucket), bucket, date) && FilesOf(files, date)
        invariant IntentRows(files) + Mapped(After(rows, cursor), Exported()) == Mapped(rows, Exported()) && AuditRows(files) == []
        invariant !more ==> After(rows, cursor) == []
        invariant ids == IdsOf(IntentRows(files))
        invariant calm ==> IntentFiles(bucket, files, date)
        decreases |After(rows, cursor)|, more
      {
        var stop := Fails(calm);
        if stop { return; }
        var batch := Page(Selection(intents, date, maxRowsPerFile), cursor, maxRowsPerFile);
        SelectionEnd(intents, date, cursor, maxRowsPerFile);
        if batch == [] { break; }
        ghost var before := bucket;
        var put, f := UploadIntents(batch, date, |files|, calm);
        OnlyDataOfChain(old(bucket), before, bucket, date);
        if !put { return; }
        if calm { IntentFilesNext(before, bucket, files, f, date); }
        FilesOfNext(files, f, date);
        IntentPageExported(files, f, rows, cursor, maxRowsPerFile);
        MappedHolds(batch, Exported());
        IdsOfConcat(IntentRows(files), Mapped(batch, Exported()));
        files, ids := files + [f], ids + IdsOf(batch);
        cursor := batch[|batch| - 1].id;
        more := |batch| >= maxRowsPerFile;
      }
      MappedConcat([], [], Exported());
      ok := true;
    }

    method ExportAudits(date: Date, ids: seq<int>, calm: bool) returns (ok: bool, files: seq<FileRef>)
      requires Tables(intents, audits)
      modifies this`bucket
      ensures calm ==> ok && AuditFiles(old(bucket), bucket, files, date)
      ensures OnlyDataOf(old(bucket), bucket, date)
      ensures ok ==> FilesOf(files, date) && AuditRows(files) == Mapped(AuditsOf(audits, ids), ExportedAudit()) && IntentRows(files) == []
    {
      hide Tables, AuditsOf, Page, After, OnlyDataOf, Sorted, Mapped, FilesOf, AuditFiles;
      NoFiles(bucket, date);
      MappedConcat([], [], ExportedAudit());
      files, ok := [], false;
      ghost var rows := AuditsOf(audits, ids);
      AuditsOfStart(intents, audits, ids);
      OnlyDataOfSame(bucket, date);
      var cursor, more := 0, true;
      while more
        invariant OnlyDataOf(old(bucket), bucket, date) && FilesOf(files, date)
        invariant AuditRows(files) + Mapped(After(rows, cursor), ExportedAudit()) == Mapped(rows, ExportedAudit()) && IntentRows(files) == []
        invariant !more ==> After(rows, cursor) == []
        invariant calm ==> AuditFiles(old(bucket), bucket, files, date)
        decreases |After(rows, cursor)|, more
      {
        var stop := Fails(calm);
        if stop { return; }
        var batch := Page(AuditsOf(audits, ids), cursor, AUDIT_BATCH);
        EmptyPage(rows, cursor, AUDIT_BATCH);
        if batch == [] { break; }
        ghost var before := bucket;
        var put, f := UploadAudits(batch, date, |files|, calm);
        OnlyDataOfChain(old(bucket), before, bucket, date);
        if !put { return; }
        if calm { AuditFilesNext(old(bucket), before, bucket, files, f, date); }
        FilesOfNext(files, f, date);
        AuditPageExported(files, f, rows, cursor, AUDIT_BATCH);
        files := files + [f];
        cursor := batch[|batch| - 1].id;
        more := |batch| >= AUDIT_BATCH;
      }
      ok := true;
    }

    method Verify(files: seq<FileRef>, calm: bool) returns (interrupted: bool, passed: bool)
      ensures calm ==> !interrupted
      ensures passed ==> Verified(bucket, files)
      ensures !interrupted && !passed ==> !Verified(bucket, files)
    {
      var i := 0;
      while i < |files|
        invariant 0 <= i <= |files| && Verified(bucket, files[..i])
      {
        var stop := Fails(calm);
        if stop { return true, false; }
        if !Matches(bucket, files[i]) { return false, false; }
        i := i + 1;
      }
      return false, true;
    }

    /** Batched deletion, audits of a batch before its intents; it may stop after any statement. */
    method DeleteRows(ids: seq<int>, calm: bool) returns (ok: bool, ghost intentsDone: nat, ghost auditsDone: nat)
      modifies this`intents, this`audits
      ensures calm ==> ok
      ensures intentsDone <= auditsDone <= |ids| && (ok ==> intentsDone == |ids|)
      ensures intents == WithoutIds(old(intents), ids[..intentsDone])
      ensures audits == WithoutAuditsOf(old(audits), ids[..auditsDone])
    {
      hide WithoutIds, WithoutAuditsOf;
      var i := 0;
      ok, intentsDone, auditsDone := false, 0, 0;
      WithoutNothing(intents, audits);
      while i < |ids|
        invariant 0 <= i <= |ids| && intentsDone == auditsDone == i
        invariant intents == WithoutIds(old(intents), ids[..i]) && audits == WithoutAuditsOf(old(audits), ids[..i])
      {
        var next := if i + DELETE_BATCH < |ids| then i + DELETE_BATCH else |ids|;
        var batch := ids[i..next];
        WithoutMore(old(intents), old(audits), ids[..i], batch);
        assert ids[..i] + batch == ids[..next];
        var stop := Fails(calm);
        if stop { return; }
        audits, auditsDone := WithoutAuditsOf(audits, batch), next;
        stop := Fails(calm);
        if stop { return; }
        intents, intentsDone := WithoutIds(intents, batch), next;
        i := next;
      }
      ok := true;
    }

    method Export(date: Date, calm: bool) returns (ok: bool, files: seq<FileRef>, ids: seq<int>)
      requires Tables(intents, audits)
      modifies this`bucket
      ensures calm ==> ok && Verified(bucket, files)
      ensures OnlyDataOf(old(bucket), bucket, date)
      ensures ok ==> Exports(files, ids, intents, audits, date, maxRowsPerFile)
    {
      var intentFiles, auditFiles;
      ok, intentFiles, ids := ExportIntents(date, calm);
      files := intentFiles;
      if !ok { return; }
      if ids == [] {
        NoAudits(audits);
        MappedConcat([], [], ExportedAudit());
        return;
      }
      ghost var before := bucket;
      ok, auditFiles := ExportAudits(date, ids, calm);
      if calm { VerifiedBoth(before, bucket, intentFiles, auditFiles); }
      OnlyDataOfChain(old(bucket), before, bucket, date);
      IntentRowsConcat(intentFiles, auditFiles);
      AuditRowsConcat(intentFiles, auditFiles);
      files := intentFiles + auditFiles;
    }

    method ArchiveDate(date: Date, calm: bool) returns (outcome: Outcome)
      requires Valid()
      modifies this
      // a calm run archives the date, or finds it archived
      ensures calm ==> if ManifestKey(date) in old(bucket) then outcome.Skipped? else outcome.Done?
      ensures Valid() && old(sealed) <= sealed
      // conservation: every row is still in Postgres or in a verified file
      ensures Conserved(old(intents), old(audits), intents, audits, sealed)
      // a completed run exports each selected row exactly once, and deletes exactly those
      ensures outcome.Done? ==>
                var ids := IdsOf(IntentRows(outcome.manifest.files));
                && Exports(outcome.manifest.files, ids, old(intents), old(audits), date, maxRowsPerFile)
                && sealed == old(sealed) + outcome.manifest.files && ManifestKey(date) in bucket
                && intents == WithoutIds(old(intents), ids) && audits == WithoutAuditsOf(old(audits), ids)
      // whatever the outcome, only due intents and their audit rows go; a completed run leaves none of them
      ensures OnlyDueGone(old(intents), old(audits), intents, audits, date)
      ensures outcome.Done? && maxRowsPerFile > 0 ==> AllDueGone(old(intents), old(audits), intents, audits, date)
      ensures outcome.Skipped? ==> ManifestKey(date) in old(bucket) && bucket == old(bucket)
      ensures outcome.Skipped? || outcome.Rejected? ==> intents == old(intents) && audits == old(audits)
    {
      hide OnlyDueGone, AllDueGone, Due;
      NoneGone(intents, audits, date);
      if ManifestKey(date) in bucket { return Skipped; }
      var ok, files, ids := Export(date, calm);
      SealedKept(old(bucket), bucket, sealed, date);
      if !ok { return Stopped; }
      var manifest := Manifest(date, files);
      ghost var before := bucket;
      ok := Put(ManifestKey(date), ManifestFile(manifest), calm);
      SealedKeptByManifest(before, bucket, sealed, date);
      if !ok { return Stopped; }
      if calm { VerifiedBesideManifest(before, files, date, ManifestFile(manifest)); }
      var interrupted, passed := Verify(files, calm);
      if interrupted { return Stopped; }
      if !passed { return Rejected; }
      ok := DeleteArchived(date, files, ids, calm);
      outcome := if ok then Done(manifest) else Stopped;
    }

    /** Verification passed: seal the files, then delete what they hold. */
    method DeleteArchived(date: Date, files: seq<FileRef>, ids: seq<int>, calm: bool) returns (ok: bool)
      requires Valid() && Verified(bucket, files) && ManifestKey(date) in bucket
      requires Exports(files, ids, intents, audits, date, maxRowsPerFile)
      modifies this`intents, this`audits, this`sealed, this`removedIntents, this`removedAudits
      ensures Valid() && sealed == old(sealed) + files && (calm ==> ok)
      ensures Conserved(old(intents), old(audits), intents, audits, sealed)
      ensures ok ==> intents == WithoutIds(old(intents), ids) && audits == WithoutAuditsOf(old(audits), ids)
      ensures OnlyDueGone(old(intents), old(audits), intents, audits, date)
      ensures ok && maxRowsPerFile > 0 ==> AllDueGone(old(intents), old(audits), intents, audits, date)
    {
      hide Tables, Sealed, Verified, FilesOf, WithoutIds, WithoutAuditsOf, IntentRows, AuditRows, Conserved, Selection, AuditsOf, IdsOf,
        OnlyDueGone, AllDueGone;
      ghost var done, doneAudits;
      SealMore(bucket, sealed, files, date);
      sealed := sealed + files;
      ok, done, doneAudits := DeleteRows(ids, calm);
      assert ids[..|ids|] == ids;
      DeletionConserves(old(intents), old(audits), old(sealed), files, ids, ids[..done], ids[..doneAudits], date, maxRowsPerFile);
      DeletionIsDue(old(intents), old(audits), files, ids, ids[..done], ids[..doneAudits], date, maxRowsPerFile);
      removedIntents := removedIntents + set r | r in old(intents) && r.id in ids[..done];
      removedAudits := removedAudits + set a | a in old(audits) && a.data.intentId in ids[..doneAudits];
    }

    /** Between runs the application may change its own tables in any way. */
    method ApplicationWrites(newIntents: Intents, newAudits: Audits)
      requires Valid() && Tables(newIntents, newAudits)
      modifies this`intents, this`audits
      ensures Valid() && intents == newIntents && audits == newAudits
    {
      intents, audits := newIntents, newAudits;
    }

    /** Any sequence of runs, on any dates, each stopping anywhere: no row is lost. */
    method ArchiveAll(dates: seq<Date>) returns (outcomes: seq<Outcome>)
      requires Valid()
      modifies this
      ensures Valid() && old(sealed) <= sealed && |outcomes| == |dates|
      ensures Conserved(old(intents), old(audits), intents, audits, sealed)
      ensures forall r :: r in old(intents) && (forall i :: 0 <= i < |dates| ==> !Due(r, dates[i])) ==> r in intents
    {
      hide Due, AllDueGone;
      outcomes := [];
      var i := 0;
      while i < |dates|
        invariant 0 <= i <= |dates| && |outcomes| == i
        invariant Valid() && old(sealed) <= sealed
        invariant Conserved(old(intents), old(audits), intents, audits, sealed)
        invariant forall r :: r in old(intents) && (forall j :: 0 <= j < i ==> !Due(r, dates[j])) ==> r in intents
      {
        ghost var before := sealed;
        var calm: bool := *;
        var outcome := ArchiveDate(dates[i], calm);
        RowsGrow(before, sealed);
        outcomes := outcomes + [outcome];
        i := i + 1;
      }
    }
  }

  /** The audit row is one of a due intent. */
  ghost predicate OfDue(intents: Intents, a: Keyed<Audit>, date: Date) {
    exists r :: r in intents && r.id == a.data.intentId && Due(r, date)
  }

  ghost predicate OnlyDueGone(intents: Intents, audits: Audits, intents': Intents, audits': Audits, date: Date) {
    && (forall r :: r in intents' ==> r in intents)
    && (forall a :: a in audits' ==> a in audits)
    && (forall r :: r in intents && !Due(r, date) ==> r in intents')
    && (forall a :: a in audits && !OfDue(intents, a, date) ==> a in audits')
  }

  ghost predicate AllDueGone(intents: Intents, audits: Audits, intents': Intents, audits': Audits, date: Date) {
    && (forall r :: r in intents && Due(r, date) ==> r !in intents')
    && (forall a :: a in audits && OfDue(intents, a, date) ==> a !in audits')
  }

  lemma NoneGone(intents: Intents, audits: Audits, date: Date)
    ensures OnlyDueGone(intents, audits, intents, audits, date)
  {
  }

  /** The ids a run collects are those of the due intents. */
  lemma IdsAreDue(intents: Intents, audits: Audits, files: seq<FileRef>, ids: seq<int>, date: Date, maxRowsPerFile: nat)
    requires Tables(intents, audits) && Exports(files, ids, intents, audits, date, maxRowsPerFile)
    ensures forall r :: r in intents ==> (r.id in ids <==> maxRowsPerFile > 0 && Due(r, date))
    ensures forall a :: a in audits ==> (a.data.intentId in ids <==> maxRowsPerFile > 0 && OfDue(intents, a, date))
  {
    hide Due, IntentRows, AuditRows, FilesOf, Selection, Mapped, AuditsOf;
    var selected := Selection(intents, date, maxRowsPerFile);
    MappedHolds(selected, Exported());
    forall r ensures r in selected <==> r in intents && maxRowsPerFile > 0 && Due(r, date) {
      SelectedIff(intents, date, maxRowsPerFile, r);
    }
    forall r | r in intents ensures r.id in ids <==> r in selected { IdSelected(intents, selected, r); }
    forall a | a in audits && a.data.intentId in ids ensures OfDue(intents, a, date) && maxRowsPerFile > 0 {
      var i :| 0 <= i < |selected| && IdsOf(selected)[i] == a.data.intentId;
      assert selected[i] in selected;
    }
    forall a | a in audits && OfDue(intents, a, date) && maxRowsPerFile > 0 ensures a.data.intentId in ids {
      var r :| r in intents && r.id == a.data.intentId && Due(r, date);
    }
  }

  lemma IdSelected(t: Intents, selected: Intents, r: Keyed<Intent>)
    requires Sorted(t) && r in t && forall x :: x in selected ==> x in t
    ensures r.id in IdsOf(selected) <==> r in selected
  {
    if r in selected {
      var i :| 0 <= i < |selected| && selected[i] == r;
      assert IdsOf(selected)[i] == r.id;
    } else if r.id in IdsOf(selected) {
      SelectedById(t, selected, r);
    }
  }

  /** So whatever part of them was deleted is due, and all of them is all that is. */
  lemma DeletionIsDue(intents: Intents, audits: Audits, files: seq<FileRef>, ids: seq<int>,
                      gone: seq<int>, goneAudits: seq<int>, date: Date, maxRowsPerFile: nat)
    requires Tables(intents, audits) && Exports(files, ids, intents, audits, date, maxRowsPerFile)
    requires (forall id :: id in gone ==> id in ids) && (forall id :: id in goneAudits ==> id in ids)
    ensures var intents', audits' := WithoutIds(intents, gone), WithoutAuditsOf(audits, goneAudits);
            && OnlyDueGone(intents, audits, intents', audits', date)
            && (gone == ids && goneAudits == ids && maxRowsPerFile > 0 ==> AllDueGone(intents, audits, intents', audits', date))
  {
    hide Exports, Tables, Due, OfDue;
    IdsAreDue(intents, audits, files, ids, date, maxRowsPerFile);
  }

  /** Every row of the old tables is still in the new ones, or its exported columns are in a sealed file. */
  ghost predicate Conserved(intents: Intents, audits: Audits, intents': Intents, audits': Audits, sealed: seq<FileRef>) {
    && (forall r :: r in intents ==> r in intents' || Archived(r) in IntentRows(sealed))
    && (forall a :: a in audits ==> a in audits' || ArchivedAudit(a) in AuditRows(sealed))
  }

  /** The files hold the exported columns of the selected intents and of exactly their audit rows, each once and in order. */
  ghost predicate Exports(files: seq<FileRef>, ids: seq<int>, intents: Intents, audits: Audits, date: Date, maxRowsPerFile: nat) {
    && FilesOf(files, date)
    && IntentRows(files) == Mapped(Selection(intents, date, maxRowsPerFile), Exported())
    && ids == IdsOf(IntentRows(files)) && AuditRows(files) == Mapped(AuditsOf(audits, ids), ExportedAudit())
  }

  lemma RowsGrow(a: seq<FileRef>, b: seq<FileRef>)
    requires a <= b
    ensures forall r :: r in IntentRows(a) ==> r in IntentRows(b)
    ensures forall r :: r in AuditRows(a) ==> r in AuditRows(b)
  {
    assert b == a + b[|a|..];
    IntentRowsConcat(a, b[|a|..]);
    AuditRowsConcat(a, b[|a|..]);
  }

  /** The files hold the exported columns of every row the deletion may reach. */
  lemma ReachedIsArchived(intents: Intents, audits: Audits, files: seq<FileRef>, ids: seq<int>, date: Date, maxRowsPerFile: nat)
    requires Tables(intents, audits) && Exports(files, ids, intents, audits, date, maxRowsPerFile)
    ensures forall r :: r in intents && r.id in ids ==> Archived(r) in IntentRows(files)
    ensures forall a :: a in audits && a.data.intentId in ids ==> ArchivedAudit(a) in AuditRows(files)
  {
    var selected := Selection(intents, date, maxRowsPerFile);
    MappedHolds(selected, Exported());
    MappedHolds(AuditsOf(audits, ids), ExportedAudit());
    hide Mapped, IntentRows, AuditRows, IdsOf;
    forall r | r in intents && r.id in ids ensures Archived(r) in IntentRows(files) {
      SelectedById(intents, selected, r);
    }
    forall a | a in audits && a.data.intentId in ids ensures ArchivedAudit(a) in AuditRows(files) {
      assert a in AuditsOf(audits, ids);
    }
  }

  /** A deletion leaves tables, and every row it does not name. */
  lemma Remaining(intents: Intents, audits: Audits, ids: seq<int>, auditIds: seq<int>)
    requires Tables(intents, audits)
    ensures Tables(WithoutIds(intents, ids), WithoutAuditsOf(audits, auditIds))
    ensures forall r :: r in intents && r.id !in ids ==> r in WithoutIds(intents, ids)
    ensures forall a :: a in audits && a.data.intentId !in auditIds ==> a in WithoutAuditsOf(audits, auditIds)
  {
    FilterSorted(intents, (r: Keyed<Intent>) => r.id !in ids);
    FilterSorted(audits, (a: Keyed<Audit>) => a.data.intentId !in auditIds);
  }

  /** Whatever part of the ids was deleted, nothing is lost but unexported columns. */
  lemma DeletionConserves(intents: Intents, audits: Audits, sealed: seq<FileRef>, files: seq<FileRef>, ids: seq<int>,
                          gone: seq<int>, goneAudits: seq<int>, date: Date, maxRowsPerFile: nat)
    requires Tables(intents, audits) && Exports(files, ids, intents, audits, date, maxRowsPerFile)
    requires (forall id :: id in gone ==> id in ids) && (forall id :: id in goneAudits ==> id in ids)
    ensures var intents', audits' := WithoutIds(intents, gone), WithoutAuditsOf(audits, goneAudits);
            Tables(intents', audits') && Conserved(intents, audits, intents', audits', sealed + files)
    ensures forall r :: r in intents && r.id in gone ==> Archived(r) in IntentRows(sealed + files)
    ensures forall a :: a in audits && a.data.intentId in goneAudits ==> ArchivedAudit(a) in AuditRows(sealed + files)
    ensures forall r :: r in IntentRows(sealed) ==> r in IntentRows(sealed + files)
    ensures forall r :: r in AuditRows(sealed) ==> r in AuditRows(sealed + files)
  {
    IntentRowsConcat(sealed, files);
    AuditRowsConcat(sealed, files);
    ReachedIsArchived(intents, audits, files, ids, date, maxRowsPerFile);
    Remaining(intents, audits, gone, goneAudits);
    hide Exports, IntentRows, AuditRows, Archived, ArchivedAudit, Tables, WithoutIds, WithoutAuditsOf;
  }

  lemma SealedKeptByManifest(a: Bucket, b: Bucket, sealed: seq<FileRef>, date: Date)
    requires Sealed(a, sealed) && ManifestKey(date) !in a
    requires forall k :: k != ManifestKey(date) ==> (k in a <==> k in b) && (k in a ==> a[k] == b[k])
    ensures Sealed(b, sealed)
  {
    forall i | 0 <= i < |sealed| ensures Matches(b, sealed[i]) && ManifestKey(sealed[i].key.date) in b {
      assert Matches(a, sealed[i]);
    }
  }

  lemma SealMore(bucket: Bucket, sealed: seq<FileRef>, files: seq<FileRef>, date: Date)
    requires Sealed(bucket, sealed) && Verified(bucket, files) && FilesOf(files, date) && ManifestKey(date) in bucket
    ensures Sealed(bucket, sealed + files)
  {
  }

  lemma NoIds()
    ensures IdsOf<Columns>([]) == []
  {
  }

  lemma {:induction false} NoAudits(a: Audits)
    ensures AuditsOf(a, []) == []
  {
    if a != [] { NoAudits(a[1..]); }
  }

  /** Writes of a date without a manifest cannot reach a sealed file. */
  lemma SealedKept(a: Bucket, b: Bucket, sealed: seq<FileRef>, date: Date)
    requires OnlyDataOf(a, b, date) && ManifestKey(date) !in a && Sealed(a, sealed)
    ensures Sealed(b, sealed) && ManifestKey(date) !in b
  {
    forall i | 0 <= i < |sealed| ensures Matches(b, sealed[i]) && ManifestKey(sealed[i].key.date) in b {
      assert Matches(a, sealed[i]) && sealed[i].key.date != date;
    }
  }

  lemma SelectedById(t: Intents, selected: Intents, r: Keyed<Intent>)
    requires Sorted(t) && r in t && r.id in IdsOf(selected) && forall x :: x in selected ==> x in t
    ensures r in selected
  {
    var i :| 0 <= i < |selected| && IdsOf(selected)[i] == r.id;
    assert selected[i] in selected;
    SameIdSameRow(t, selected[i], r);
  }

  lemma WithoutNothing(t: Intents, a: Audits)
    ensures forall ids: seq<int> :: ids == [] ==> WithoutIds(t, ids) == t && WithoutAuditsOf(a, ids) == a
  {
    FilterAll(t, (r: Keyed<Intent>) => r.id !in []);
    FilterAll(a, (r: Keyed<Audit>) => r.data.intentId !in []);
  }

  lemma WithoutMore(t: Intents, a: Audits, ids: seq<int>, more: seq<int>)
    ensures WithoutIds(WithoutIds(t, ids), more) == WithoutIds(t, ids + more)
    ensures WithoutAuditsOf(WithoutAuditsOf(a, ids), more) == WithoutAuditsOf(a, ids + more)
  {
    FilterTwice(t, (r: Keyed<Intent>) => r.id !in ids, (r: Keyed<Intent>) => r.id !in more, (r: Keyed<Intent>) => r.id !in ids + more);
    FilterTwice(a, (r: Keyed<Audit>) => r.data.intentId !in ids, (r: Keyed<Audit>) => r.data.intentId !in more,
      (r: Keyed<Audit>) => r.data.intentId !in ids + more);
  }
}
