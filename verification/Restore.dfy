/** Restoring an archived date into a staging schema with `ON CONFLICT DO NOTHING`. */
module Restore {
  import opened Common
  import opened Keyset
  import opened Archival

  /** `WrongRows`: rows of one kind cannot be inserted into the other's table. */
  datatype RestoreError = NoManifest | Unreadable | ChecksumMismatch | WrongRows

  /** The staging tables have the exported columns and no others. */
  type Staging = (map<int, Columns>, map<int, Audit>)

  /** The staging schema afterwards, and the error that stopped the restore, if any. */
  datatype Attempt = Attempt(staging: Staging, error: Option<RestoreError>)

  function InsertIntents(s: Staging, rows: ArchivedIntents): Staging { (InsertMissing(s.0, rows, ById()), s.1) }

  function InsertAudits(s: Staging, rows: ArchivedAudits): Staging { (s.0, InsertMissing(s.1, rows, ById())) }

  /** One file of the manifest: its bytes decide the rows, its entry decides the table. */
  function Import(s: Staging, f: FileRef, blob: Blob, dryRun: bool): Attempt {
    if !blob.IntentsFile? && !blob.AuditFile? then Attempt(s, Some(Unreadable))
    else if dryRun || f.kind.NoKind? then Attempt(s, None)
    else if f.kind.IntentsKind? && blob.IntentsFile? then Attempt(InsertIntents(s, blob.intents), None)
    else if f.kind.AuditKind? && blob.AuditFile? then Attempt(InsertAudits(s, blob.audits), None)
    else Attempt(s, Some(WrongRows))
  }

  function ImportAll(s: Staging, files: seq<FileRef>, dryRun: bool): Attempt {
    if files == [] then Attempt(s, None)
    else
      var f, before := files[|files| - 1], ImportAll(s, files[..|files| - 1], dryRun);
      if before.error.Some? then before else Import(before.staging, f, f.sha256.of, dryRun)
  }

  /** What a restore leaves in the staging schema; nothing is touched before every digest has been checked. */
  function Restored(bucket: Bucket, date: Date, staging: Staging, dryRun: bool): Attempt {
    if ManifestKey(date) !in bucket then Attempt(staging, Some(NoManifest))
    else
      match bucket[ManifestKey(date)]
      case ManifestFile(m) =>
        if !Verified(bucket, m.files) then Attempt(staging, Some(ChecksumMismatch)) else ImportAll(staging, m.files, dryRun)
      case _ => Attempt(staging, Some(Unreadable))
  }

  const RESTORE_BATCH := 500

  method InsertRows<T>(staging: map<int, T>, rows: seq<Keyed<T>>) returns (out: map<int, T>)
    ensures out == InsertMissing(staging, rows, ById())
  {
    out := staging;
    var i := 0;
    while i < |rows|
      invariant 0 <= i <= |rows| && out == InsertMissing(staging, rows[..i], ById())
    {
      var next := if i + RESTORE_BATCH < |rows| then i + RESTORE_BATCH else |rows|;
      InsertMissingConcat(staging, rows[..i], rows[i..next], ById());
      assert rows[..i] + rows[i..next] == rows[..next];
      out := InsertMissing(out, rows[i..next], ById());
      i := next;
    }
    assert rows[..i] == rows;
  }

  method RestoreDate(bucket: Bucket, date: Date, staging: Staging, dryRun: bool) returns (r: Attempt, intentRows: nat, auditRows: nat)
    ensures r == Restored(bucket, date, staging, dryRun)
    ensures dryRun ==> intentRows == auditRows == 0
    ensures r.error.None? && !dryRun ==> Imports(bucket, date, intentRows, auditRows)
  {
    hide ImportAll, Verified, InsertMissing, IntentsOf, AuditsIn;
    intentRows, auditRows := 0, 0;
    if ManifestKey(date) !in bucket { return Attempt(staging, Some(NoManifest)), 0, 0; }
    if !bucket[ManifestKey(date)].ManifestFile? { return Attempt(staging, Some(Unreadable)), 0, 0; }
    var files := bucket[ManifestKey(date)].manifest.files;
    if !Verified(bucket, files) { return Attempt(staging, Some(ChecksumMismatch)), 0, 0; }
    var current := staging;
    var i := 0;
    ImportNone(staging, dryRun);
    CountNone();
    while i < |files|
      invariant 0 <= i <= |files| && ImportAll(staging, files[..i], dryRun) == Attempt(current, None)
      invariant dryRun ==> intentRows == auditRows == 0
      invariant !dryRun ==> intentRows == |IntentsOf(files[..i])| && auditRows == |AuditsIn(files[..i])|
    {
      ImportNext(bucket, staging, files, i, dryRun);
      CountNext(bucket, files, i);
      var kind, blob := files[i].kind, bucket[files[i].key];
      if !blob.IntentsFile? && !blob.AuditFile? {
        FailureStays(staging, files, i + 1, dryRun);
        return Attempt(current, Some(Unreadable)), intentRows, auditRows;
      }
      if !dryRun && !kind.NoKind? {
        if kind.IntentsKind? && blob.IntentsFile? {
          var out := InsertRows(current.0, blob.intents);
          current, intentRows := (out, current.1), intentRows + |blob.intents|;
        } else if kind.AuditKind? && blob.AuditFile? {
          var out := InsertRows(current.1, blob.audits);
          current, auditRows := (current.0, out), auditRows + |blob.audits|;
        } else {
          FailureStays(staging, files, i + 1, dryRun);
          return Attempt(current, Some(WrongRows)), intentRows, auditRows;
        }
      }
      i := i + 1;
    }
    assert files[..i] == files;
    return Attempt(current, None), intentRows, auditRows;
  }

  /** The counts are those of the rows in the files the manifest labels as intents and as audit rows. */
  ghost predicate Imports(bucket: Bucket, date: Date, intentRows: nat, auditRows: nat) {
    && ManifestKey(date) in bucket && bucket[ManifestKey(date)].ManifestFile?
    && var files := bucket[ManifestKey(date)].manifest.files;
       intentRows == |IntentsOf(files)| && auditRows == |AuditsIn(files)|
  }

  lemma CountNone()
    ensures IntentsOf([]) == [] && AuditsIn([]) == []
  {
  }

  lemma CountNext(bucket: Bucket, files: seq<FileRef>, i: nat)
    requires i < |files| && Verified(bucket, files)
    ensures files[i].key in bucket
    ensures var kind, blob := files[i].kind, bucket[files[i].key];
            && |IntentsOf(files[..i + 1])| == |IntentsOf(files[..i])| + (if kind.IntentsKind? && blob.IntentsFile? then |blob.intents| else 0)
            && |AuditsIn(files[..i + 1])| == |AuditsIn(files[..i])| + (if kind.AuditKind? && blob.AuditFile? then |blob.audits| else 0)
  {
    assert files[..i + 1][..i] == files[..i];
    assert Matches(bucket, files[i]);
  }

  lemma ImportNone(s: Staging, dryRun: bool)
    ensures ImportAll(s, [], dryRun) == Attempt(s, None)
  {
  }

  /** With every digest checked, the stored object is the one the manifest names. */
  lemma ImportNext(bucket: Bucket, s: Staging, files: seq<FileRef>, i: nat, dryRun: bool)
    requires i < |files| && Verified(bucket, files) && ImportAll(s, files[..i], dryRun).error.None?
    ensures files[i].key in bucket
    ensures ImportAll(s, files[..i + 1], dryRun)
            == Import(ImportAll(s, files[..i], dryRun).staging, files[i], bucket[files[i].key], dryRun)
  {
    hide InsertMissing, Import;
    assert files[..i + 1][..i] == files[..i];
    assert Matches(bucket, files[i]);
  }

  lemma {:induction false} FailureStays(s: Staging, files: seq<FileRef>, n: nat, dryRun: bool)
    requires n <= |files| && ImportAll(s, files[..n], dryRun).error.Some?
    ensures ImportAll(s, files, dryRun) == ImportAll(s, files[..n], dryRun)
  {
    if n == |files| {
      assert files[..n] == files;
    } else {
      var init := files[..|files| - 1];
      assert init[..n] == files[..n];
      FailureStays(s, init, n, dryRun);
    }
  }

  /** Readable and labelled with what it holds, or with nothing. */
  predicate Importable(f: FileRef) {
    match f.sha256.of
    case IntentsFile(_) => !f.kind.AuditKind?
    case AuditFile(_) => !f.kind.IntentsKind?
    case _ => false
  }

  lemma {:induction false} ImportAllIff(s: Staging, files: seq<FileRef>, dryRun: bool)
    ensures ImportAll(s, files, dryRun).error.None?
            <==> forall i :: 0 <= i < |files| ==>
                   if dryRun then files[i].sha256.of.IntentsFile? || files[i].sha256.of.AuditFile? else Importable(files[i])
    ensures dryRun ==> ImportAll(s, files, dryRun).staging == s
  {
    if files != [] {
      var init := files[..|files| - 1];
      ImportAllIff(s, init, dryRun);
      assert forall i :: 0 <= i < |init| ==> init[i] == files[i];
    }
  }

  /** Exactly when a restore, or its dry run, goes through; a dry run changes nothing whatever it meets. */
  lemma RestoreSucceedsIff(bucket: Bucket, date: Date, staging: Staging, dryRun: bool)
    ensures Restored(bucket, date, staging, dryRun).error.None?
            <==> ManifestKey(date) in bucket && bucket[ManifestKey(date)].ManifestFile?
                 && var files := bucket[ManifestKey(date)].manifest.files;
                    && Verified(bucket, files)
                    && forall i :: 0 <= i < |files| ==>
                         if dryRun then files[i].sha256.of.IntentsFile? || files[i].sha256.of.AuditFile? else Importable(files[i])
    ensures dryRun ==> Restored(bucket, date, staging, dryRun).staging == staging
  {
    if ManifestKey(date) in bucket && bucket[ManifestKey(date)].ManifestFile? {
      ImportAllIff(staging, bucket[ManifestKey(date)].manifest.files, dryRun);
    }
  }

  /** Rows of the files whose entries name their table. */
  function IntentsOf(files: seq<FileRef>): ArchivedIntents {
    if files == [] then []
    else
      var f := files[|files| - 1];
      IntentsOf(files[..|files| - 1]) + if f.kind.IntentsKind? && f.sha256.of.IntentsFile? then f.sha256.of.intents else []
  }

  function AuditsIn(files: seq<FileRef>): ArchivedAudits {
    if files == [] then []
    else
      var f := files[|files| - 1];
      AuditsIn(files[..|files| - 1]) + if f.kind.AuditKind? && f.sha256.of.AuditFile? then f.sha256.of.audits else []
  }

  lemma {:induction false} LabelledRows(files: seq<FileRef>)
    requires forall i :: 0 <= i < |files| ==> Labelled(files[i])
    ensures IntentsOf(files) == IntentRows(files) && AuditsIn(files) == AuditRows(files)
  {
    if files != [] { LabelledRows(files[..|files| - 1]); }
  }

  /** Importable files are imported whole, each kind into its table. */
  lemma {:induction false} ImportableImport(s: Staging, files: seq<FileRef>)
    requires forall i :: 0 <= i < |files| ==> Importable(files[i])
    ensures ImportAll(s, files, false)
            == Attempt((InsertMissing(s.0, IntentsOf(files), ById()), InsertMissing(s.1, AuditsIn(files), ById())), None)
  {
    if files != [] {
      var init, f := files[..|files| - 1], files[|files| - 1];
      ImportableImport(s, init);
      if f.kind.IntentsKind? {
        InsertMissingConcat(s.0, IntentsOf(init), f.sha256.of.intents, ById());
        assert AuditsIn(files) == AuditsIn(init);
      } else if f.kind.AuditKind? {
        InsertMissingConcat(s.1, AuditsIn(init), f.sha256.of.audits, ById());
        assert IntentsOf(files) == IntentsOf(init);
      } else {
        assert AuditsIn(files) == AuditsIn(init) && IntentsOf(files) == IntentsOf(init);
      }
    }
  }

  ghost predicate Holds<T>(m: map<int, T>, rows: seq<Keyed<T>>) {
    && (forall row :: row in rows ==> row.id in m && m[row.id] == row.data)
    && (forall id :: id in m ==> Keyed(id, m[id]) in rows)
  }

  /** `row` is in the list, before any other row of its id. */
  ghost predicate First<T>(rows: seq<Keyed<T>>, row: Keyed<T>) {
    exists i :: 0 <= i < |rows| && rows[i] == row && NoneBefore(rows, i, row.id)
  }

  ghost predicate NoneBefore<T>(rows: seq<Keyed<T>>, i: nat, id: int)
    requires i <= |rows|
  {
    forall j :: 0 <= j < i ==> rows[j].id != id
  }

  lemma {:induction false} FirstWins<T>(rows: seq<Keyed<T>>, row: Keyed<T>)
    ensures var m := InsertMissing(map[], rows, ById());
            && (row.id in m && m[row.id] == row.data <==> First(rows, row))
            && (row.id in m <==> !NoneBefore(rows, |rows|, row.id))
  {
    if rows != [] {
      var init, last := rows[..|rows| - 1], rows[|rows| - 1];
      FirstWins(init, row);
      assert forall j :: 0 <= j < |init| ==> init[j] == rows[j];
      assert NoneBefore(rows, |init|, row.id) <==> NoneBefore(init, |init|, row.id);
      assert NoneBefore(rows, |rows|, row.id) <==> NoneBefore(init, |init|, row.id) && last.id != row.id;
      FirstSnoc(init, last, row);
      assert rows == init + [last];
    }
  }

  lemma FirstSnoc<T>(init: seq<Keyed<T>>, last: Keyed<T>, row: Keyed<T>)
    ensures First(init + [last], row) <==> First(init, row) || (last == row && NoneBefore(init, |init|, row.id))
  {
    var rows := init + [last];
    assert rows[|init|] == last && forall j :: 0 <= j < |init| ==> init[j] == rows[j];
    if i :| 0 <= i < |init| && init[i] == row && NoneBefore(init, i, row.id) {
      assert rows[i] == row && NoneBefore(rows, i, row.id);
    }
    if last == row && NoneBefore(init, |init|, row.id) {
      assert NoneBefore(rows, |init|, row.id);
    }
    if i :| 0 <= i < |rows| && rows[i] == row && NoneBefore(rows, i, row.id) {
      if i < |init| {
        assert init[i] == row && NoneBefore(init, i, row.id);
      } else {
        assert NoneBefore(init, |init|, row.id);
      }
    }
  }

  /** Inserting `rows` into an empty table gives exactly `wanted`: each wanted row is first of its id, and no other id occurs. */
  ghost predicate Gives<T>(rows: seq<Keyed<T>>, wanted: seq<Keyed<T>>) {
    && (forall row :: row in wanted ==> First(rows, row))
    && (forall i :: 0 <= i < |rows| ==> HasId(wanted, rows[i].id))
  }

  ghost predicate HasId<T>(rows: seq<Keyed<T>>, id: int) {
    exists k :: 0 <= k < |rows| && rows[k].id == id
  }

  lemma HoldsIff<T>(rows: seq<Keyed<T>>, wanted: seq<Keyed<T>>)
    requires Sorted(wanted)
    ensures Holds(InsertMissing(map[], rows, ById()), wanted) <==> Gives(rows, wanted)
  {
    var m := InsertMissing(map[], rows, ById());
    if Holds(m, wanted) {
      forall row | row in wanted ensures First(rows, row) { FirstWins(rows, row); }
      forall i | 0 <= i < |rows| ensures HasId(wanted, rows[i].id) {
        FirstWins(rows, rows[i]);
        assert Keyed(rows[i].id, m[rows[i].id]) in wanted;
      }
    }
    if Gives(rows, wanted) {
      forall row | row in wanted ensures row.id in m && m[row.id] == row.data { FirstWins(rows, row); }
      forall id | id in m ensures Keyed(id, m[id]) in wanted {
        FirstWins(rows, Keyed(id, m[id]));
        var i :| 0 <= i < |rows| && rows[i].id == id;
        assert HasId(wanted, rows[i].id);
        var k :| 0 <= k < |wanted| && wanted[k].id == id;
        assert wanted[k] in wanted;
        FirstWins(rows, wanted[k]);
      }
    }
  }

  lemma SortedGives<T>(rows: seq<Keyed<T>>)
    requires Sorted(rows)
    ensures Gives(rows, rows)
  {
    forall row | row in rows ensures First(rows, row) {
      var i :| 0 <= i < |rows| && rows[i] == row;
      assert rows[i] == row && NoneBefore(rows, i, row.id);
    }
    forall i | 0 <= i < |rows| ensures HasId(rows, rows[i].id) {
    }
  }

  /** A restore into an empty schema that went through and holds exactly these rows. */
  ghost predicate RestoresExactly(bucket: Bucket, date: Date, intents: ArchivedIntents, audits: ArchivedAudits) {
    var r := Restored(bucket, date, (map[], map[]), false);
    r.error.None? && Holds(r.staging.0, intents) && Holds(r.staging.1, audits)
  }

  /** Whatever is stored as the manifest: exactly when a restore brings back the wanted rows and nothing else. */
  lemma RestoresExactlyIff(bucket: Bucket, date: Date, intents: ArchivedIntents, audits: ArchivedAudits)
    requires Sorted(intents) && Sorted(audits)
    ensures RestoresExactly(bucket, date, intents, audits)
            <==> ManifestKey(date) in bucket && bucket[ManifestKey(date)].ManifestFile?
                 && var files := bucket[ManifestKey(date)].manifest.files;
                    && Verified(bucket, files) && (forall i :: 0 <= i < |files| ==> Importable(files[i]))
                    && Gives(IntentsOf(files), intents) && Gives(AuditsIn(files), audits)
  {
    hide Holds, Gives;
    RestoreSucceedsIff(bucket, date, (map[], map[]), false);
    if Restored(bucket, date, (map[], map[]), false).error.None? {
      var files := bucket[ManifestKey(date)].manifest.files;
      ImportableImport((map[], map[]), files);
      HoldsIff(IntentsOf(files), intents);
      HoldsIff(AuditsIn(files), audits);
    }
  }

  /**
   * After a verified export, with the manifest stored intact or stored as
   * something that is no manifest: a restore into an empty schema brings back
   * exactly the exported columns of the rows the run selected if and only if
   * the manifest is intact.
   */
  lemma ArchiveRestoreIff(bucket: Bucket, m: Manifest, ids: seq<int>, intents: Intents, audits: Audits, maxRowsPerFile: nat)
    requires Tables(intents, audits) && Exports(m.files, ids, intents, audits, m.date, maxRowsPerFile) && Verified(bucket, m.files)
    requires ManifestKey(m.date) in bucket && (bucket[ManifestKey(m.date)].ManifestFile? ==> bucket[ManifestKey(m.date)] == ManifestFile(m))
    ensures RestoresExactly(bucket, m.date, Mapped(Selection(intents, m.date, maxRowsPerFile), Exported()),
                            Mapped(AuditsOf(audits, ids), ExportedAudit()))
            <==> bucket[ManifestKey(m.date)] == ManifestFile(m)
  {
    var selected, theirs := Selection(intents, m.date, maxRowsPerFile), AuditsOf(audits, ids);
    SelectionStart(intents, audits, m.date, maxRowsPerFile);
    AuditsOfStart(intents, audits, ids);
    MappedHolds(selected, Exported());
    MappedHolds(theirs, ExportedAudit());
    hide Mapped, Selection, AuditsOf;
    RestoresExactlyIff(bucket, m.date, Mapped(selected, Exported()), Mapped(theirs, ExportedAudit()));
    LabelledRows(m.files);
    SortedGives(IntentRows(m.files));
    SortedGives(AuditRows(m.files));
  }

  /** The manifest itself is never read back: a run can verify and delete while its manifest cannot be restored from. */
  lemma CorruptManifestBlocksRestore(bucket: Bucket, m: Manifest, garbage: string, staging: Staging)
    requires Verified(bucket, m.files) && forall i :: 0 <= i < |m.files| ==> !m.files[i].key.ManifestKey?
    ensures var stored := bucket[ManifestKey(m.date) := Other(garbage)];
            Verified(stored, m.files) && Restored(stored, m.date, staging, false) == Attempt(staging, Some(Unreadable))
  {
    var stored := bucket[ManifestKey(m.date) := Other(garbage)];
    forall i | 0 <= i < |m.files| ensures Matches(stored, m.files[i]) { assert Matches(bucket, m.files[i]); }
  }

  // ---------------------------------------------------------------- what the export leaves behind

  /** The table of whole intents, when `fill` says what the unexported columns of a restored row are to be. */
  function Completed(restored: map<int, Columns>, fill: Keyed<Columns> -> Unexported): map<int, Intent> {
    map id | id in restored :: Intent(restored[id], fill(Keyed(id, restored[id])))
  }

  /** `fill` guesses the row's unexported columns. */
  predicate Guessed(fill: Keyed<Columns> -> Unexported, row: Keyed<Intent>) { row.data.rest == fill(Archived(row)) }

  /** Metadata that is none of the four falsy values. */
  predicate Kept(a: Keyed<Audit>) { a.data.metadata !in {Some("null"), Some("false"), Some("0"), Some("\"\"")} }

  lemma CompletedIff(restored: map<int, Columns>, rows: Intents, fill: Keyed<Columns> -> Unexported)
    requires Sorted(rows) && Holds(restored, Mapped(rows, Exported()))
    ensures Holds(Completed(restored, fill), rows) <==> forall row :: row in rows ==> Guessed(fill, row)
  {
    var whole := Completed(restored, fill);
    MappedHolds(rows, Exported());
    hide Mapped;
    forall row | row in rows
      ensures row.id in whole && whole[row.id] == Intent(row.data.columns, fill(Archived(row)))
    {
      assert Archived(row) in Mapped(rows, Exported());
    }
    if forall row :: row in rows ==> Guessed(fill, row) {
      forall id | id in whole ensures Keyed(id, whole[id]) in rows {
        var row :| row in rows && Keyed(id, restored[id]) == Keyed(row.id, Exported()(row.data));
        assert Guessed(fill, row) && Keyed(id, whole[id]) == row;
      }
    }
  }

  lemma TruthyIff(json: string)
    ensures Truthy(json) <==> json != "null" && json != "false" && json != "0" && json != "\"\""
  {
    var falsy := ["null", "false", "0", "\"\""];
    assert falsy[0] == "null" && falsy[1] == "false" && falsy[2] == "0" && falsy[3] == "\"\"";
    assert Truthy(json) <==> json !in falsy;
  }

  /** Exactly then the export keeps the row whole. */
  lemma KeptIff(a: Keyed<Audit>)
    ensures ArchivedAudit(a) == a <==> Kept(a)
  {
    if a.data.metadata.Some? { TruthyIff(a.data.metadata.value); }
  }

  lemma AuditsKeptIff(restored: map<int, Audit>, rows: Audits)
    requires Sorted(rows) && Holds(restored, Mapped(rows, ExportedAudit()))
    ensures Holds(restored, rows) <==> forall a :: a in rows ==> Kept(a)
  {
    MappedHolds(rows, ExportedAudit());
    hide Mapped;
    forall a | a in rows ensures a.id in restored && restored[a.id] == ExportedAudit()(a.data) && (ArchivedAudit(a) == a <==> Kept(a)) {
      assert ArchivedAudit(a) in Mapped(rows, ExportedAudit());
      KeptIff(a);
    }
    if forall a :: a in rows ==> Kept(a) {
      forall id | id in restored ensures Keyed(id, restored[id]) in rows {
        var a :| a in rows && Keyed(id, restored[id]) == Keyed(a.id, ExportedAudit()(a.data));
        KeptIff(a);
        assert Keyed(id, restored[id]) == a;
      }
    }
  }

  /**
   * An archive restored from an intact manifest gives back the whole intents if
   * and only if the unexported columns of each are what they are filled with,
   * and the whole audit rows if and only if none has falsy metadata.
   */
  lemma RestoredWholeIff(bucket: Bucket, m: Manifest, ids: seq<int>, intents: Intents, audits: Audits, maxRowsPerFile: nat,
                         fill: Keyed<Columns> -> Unexported)
    requires Tables(intents, audits) && Exports(m.files, ids, intents, audits, m.date, maxRowsPerFile) && Verified(bucket, m.files)
    requires ManifestKey(m.date) in bucket && bucket[ManifestKey(m.date)] == ManifestFile(m)
    ensures var r := Restored(bucket, m.date, (map[], map[]), false);
            var selected, theirs := Selection(intents, m.date, maxRowsPerFile), AuditsOf(audits, ids);
            && r.error.None?
            && (Holds(Completed(r.staging.0, fill), selected) <==> forall row :: row in selected ==> Guessed(fill, row))
            && (Holds(r.staging.1, theirs) <==> forall a :: a in theirs ==> Kept(a))
  {
    hide Restored, Mapped, Selection, AuditsOf, Holds, Exports;
    ArchiveRestoreIff(bucket, m, ids, intents, audits, maxRowsPerFile);
    SelectionStart(intents, audits, m.date, maxRowsPerFile);
    AuditsOfStart(intents, audits, ids);
    var r := Restored(bucket, m.date, (map[], map[]), false);
    CompletedIff(r.staging.0, Selection(intents, m.date, maxRowsPerFile), fill);
    AuditsKeptIff(r.staging.1, AuditsOf(audits, ids));
  }

  /** The same row under another surrogate id. */
  function Renamed(): Intent -> Intent { (r: Intent) => r.(rest := r.rest.(id := r.rest.id + "'")) }

  /** The files of a completed run determine the intents it deleted if and only if it deleted none. */
  lemma DeterminedIff(files: seq<FileRef>, ids: seq<int>, intents: Intents, audits: Audits, date: Date, maxRowsPerFile: nat)
    requires Tables(intents, audits) && Exports(files, ids, intents, audits, date, maxRowsPerFile)
    ensures (forall others: Intents :: Tables(others, audits) && Exports(files, ids, others, audits, date, maxRowsPerFile)
               ==> Selection(others, date, maxRowsPerFile) == Selection(intents, date, maxRowsPerFile))
            <==> Selection(intents, date, maxRowsPerFile) == []
  {
    var selected, others := Selection(intents, date, maxRowsPerFile), Mapped(intents, Renamed());
    if selected == [] {
      forall o: Intents | Exports(files, ids, o, audits, date, maxRowsPerFile) ensures Selection(o, date, maxRowsPerFile) == [] {
        assert |Mapped(Selection(o, date, maxRowsPerFile), Exported())| == |Mapped(selected, Exported())|;
      }
    } else {
      FilterMapped(intents, Renamed(), IsEligible(date), IsEligible(date));
      MappedHolds(intents, Renamed());
      assert Tables(others, audits) by {
        forall r | r in others ensures r.id > 0 {
          var x :| x in intents && r == Keyed(x.id, Renamed()(x.data));
        }
      }
      var renamed := Selection(others, date, maxRowsPerFile);
      assert renamed == Mapped(selected, Renamed());
      assert Mapped(renamed, Exported()) == Mapped(selected, Exported());
      assert Exports(files, ids, others, audits, date, maxRowsPerFile);
      assert |renamed[0].data.rest.id| == |selected[0].data.rest.id| + 1;
      assert renamed != selected;
    }
  }

  /** Two intents that differ in their auction alone have one archive, so no way of filling it restores both. */
  lemma AuctionIsLost(id: int, columns: Columns, rest: Unexported, fill: Keyed<Columns> -> Unexported)
    ensures var with := Keyed(id, Intent(columns, rest.(auction := Some("{}"))));
            var without := Keyed(id, Intent(columns, rest.(auction := None)));
            Archived(with) == Archived(without) && !(Guessed(fill, with) && Guessed(fill, without))
  {
  }

  lemma FalsyMetadataIsLost(id: int, a: Audit)
    requires !Kept(Keyed(id, a))
    ensures ArchivedAudit(Keyed(id, a)) == ArchivedAudit(Keyed(id, a.(metadata := None)))
  {
    TruthyIff(a.metadata.value);
  }
}
