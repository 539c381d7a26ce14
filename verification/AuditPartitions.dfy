/**
 * Monthly partition maintenance of the audit log: create ahead, detach past
 * the retention cutoff, export detached tables, drop exported ones. Months
 * are counted from year 0; any statement may fail, and any upload may store
 * the wrong bytes, except in a pass that is `calm`.
 */
module AuditPartitions {
  import opened Common
  import opened Keyset
  import opened MonthNames
  import Archival

  type Rows = seq<Keyed<Archival.Audit>>

  /** A detached table: the suffix of its name, and its rows. */
  datatype Named = Named(name: string, rows: Rows)

  /** Exports are kept by month; `MonthNames.SuffixInjective` is why the path of one month is never that of another. */
  datatype ObjectKey = ManifestKey(month: int) | PartKey(month: int, index: nat)

  datatype Blob = Part(rows: Archival.ArchivedAudits) | Manifest(files: seq<ObjectKey>) | Garbage

  type Bucket = map<ObjectKey, Blob>

  const EXPORT_BATCH := 5000

  ghost predicate Table(rows: Rows) {
    Sorted(rows) && forall r :: r in rows ==> r.id > 0
  }

  function Archived(rows: Rows): Archival.ArchivedAudits { Mapped(rows, Archival.ExportedAudit()) }

  function PartRows(bucket: Bucket, files: seq<ObjectKey>): Archival.ArchivedAudits {
    if files == [] then []
    else
      var f := files[|files| - 1];
      PartRows(bucket, files[..|files| - 1]) + if f in bucket && bucket[f].Part? then bucket[f].rows else []
  }

  ghost predicate PartsOf(files: seq<ObjectKey>, month: int) {
    forall f :: f in files ==> f.PartKey? && f.month == month
  }

  ghost predicate AllParts(bucket: Bucket, files: seq<ObjectKey>) {
    forall f :: f in files ==> f in bucket && bucket[f].Part?
  }

  /** The month's manifest and every file it lists can be read. */
  ghost predicate Intact(bucket: Bucket, month: int) {
    && ManifestKey(month) in bucket && bucket[ManifestKey(month)].Manifest?
    && AllParts(bucket, bucket[ManifestKey(month)].files)
  }

  /** The month's files hold exactly what is exported of `rows`, each row once and in order. */
  ghost predicate Exported(bucket: Bucket, month: int, rows: Rows) {
    Intact(bucket, month) && PartRows(bucket, bucket[ManifestKey(month)].files) == Archived(rows)
  }

  /** The manifest that is there was written for `rows`. */
  ghost predicate Stored(bucket: Bucket, month: int, rows: Rows) {
    && ManifestKey(month) in bucket
    && (bucket[ManifestKey(month)].Manifest? ==> PartsOf(bucket[ManifestKey(month)].files, month))
    && (Intact(bucket, month) ==> Exported(bucket, month, rows))
  }

  /** Objects of other months, and this month's manifest, are untouched. */
  ghost predicate OnlyPartsOf(a: Bucket, b: Bucket, month: int) {
    forall k: ObjectKey :: k.month != month || k.ManifestKey? ==> (k in a <==> k in b) && (k in a ==> a[k] == b[k])
  }

  lemma {:induction false} PartRowsFrame(a: Bucket, b: Bucket, files: seq<ObjectKey>)
    requires forall f :: f in files ==> (f in a <==> f in b) && (f in a ==> a[f] == b[f])
    ensures PartRows(a, files) == PartRows(b, files)
  {
    if files != [] {
      assert files[|files| - 1] in files;
      PartRowsFrame(a, b, files[..|files| - 1]);
    }
  }

  lemma StoredFrame(a: Bucket, b: Bucket, m: int, rows: Rows, month: int)
    requires Stored(a, m, rows) && OnlyPartsOf(a, b, month) && m != month
    ensures Stored(b, m, rows)
  {
    if a[ManifestKey(m)].Manifest? { PartRowsFrame(a, b, a[ManifestKey(m)].files); }
  }

  // ---------------------------------------------------------------- what happened to the tables ever detached

  predicate OfMonth(t: Named, month: int) { ParseSuffix(t.name) == Some(month) }

  /** Still a table. */
  ghost predicate Kept(detached: map<string, Rows>, t: Named) { t.name in detached && detached[t.name] == t.rows }

  /** The month's manifest was written for one of its tables. */
  ghost predicate Written(contents: seq<Named>, bucket: Bucket, month: int) {
    exists t :: t in contents && OfMonth(t, month) && Stored(bucket, month, t.rows)
  }

  /** Still a table, or its month has a manifest. */
  ghost predicate Placed(detached: map<string, Rows>, t: Named, bucket: Bucket) {
    Kept(detached, t) || (ParseSuffix(t.name).Some? && ManifestKey(ParseSuffix(t.name).value) in bucket)
  }

  /** `contents` lists every table ever detached. */
  ghost predicate Safe(detached: map<string, Rows>, contents: seq<Named>, bucket: Bucket) {
    && (forall t :: t in contents ==> Table(t.rows) && Placed(detached, t, bucket))
    && (forall n :: n in detached ==> Named(n, detached[n]) in contents)
    && (forall m :: ManifestKey(m) in bucket ==> Written(contents, bucket, m))
  }

  /**
   * A month with a readable export: all its tables are exported if and only if
   * they have the same rows. Tables share a month when a name is an alias
   * (`MonthNames.OwnNameIff`), and only the first one is written.
   */
  lemma MonthExportedIff(detached: map<string, Rows>, contents: seq<Named>, bucket: Bucket, month: int)
    requires Safe(detached, contents, bucket) && Intact(bucket, month)
    ensures (forall t :: t in contents && OfMonth(t, month) ==> Exported(bucket, month, t.rows))
            <==> forall t, u :: t in contents && u in contents && OfMonth(t, month) && OfMonth(u, month) ==>
                   Archived(t.rows) == Archived(u.rows)
  {
    var first :| first in contents && OfMonth(first, month) && Stored(bucket, month, first.rows);
    assert Exported(bucket, month, first.rows);
  }

  /** No two of them are of one month, and none is of a month that is attached or to come. */
  ghost predicate Apart(contents: seq<Named>, attached: map<nat, Rows>, clock: int) {
    && (forall i, j, m :: 0 <= i < j < |contents| && OfMonth(contents[i], m) ==> !OfMonth(contents[j], m))
    && (forall t, m :: t in contents && OfMonth(t, m) ==> m < clock && m !in attached)
  }

  /** Without shared months a table is gone only when it was exported, as far as the uploads were intact. */
  ghost predicate NothingLost(detached: map<string, Rows>, contents: seq<Named>, bucket: Bucket) {
    forall t :: t in contents && !Kept(detached, t) ==>
      exists m :: OfMonth(t, m) && ManifestKey(m) in bucket && (Exported(bucket, m, t.rows) <==> Intact(bucket, m))
  }

  lemma ApartNothingLost(detached: map<string, Rows>, contents: seq<Named>, bucket: Bucket, attached: map<nat, Rows>, clock: int)
    requires Safe(detached, contents, bucket) && Apart(contents, attached, clock)
    ensures NothingLost(detached, contents, bucket)
  {
    hide Exported, Intact, Table, ParseSuffix;
    forall t | t in contents && !Kept(detached, t)
      ensures exists m :: OfMonth(t, m) && ManifestKey(m) in bucket && (Exported(bucket, m, t.rows) <==> Intact(bucket, m))
    {
      assert Placed(detached, t, bucket);
      var m := ParseSuffix(t.name).value;
      assert OfMonth(t, m) && Written(contents, bucket, m);
      var first :| first in contents && OfMonth(first, m) && Stored(bucket, m, first.rows);
      var i :| 0 <= i < |contents| && contents[i] == t;
      var j :| 0 <= j < |contents| && contents[j] == first;
      assert i == j;
      ExportedIsIntact(bucket, m, t.rows);
    }
  }

  lemma ExportedIsIntact(bucket: Bucket, month: int, rows: Rows)
    requires Stored(bucket, month, rows)
    ensures Exported(bucket, month, rows) <==> Intact(bucket, month)
  {
  }

  /** Two tables of one month, of which the empty one was exported: the other is gone and its rows are not in the bucket. */
  lemma SecondTableLost(a: string, b: string, month: int, row: Keyed<Archival.Audit>)
    requires ParseSuffix(a) == ParseSuffix(b) == Some(month) && row.id > 0
    ensures var bucket := map[ManifestKey(month) := Manifest([])];
            && Safe(map[], [Named(a, []), Named(b, [row])], bucket)
            && Intact(bucket, month) && !Exported(bucket, month, [row])
  {
    hide ParseSuffix;
    var first, second := Named(a, []), Named(b, [row]);
    var bucket := map[ManifestKey(month) := Manifest([])];
    assert Stored(bucket, month, first.rows);
    assert first in [first, second] && OfMonth(first, month);
    assert Written([first, second], bucket, month);
  }

  /** Month 13 of a year beside the next January. */
  lemma AliasedTableLost(y: nat, row: Keyed<Archival.Audit>)
    requires 1000 <= y <= 9998 && row.id > 0
    ensures var january := (y + 1) * 12;
            var bucket := map[ManifestKey(january) := Manifest([])];
            && Safe(map[], [Named("y" + Decimal(y) + "m13", []), Named(MonthSuffix(january), [row])], bucket)
            && Intact(bucket, january) && !Exported(bucket, january, [row])
  {
    hide ParseSuffix, MonthSuffix, Decimal, Safe, Exported, Intact;
    OutOfRangeMonthIsAliased(y);
    SecondTableLost("y" + Decimal(y) + "m13", MonthSuffix((y + 1) * 12), (y + 1) * 12, row);
  }

  /** A table whose one part was stored as something else is gone all the same. */
  lemma GarbledTableLost(t: Named, month: int)
    requires OfMonth(t, month) && Table(t.rows)
    ensures var bucket := map[ManifestKey(month) := Manifest([PartKey(month, 0)]), PartKey(month, 0) := Garbage];
            Safe(map[], [t], bucket) && !Exported(bucket, month, t.rows)
  {
    hide ParseSuffix, Table;
    var bucket := map[ManifestKey(month) := Manifest([PartKey(month, 0)]), PartKey(month, 0) := Garbage];
    var part := PartKey(month, 0);
    assert part in [part] && !AllParts(bucket, [part]) && PartsOf([part], month);
    assert t in [t] && Stored(bucket, month, t.rows);
    assert Written([t], bucket, month);
  }

  // ---------------------------------------------------------------- what each step keeps

  lemma SafeAfterParts(detached: map<string, Rows>, contents: seq<Named>, a: Bucket, b: Bucket, month: int)
    requires Safe(detached, contents, a) && OnlyPartsOf(a, b, month) && ManifestKey(month) !in a
    ensures Safe(detached, contents, b) && ManifestKey(month) !in b
  {
    hide Stored, Table, OfMonth;
    forall t | t in contents ensures Placed(detached, t, b) { assert Placed(detached, t, a); }
    forall m | ManifestKey(m) in b ensures Written(contents, b, m) {
      assert ManifestKey(m) in a && Written(contents, a, m);
      var t :| t in contents && OfMonth(t, m) && Stored(a, m, t.rows);
      StoredFrame(a, b, m, t.rows, month);
    }
  }

  lemma StoredManifest(a: Bucket, month: int, rows: Rows, files: seq<ObjectKey>, blob: Blob)
    requires PartsOf(files, month) && (AllParts(a, files) ==> PartRows(a, files) == Archived(rows))
    requires blob == Manifest(files) || blob == Garbage
    ensures Stored(a[ManifestKey(month) := blob], month, rows)
  {
    var b := a[ManifestKey(month) := blob];
    if blob.Manifest? && AllParts(b, files) {
      assert AllParts(a, files);
      PartRowsFrame(a, b, files);
    }
  }

  lemma StoredBeside(a: Bucket, month: int, blob: Blob, m: int, rows: Rows)
    requires Stored(a, m, rows) && m != month
    ensures Stored(a[ManifestKey(month) := blob], m, rows)
  {
    var b := a[ManifestKey(month) := blob];
    if a[ManifestKey(m)].Manifest? { PartRowsFrame(a, b, a[ManifestKey(m)].files); }
  }

  lemma WrittenBeside(contents: seq<Named>, a: Bucket, month: int, blob: Blob, m: int)
    requires Written(contents, a, m) && m != month
    ensures Written(contents, a[ManifestKey(month) := blob], m)
  {
    hide Stored, OfMonth;
    var t :| t in contents && OfMonth(t, m) && Stored(a, m, t.rows);
    StoredBeside(a, month, blob, m, t.rows);
  }

  lemma SafeAfterManifest(detached: map<string, Rows>, contents: seq<Named>, a: Bucket, month: int, t: Named, files: seq<ObjectKey>, blob: Blob)
    requires Safe(detached, contents, a) && t in contents && OfMonth(t, month)
    requires PartsOf(files, month) && (AllParts(a, files) ==> PartRows(a, files) == Archived(t.rows))
    requires blob == Manifest(files) || blob == Garbage
    ensures Safe(detached, contents, a[ManifestKey(month) := blob])
  {
    hide Stored, Table, ParseSuffix, PartsOf, AllParts, PartRows, Archived, Written;
    var b := a[ManifestKey(month) := blob];
    assert Written(contents, b, month) by { WrittenNow(contents, a, month, t, files, blob); }
    forall u | u in contents ensures Placed(detached, u, b) { assert Placed(detached, u, a); }
    forall m | ManifestKey(m) in b ensures Written(contents, b, m) {
      if m != month { WrittenBeside(contents, a, month, blob, m); }
    }
  }

  lemma WrittenNow(contents: seq<Named>, a: Bucket, month: int, t: Named, files: seq<ObjectKey>, blob: Blob)
    requires t in contents && OfMonth(t, month)
    requires PartsOf(files, month) && (AllParts(a, files) ==> PartRows(a, files) == Archived(t.rows))
    requires blob == Manifest(files) || blob == Garbage
    ensures Written(contents, a[ManifestKey(month) := blob], month)
  {
    hide Stored, OfMonth;
    StoredManifest(a, month, t.rows, files, blob);
  }

  lemma SafeAfterDrop(detached: map<string, Rows>, contents: seq<Named>, bucket: Bucket, name: string)
    requires Safe(detached, contents, bucket) && ParseSuffix(name).Some? && ManifestKey(ParseSuffix(name).value) in bucket
    ensures Safe(detached - {name}, contents, bucket)
  {
    hide Written, ParseSuffix, Table;
    forall t | t in contents ensures Placed(detached - {name}, t, bucket) { assert Placed(detached, t, bucket); }
  }

  lemma DetachSafe(detached: map<string, Rows>, contents: seq<Named>, bucket: Bucket, t: Named)
    requires Safe(detached, contents, bucket) && t.name !in detached && Table(t.rows)
    ensures Safe(detached[t.name := t.rows], contents + [t], bucket)
  {
    hide Stored, ParseSuffix, Table;
    forall u | u in contents ensures Placed(detached[t.name := t.rows], u, bucket) { assert Placed(detached, u, bucket); }
    forall m | ManifestKey(m) in bucket ensures Written(contents + [t], bucket, m) {
      assert Written(contents, bucket, m);
      var u :| u in contents && OfMonth(u, m) && Stored(bucket, m, u.rows);
      assert u in contents + [t];
    }
  }

  lemma DetachApart(contents: seq<Named>, attached: map<nat, Rows>, clock: int, month: nat)
    requires Apart(contents, attached, clock) && month in attached && month < clock
    ensures Apart(contents + [Named(MonthSuffix(month), attached[month])], attached - {month}, clock)
  {
    hide ParseSuffix, MonthSuffix;
    var t := Named(MonthSuffix(month), attached[month]);
    OwnNameReads(month);
    forall i, j, m | 0 <= i < j < |contents + [t]| && OfMonth((contents + [t])[i], m) ensures !OfMonth((contents + [t])[j], m) {
      assert contents[i] in contents;
    }
  }

  /** Tables attached before and gone now were detached under their own names, all from before the cutoff. */
  ghost predicate Moved(attached: map<nat, Rows>, attached': map<nat, Rows>, moved: seq<Named>, cutoff: int) {
    && (forall t :: t in moved ==> exists m :: m in attached && m < cutoff && t == Named(MonthSuffix(m), attached[m]))
    && (forall m :: m in attached' ==> m in attached && attached'[m] == attached[m])
    && (forall m :: m in attached && m !in attached' ==> Named(MonthSuffix(m), attached[m]) in moved)
  }

  lemma MovedNext(attached: map<nat, Rows>, attached': map<nat, Rows>, moved: seq<Named>, cutoff: int, month: nat)
    requires Moved(attached, attached', moved, cutoff) && month in attached' && month < cutoff
    ensures Moved(attached, attached' - {month}, moved + [Named(MonthSuffix(month), attached'[month])], cutoff)
  {
    hide MonthSuffix;
  }

  function ByName(tables: seq<Named>): map<string, Rows>
    requires forall i, j :: 0 <= i < j < |tables| ==> tables[i].name != tables[j].name
  {
    map i | 0 <= i < |tables| :: tables[i].name := tables[i].rows
  }

  lemma InitialSafe(tables: seq<Named>)
    requires forall i, j :: 0 <= i < j < |tables| ==> tables[i].name != tables[j].name
    requires forall t :: t in tables ==> Table(t.rows)
    ensures Safe(ByName(tables), tables, map[])
  {
    hide Table, ParseSuffix;
    var detached := ByName(tables);
    forall t | t in tables ensures Placed(detached, t, map[]) {
      var i :| 0 <= i < |tables| && tables[i] == t;
    }
    forall n | n in detached ensures Named(n, detached[n]) in tables {
      var i :| 0 <= i < |tables| && tables[i].name == n;
    }
  }

  ghost predicate AllTables(months: map<nat, Rows>) {
    forall m :: m in months ==> Table(months[m])
  }

  lemma TableMoved(attached: map<nat, Rows>, spill: map<nat, Rows>, month: nat)
    requires AllTables(attached) && AllTables(spill)
    ensures AllTables(attached[month := if month in spill then spill[month] else []]) && AllTables(spill - {month})
    ensures AllTables(attached - {month}) && (month in attached ==> Table(attached[month]))
  {
    hide Sorted;
    EmptyTable();
  }

  // ---------------------------------------------------------------- the service

  class AuditPartitionService {
    const retentionMonths: nat
    const premakeMonths: nat
    const dropAfterExport: bool
    var attached: map<nat, Rows>
    var spill: map<nat, Rows>  // the default partition, by month
    var detached: map<string, Rows>
    var bucket: Bucket
    ghost var contents: seq<Named>
    ghost var clock: int

    ghost predicate Valid()
      reads this
    {
      AllTables(attached) && AllTables(spill) && Safe(detached, contents, bucket)
    }

    ghost predicate MonthsApart()
      reads this
    {
      Apart(contents, attached, clock)
    }

    /** Tables that look detached may be there from the start, under any names. */
    constructor (retentionMonths: nat, premakeMonths: nat, dropAfterExport: bool, attached: map<nat, Rows>, spill: map<nat, Rows>,
                 tables: seq<Named>, now: int)
      requires AllTables(attached) && AllTables(spill)
      requires forall t :: t in tables ==> Table(t.rows)
      requires forall i, j :: 0 <= i < j < |tables| ==> tables[i].name != tables[j].name
      ensures Valid() && clock == now && contents == tables && this.attached == attached
      ensures tables == [] ==> MonthsApart()
    {
      hide Safe, AllTables, Table, OfMonth;
      this.retentionMonths, this.premakeMonths, this.dropAfterExport := retentionMonths, premakeMonths, dropAfterExport;
      this.attached, this.spill, bucket := attached, spill, map[];
      detached := ByName(tables);
      contents, clock := tables, now;
      InitialSafe(tables);
    }

    /** The current month and the next `premakeMonths`; a failed create is recorded and the loop goes on. */
    method EnsureUpcoming(now: nat, calm: bool) returns (created: seq<nat>, errors: nat)
      requires Valid()
      modifies this`attached, this`spill
      ensures Valid() && (old(MonthsApart()) && clock <= now ==> MonthsApart())
      ensures Premade(old(attached), old(spill), attached, spill, created, now, now + premakeMonths + 1)
      ensures errors == |Missing(attached, now, now + premakeMonths + 1)| && (calm ==> errors == 0)
    {
      hide Safe, AllTables, Premade, Missing, Apart;
      created, errors := [], 0;
      NothingMade(attached, spill, now);
      var i := 0;
      while i <= premakeMonths
        invariant 0 <= i <= premakeMonths + 1 && Valid()
        invariant Premade(old(attached), old(spill), attached, spill, created, now, now + i)
        invariant errors == |Missing(attached, now, now + i)| && (calm ==> errors == 0)
      {
        var month := now + i;
        MonthMade(old(attached), old(spill), attached, spill, created, now, month);
        if month !in attached {
          var failed := Fails(calm);
          if !failed {
            TableMoved(attached, spill, month);
            attached := attached[month := if month in spill then spill[month] else []];
            spill := spill - {month};
            created := created + [month];
          } else {
            errors := errors + 1;
          }
        }
        i := i + 1;
      }
      PremadeApart(contents, old(attached), old(spill), attached, spill, created, now, now + i, clock);
    }

    /** The detach transaction; it happens whole or not at all, and not while a table of that name is there. */
    method Detach(month: nat, calm: bool) returns (ok: bool)
      requires Valid() && month in attached && month < clock
      modifies this`attached, this`detached, this`contents
      ensures calm ==> (ok <==> MonthSuffix(month) !in old(detached))
      ensures detached == if ok then old(detached)[MonthSuffix(month) := old(attached)[month]] else old(detached)
      ensures Valid() && (old(MonthsApart()) ==> MonthsApart())
      ensures ok ==> attached == old(attached) - {month} && contents == old(contents) + [Named(MonthSuffix(month), old(attached)[month])]
      ensures !ok ==> attached == old(attached) && contents == old(contents)
    {
      hide Safe, AllTables, Apart, MonthSuffix;
      TableMoved(attached, spill, month);
      var failed := Fails(calm);
      if failed { return false; }
      var t := Named(MonthSuffix(month), attached[month]);
      if t.name in detached { return false; }
      DetachSafe(detached, contents, bucket, t);
      if MonthsApart() { DetachApart(contents, attached, clock, month); }
      detached := detached[t.name := t.rows];
      contents := contents + [t];
      attached := attached - {month};
      return true;
    }

    /** Detach every attached month that lies wholly before the cutoff; each one left is an error. */
    method ApplyRetention(now: nat, calm: bool) returns (errors: nat)
      requires Valid() && clock == now && retentionMonths > 0
      modifies this`attached, this`detached, this`contents
      ensures Valid() && (old(MonthsApart()) ==> MonthsApart())
      ensures old(contents) <= contents && Moved(old(attached), attached, contents[|old(contents)|..], now - retentionMonths)
      ensures errors == |Expired(attached, now - retentionMonths)|
      ensures calm ==> forall m :: m in attached && m < now - retentionMonths ==> MonthSuffix(m) in old(detached)
    {
      hide Safe, AllTables, Apart, MonthSuffix, Moved, Retiring;
      errors := 0;
      var cutoff := now - retentionMonths;
      var todo := attached.Keys;
      NothingMoved(attached, cutoff);
      NothingRetired(attached, detached, cutoff, calm);
      assert contents[|contents|..] == [];
      while todo != {}
        invariant Valid() && todo <= attached.Keys && (old(MonthsApart()) ==> MonthsApart())
        invariant old(contents) <= contents && Moved(old(attached), attached, contents[|old(contents)|..], cutoff)
        invariant Retiring(old(detached), attached, detached, todo, errors, cutoff, calm)
        decreases todo
      {
        var month := Pick(todo);
        MonthRetired(old(detached), attached, detached, todo, errors, cutoff, calm, month);
        todo := todo - {month};
        if month < cutoff {
          MovedNext(old(attached), attached, contents[|old(contents)|..], cutoff, month);
          ghost var before := contents;
          var ok := Detach(month, calm);
          if !ok { errors := errors + 1; }
          else { SliceGrows(before, contents[|before|], |old(contents)|); }
        }
      }
      AllRetired(old(detached), attached, detached, errors, cutoff, calm);
    }

    /** Page through a detached table by id, one part file per page. */
    method ExportTable(rows: Rows, month: int, calm: bool) returns (ok: bool, files: seq<ObjectKey>)
      requires Table(rows)
      modifies this`bucket
      ensures calm ==> ok && AllParts(bucket, files)
      ensures OnlyPartsOf(old(bucket), bucket, month)
      ensures ok ==> PartsOf(files, month) && (AllParts(bucket, files) ==> PartRows(bucket, files) == Archived(rows))
    {
      hide After, Page, Mapped;
      files, ok := [], false;
      var cursor, more := 0, true;
      ghost var pages: seq<Rows> := [];
      AllAfter(rows, 0);
      while more
        invariant OnlyPartsOf(old(bucket), bucket, month) && PartsWritten(bucket, files, pages, month)
        invariant Flatten(pages) + After(rows, cursor) == rows
        invariant ok <==> !more
        invariant ok ==> After(rows, cursor) == []
        invariant calm ==> forall i :: 0 <= i < |files| ==> bucket[files[i]].Part?
        decreases |After(rows, cursor)|, more
      {
        var failed := Fails(calm);
        if failed { return; }
        var page := Page(rows, cursor, EXPORT_BATCH);
        if page == [] { ok := true; break; }
        var last := page[|page| - 1].id;
        PageRead(pages, rows, cursor, EXPORT_BATCH, page, last);
        var garbled := Fails(calm);
        var blob := if garbled then Garbage else Part(Archived(page));
        PartAdded(old(bucket), bucket, files, pages, month, page, blob);
        bucket := bucket[PartKey(month, |files|) := blob];
        files, pages := files + [PartKey(month, |files|)], pages + [page];
        cursor := last;
        more := |page| >= EXPORT_BATCH;
        ok := !more;
      }
      assert ok ==> Flatten(pages) == rows;
      PartsHold(bucket, files, pages, month);
    }

    /** Export a detached table whose month has no manifest yet; optionally drop it once there is one. */
    method ExportOne(name: string, calm: bool) returns (failed: bool)
      requires Valid() && name in detached && ParseSuffix(name).Some?
      modifies this`bucket, this`detached
      ensures Valid() && (detached == old(detached) || detached == old(detached) - {name})
      ensures name !in detached ==> dropAfterExport && ManifestKey(ParseSuffix(name).value) in bucket
      ensures ManifestKey(ParseSuffix(name).value) in old(bucket) ==> bucket == old(bucket)
      ensures forall k :: k in old(bucket) && k.ManifestKey? ==> k in bucket
      ensures !failed ==> ManifestKey(ParseSuffix(name).value) in bucket
      ensures calm ==> !failed && (dropAfterExport ==> name !in detached)
      ensures calm && ManifestKey(ParseSuffix(name).value) !in old(bucket) ==> Exported(bucket, ParseSuffix(name).value, old(detached)[name])
    {
      hide Safe, AllTables, Table, ParseSuffix, Archived;
      failed := true;
      var month, t := ParseSuffix(name).value, Named(name, detached[name]);
      var files := [];
      SafeHas(detached, contents, bucket, name);
      if ManifestKey(month) !in bucket {
        var ok;
        ok, files := ExportTable(t.rows, month, calm);
        SafeAfterParts(detached, contents, old(bucket), bucket, month);
        if !ok { return; }
        var garbled := Fails(calm);
        var blob := if garbled then Garbage else Manifest(files);
        SafeAfterManifest(detached, contents, bucket, month, t, files, blob);
        StoredManifest(bucket, month, t.rows, files, blob);
        bucket := bucket[ManifestKey(month) := blob];
        var stopped := Fails(calm);
        if stopped { return; }
      }
      if !dropAfterExport { return false; }
      var i := 0;
      while i < |files|
      {
        if files[i] !in bucket { return false; }
        i := i + 1;
      }
      var stopped := Fails(calm);
      if stopped { return; }
      SafeAfterDrop(detached, contents, bucket, name);
      detached := detached - {name};
      return false;
    }

    /** A failed export is recorded and the loop goes on. */
    method ExportDetached(calm: bool) returns (errors: nat)
      requires Valid()
      modifies this`bucket, this`detached
      ensures Valid() && detached.Keys <= old(detached).Keys
      ensures errors == 0 ==> forall n :: n in old(detached) && ParseSuffix(n).Some? ==> ManifestKey(ParseSuffix(n).value) in bucket
      ensures calm ==> errors == 0 && (dropAfterExport ==> forall n :: n in detached ==> ParseSuffix(n).None?)
    {
      hide Safe, AllTables, ParseSuffix, Exported;
      errors := 0;
      var todo := detached.Keys;
      while todo != {}
        invariant Valid() && todo <= detached.Keys <= old(detached).Keys
        invariant errors == 0 ==>
                    forall n :: n in old(detached) && n !in todo && ParseSuffix(n).Some? ==> ManifestKey(ParseSuffix(n).value) in bucket
        invariant calm ==> errors == 0 && (dropAfterExport ==> forall n :: n in detached && n !in todo ==> ParseSuffix(n).None?)
        decreases todo
      {
        var name := Pick(todo);
        todo := todo - {name};
        if ParseSuffix(name).Some? {
          var failed := ExportOne(name, calm);
          if failed { errors := errors + 1; }
        }
      }
    }

    /** One maintenance pass. */
    method Execute(now: nat, storeConfigured: bool, calm: bool) returns (errors: nat, monthsAhead: nat)
      requires Valid()
      modifies this
      ensures Valid() && clock == now
      // a month at or after the cutoff is never detached, and every other one stays or is detached whole
      ensures old(contents) <= contents
      ensures forall t :: t in contents[|old(contents)|..] ==>
                retentionMonths > 0 && exists m :: m in old(attached) && m < now - retentionMonths && t == Named(MonthSuffix(m), old(attached)[m])
      ensures forall m :: m in old(attached) ==>
                (m in attached && attached[m] == old(attached)[m]) || Named(MonthSuffix(m), old(attached)[m]) in contents[|old(contents)|..]
      // without errors nothing before the cutoff is left attached, and every detached table has its manifest
      ensures errors == 0 && retentionMonths > 0 ==> forall m :: m in attached ==> m >= now - retentionMonths
      ensures errors == 0 && storeConfigured ==>
                forall t :: t in contents && ParseSuffix(t.name).Some? ==> ManifestKey(ParseSuffix(t.name).value) in bucket
      // what a pass in which nothing fails leaves behind
      ensures calm && retentionMonths > 0 ==>
                forall m :: m in old(attached) && m < now - retentionMonths && m in attached ==> MonthSuffix(m) in old(detached)
      ensures calm && storeConfigured && dropAfterExport ==> forall n :: n in detached ==> ParseSuffix(n).None?
      // while the clock does not go back, tables of different months stay so, and then nothing is lost
      ensures old(MonthsApart()) && old(clock) <= now ==> MonthsApart() && NothingLost(detached, contents, bucket)
      // partitions are created ahead
      ensures errors == 0 || calm ==> monthsAhead >= premakeMonths && now in attached
      ensures forall m :: now < m <= now + monthsAhead ==> m in attached
      ensures now + monthsAhead + 1 !in attached
    {
      hide Safe, AllTables, Apart, MonthSuffix, NothingLost, Moved, ParseSuffix, Missing, Expired;
      var created, e1 := EnsureUpcoming(now, calm);
      errors := e1;
      NoneMissing(attached, now, now + premakeMonths + 1);
      ClockAdvances(contents, attached, clock, now);
      clock := now;
      ghost var ahead := attached;
      if retentionMonths > 0 {
        var e2 := ApplyRetention(now, calm);
        errors := errors + e2;
        PassMoves(old(attached), ahead, attached, contents[|old(contents)|..], now, now - retentionMonths);
        NoneExpired(attached, now - retentionMonths);
      }
      ghost var detachedBefore := detached;
      if storeConfigured {
        ManifestOrTable(detached, contents, bucket);
        ghost var stored := bucket;
        var e3 := ExportDetached(calm);
        errors := errors + e3;
        ManifestOrTable(detached, contents, bucket);
      }
      if MonthsApart() { ApartNothingLost(detached, contents, bucket, attached, clock); }
      monthsAhead := MonthsAhead(attached.Keys, now);
    }
  }

  function Missing(attached: map<nat, Rows>, from: nat, to: nat): set<nat> {
    set m: nat | from <= m < to && m !in attached
  }

  function Expired(attached: map<nat, Rows>, cutoff: int): set<nat> {
    set m | m in attached && m < cutoff
  }

  /**
   * Months created in a stretch of time: each gets its rows of the default
   * partition, which loses them; all other months and rows are as before.
   */
  ghost predicate Premade(attached: map<nat, Rows>, spill: map<nat, Rows>, attached': map<nat, Rows>, spill': map<nat, Rows>,
                          created: seq<nat>, from: nat, to: nat) {
    && (forall m :: m in attached' <==> m in attached || m in created)
    && (forall m :: m in created ==> m !in attached && from <= m < to)
    && (forall m :: m in attached' ==>
          attached'[m] == if m in attached then attached[m] else if m in spill then spill[m] else [])
    && (forall m :: m in spill' <==> m in spill && m !in created)
    && (forall m :: m in spill' ==> spill'[m] == spill[m])
  }

  lemma NothingMade(attached: map<nat, Rows>, spill: map<nat, Rows>, from: nat)
    ensures Premade(attached, spill, attached, spill, [], from, from) && Missing(attached, from, from) == {}
  {
  }

  /** What one turn of the loop does, whether the month is there already, is created or is missing in the end. */
  lemma MonthMade(attached: map<nat, Rows>, spill: map<nat, Rows>, attached': map<nat, Rows>, spill': map<nat, Rows>,
                  created: seq<nat>, from: nat, month: nat)
    requires Premade(attached, spill, attached', spill', created, from, month) && from <= month
    ensures Premade(attached, spill, attached', spill', created, from, month + 1)
    ensures |Missing(attached', from, month + 1)| == |Missing(attached', from, month)| + if month in attached' then 0 else 1
    ensures month !in attached' ==>
              var next := attached'[month := if month in spill' then spill'[month] else []];
              && Premade(attached, spill, next, spill' - {month}, created + [month], from, month + 1)
              && |Missing(next, from, month + 1)| == |Missing(attached', from, month)|
  {
    hide Missing, Premade;
    PremadeWider(attached, spill, attached', spill', created, from, month);
    MissingNext(attached', from, month);
    if month !in attached' {
      PremadeNext(attached, spill, attached', spill', created, from, month);
      MissingFilled(attached', from, month, if month in spill' then spill'[month] else []);
    }
  }

  lemma PremadeWider(attached: map<nat, Rows>, spill: map<nat, Rows>, attached': map<nat, Rows>, spill': map<nat, Rows>,
                     created: seq<nat>, from: nat, month: nat)
    requires Premade(attached, spill, attached', spill', created, from, month)
    ensures Premade(attached, spill, attached', spill', created, from, month + 1)
  {
  }

  lemma PremadeNext(attached: map<nat, Rows>, spill: map<nat, Rows>, attached': map<nat, Rows>, spill': map<nat, Rows>,
                    created: seq<nat>, from: nat, month: nat)
    requires Premade(attached, spill, attached', spill', created, from, month) && from <= month && month !in attached'
    ensures Premade(attached, spill, attached'[month := if month in spill' then spill'[month] else []], spill' - {month},
                    created + [month], from, month + 1)
  {
    assert forall m :: m in created + [month] <==> m in created || m == month;
  }

  lemma MissingNext(attached: map<nat, Rows>, from: nat, month: nat)
    requires from <= month
    ensures |Missing(attached, from, month + 1)| == |Missing(attached, from, month)| + if month in attached then 0 else 1
  {
    assert Missing(attached, from, month + 1) == Missing(attached, from, month) + if month in attached then {} else {month};
  }

  lemma MissingFilled(attached: map<nat, Rows>, from: nat, month: nat, rows: Rows)
    ensures Missing(attached[month := rows], from, month + 1) == Missing(attached, from, month)
  {
  }

  lemma PremadeApart(contents: seq<Named>, attached: map<nat, Rows>, spill: map<nat, Rows>, attached': map<nat, Rows>, spill': map<nat, Rows>,
                     created: seq<nat>, from: nat, to: nat, clock: int)
    requires Premade(attached, spill, attached', spill', created, from, to)
    ensures Apart(contents, attached, clock) && clock <= from ==> Apart(contents, attached', clock)
  {
    hide ParseSuffix;
  }

  /**
   * Each month looked at, before the cutoff and still attached is an error; if
   * nothing failed, the name of its detached table was taken from the start.
   */
  ghost predicate Retiring(taken: map<string, Rows>, attached: map<nat, Rows>, detached: map<string, Rows>, todo: set<nat>,
                           errors: nat, cutoff: int, calm: bool) {
    && errors == |Expired(attached, cutoff) - todo|
    && (forall m :: m in attached && MonthSuffix(m) in detached ==> MonthSuffix(m) in taken)
    && (calm ==> forall m :: m in attached && m !in todo && m < cutoff ==> MonthSuffix(m) in taken)
  }

  lemma NothingRetired(attached: map<nat, Rows>, detached: map<string, Rows>, cutoff: int, calm: bool)
    ensures Retiring(detached, attached, detached, attached.Keys, 0, cutoff, calm)
  {
    assert Expired(attached, cutoff) - attached.Keys == {};
  }

  lemma MonthRetired(taken: map<string, Rows>, attached: map<nat, Rows>, detached: map<string, Rows>, todo: set<nat>,
                     errors: nat, cutoff: int, calm: bool, month: nat)
    requires Retiring(taken, attached, detached, todo, errors, cutoff, calm) && month in todo && todo <= attached.Keys
    ensures month >= cutoff ==> Retiring(taken, attached, detached, todo - {month}, errors, cutoff, calm)
    ensures month < cutoff ==>
              Retiring(taken, attached - {month}, detached[MonthSuffix(month) := attached[month]], todo - {month}, errors, cutoff, calm)
    ensures month < cutoff && (calm ==> MonthSuffix(month) in detached) ==>
              Retiring(taken, attached, detached, todo - {month}, errors + 1, cutoff, calm)
  {
    hide MonthSuffix;
    var done := Expired(attached, cutoff) - todo;
    assert Expired(attached, cutoff) - (todo - {month}) == done + if month < cutoff then {month} else {};
    assert month < cutoff ==> Expired(attached - {month}, cutoff) - (todo - {month}) == done;
    NamesApart(attached, month);
  }

  lemma AllRetired(taken: map<string, Rows>, attached: map<nat, Rows>, detached: map<string, Rows>, errors: nat, cutoff: int, calm: bool)
    requires Retiring(taken, attached, detached, {}, errors, cutoff, calm)
    ensures errors == |Expired(attached, cutoff)|
    ensures calm ==> forall m :: m in attached && m < cutoff ==> MonthSuffix(m) in taken
  {
    assert Expired(attached, cutoff) - {} == Expired(attached, cutoff);
  }

  lemma NoneMissing(attached: map<nat, Rows>, from: nat, to: nat)
    ensures |Missing(attached, from, to)| == 0 ==> forall m :: from <= m < to ==> m in attached
  {
    if |Missing(attached, from, to)| == 0 {
      forall m | from <= m < to ensures m in attached { assert m !in Missing(attached, from, to); }
    }
  }

  lemma NoneExpired(attached: map<nat, Rows>, cutoff: int)
    ensures |Expired(attached, cutoff)| == 0 ==> forall m :: m in attached ==> m >= cutoff
  {
    if |Expired(attached, cutoff)| == 0 {
      forall m | m in attached ensures m >= cutoff { assert m !in Expired(attached, cutoff); }
    }
  }

  lemma EmptyTable()
    ensures Table([])
  {
  }

  /** The name of a month is that of no other attached one. */
  lemma NamesApart(attached: map<nat, Rows>, month: nat)
    ensures forall m :: m in attached - {month} ==> MonthSuffix(m) != MonthSuffix(month)
  {
    hide MonthSuffix;
    forall m | m in attached - {month} ensures MonthSuffix(m) != MonthSuffix(month) {
      if MonthSuffix(m) == MonthSuffix(month) { SuffixInjective(m, month); }
    }
  }

  lemma ManifestOrTable(detached: map<string, Rows>, contents: seq<Named>, bucket: Bucket)
    requires Safe(detached, contents, bucket)
    ensures forall t :: t in contents && ParseSuffix(t.name).Some? && ManifestKey(ParseSuffix(t.name).value) !in bucket ==> t.name in detached
  {
    hide ParseSuffix, Table, Written;
    forall t | t in contents && ParseSuffix(t.name).Some? && ManifestKey(ParseSuffix(t.name).value) !in bucket ensures t.name in detached {
      assert Placed(detached, t, bucket);
    }
  }

  lemma ClockAdvances(contents: seq<Named>, attached: map<nat, Rows>, clock: int, now: int)
    ensures Apart(contents, attached, clock) && clock <= now ==> Apart(contents, attached, now)
  {
  }

  lemma NothingMoved(attached: map<nat, Rows>, cutoff: int)
    ensures Moved(attached, attached, [], cutoff)
  {
  }

  /** What the retention step does to the months there were before the upcoming ones were created. */
  lemma PassMoves(before: map<nat, Rows>, ahead: map<nat, Rows>, after: map<nat, Rows>, moved: seq<Named>, now: nat, cutoff: int)
    requires forall m :: m in before ==> m in ahead && ahead[m] == before[m]
    requires forall m :: m in ahead && m !in before ==> now <= m
    requires Moved(ahead, after, moved, cutoff) && cutoff <= now
    ensures forall t :: t in moved ==> exists m :: m in before && m < cutoff && t == Named(MonthSuffix(m), before[m])
    ensures forall m :: m in before ==> (m in after && after[m] == before[m]) || Named(MonthSuffix(m), before[m]) in moved
    ensures forall m :: m in ahead && now <= m ==> m in after
  {
    hide MonthSuffix;
    forall m | m in ahead && m !in after ensures m < now {
      var m' :| m' in ahead && m' < cutoff && Named(MonthSuffix(m), ahead[m]) == Named(MonthSuffix(m'), ahead[m']);
      SuffixInjective(m, m');
    }
  }

  lemma SliceGrows<T>(s: seq<T>, x: T, n: nat)
    requires n <= |s|
    ensures (s + [x])[n..] == s[n..] + [x]
  {
  }

  lemma SafeHas(detached: map<string, Rows>, contents: seq<Named>, bucket: Bucket, name: string)
    requires Safe(detached, contents, bucket) && name in detached
    ensures Named(name, detached[name]) in contents && Table(detached[name])
  {
  }

  method MonthsAhead(have: set<nat>, now: nat) returns (n: nat)
    ensures forall m :: now < m <= now + n ==> m in have
    ensures now + n + 1 !in have
  {
    n := 0;
    ghost var left := have;
    while now + n + 1 in have
      invariant forall m :: now < m <= now + n ==> m in have
      invariant left == set m | m in have && !(now < m <= now + n)
      decreases left
    {
      left := left - {now + n + 1};
      n := n + 1;
    }
  }

  ghost predicate PartsWritten(bucket: Bucket, files: seq<ObjectKey>, pages: seq<Rows>, month: int) {
    && |files| == |pages|
    && forall i :: 0 <= i < |files| ==>
         files[i] == PartKey(month, i) && files[i] in bucket && (bucket[files[i]] == Part(Archived(pages[i])) || bucket[files[i]] == Garbage)
  }

  lemma {:induction false} PartsHold(bucket: Bucket, files: seq<ObjectKey>, pages: seq<Rows>, month: int)
    requires PartsWritten(bucket, files, pages, month)
    ensures PartsOf(files, month) && (AllParts(bucket, files) ==> PartRows(bucket, files) == Archived(Flatten(pages)))
  {
    hide Mapped;
    if files == [] {
      MappedConcat([], [], Archival.ExportedAudit());
    } else {
      var f, p := files[..|files| - 1], pages[..|pages| - 1];
      PartsHold(bucket, f, p, month);
      assert files == f + [files[|files| - 1]];
      MappedConcat(Flatten(p), pages[|pages| - 1], Archival.ExportedAudit());
    }
  }

  lemma PartAdded(start: Bucket, bucket: Bucket, files: seq<ObjectKey>, pages: seq<Rows>, month: int, page: Rows, blob: Blob)
    requires OnlyPartsOf(start, bucket, month) && PartsWritten(bucket, files, pages, month)
    requires blob == Part(Archived(page)) || blob == Garbage
    ensures var bucket' := bucket[PartKey(month, |files|) := blob];
            && OnlyPartsOf(start, bucket', month)
            && PartsWritten(bucket', files + [PartKey(month, |files|)], pages + [page], month)
  {
  }
}
