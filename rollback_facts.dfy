/** What rollbackMigration guarantees: which records the selection takes (the newest step
    records, or whole batches), that undoing them removes exactly those rows, that a failure
    or an empty table leaves the database as it was, that a record of an unknown migration
    blocks the rollback, and that the table invariant is kept. */
module RollbackFacts {
  import opened Base
  import opened Migration
  import opened Store
  import opened Engine
  import opened ApplyFacts

  /** The ids of the rows strictly increase (true of every table the engine writes). */
  predicate Ascending(rs: seq<MigrationRec>) {
    forall i, j :: 0 <= i < j < |rs| ==> rs[i].id < rs[j].id
  }

  // ---------------------------------------------------------------------------------------
  // The selection

  /** In step mode the selection is the newest step records, newest first, whatever the
      batch says. */
  lemma StepSelection(recs: seq<MigrationRec>, step: int, batch: int)
    requires step > 0
    ensures var sel := Selection(recs, step, batch);
      && |sel| == Min(step, |recs|)
      && forall k :: 0 <= k < |sel| ==> sel[k] == recs[|recs| - 1 - k]
  {
  }

  /** A non-empty sequence spans at least one batch. */
  lemma {:induction false} GroupsPositive(s: seq<MigrationRec>)
    requires s != []
    ensures Groups(s) >= 1
  {
    if |s| > 1 {
      GroupsPositive(s[..|s| - 1]);
    }
  }

  /** In batch mode the selection ends at a batch boundary: it spans as many batches as were
      asked for, or all of them when there are fewer, and it never stops in the middle of a
      batch. A non-empty table always yields a non-empty selection. */
  lemma BatchSelectionWholeGroups(recs: seq<MigrationRec>, batch: int)
    requires batch > 0 && recs != []
    ensures var newest := Newest(recs);
      var sel := Selection(recs, 0, batch);
      && 0 < |sel|
      && Groups(sel) == Min(batch, Groups(newest))
      && (|sel| < |newest| ==> NewBatch(newest[|sel| - 1], newest[|sel|]))
  {
    var newest := Newest(recs);
    var n := |newest|;
    var l := LongestPrefix(newest, batch, n);
    assert Groups(newest[..1]) == 1;
    assert l > 0;
    if l < n {
      GroupsStep(newest, l);
      GroupsMonotone(newest, l + 1, n);
      assert newest[..n] == newest;
    } else {
      assert newest[..n] == newest;
    }
  }

  /** The newest-first order of five records and the batches each of its prefixes spans,
      for batch numbers 1, 1, 2, 2, 3 in row order. */
  lemma FiveRecordGroups(a: MigrationRec, b: MigrationRec, c: MigrationRec, d: MigrationRec, e: MigrationRec)
    requires a.batch == 1 && b.batch == 1 && c.batch == 2 && d.batch == 2 && e.batch == 3
    ensures Newest([a, b, c, d, e]) == [e, d, c, b, a]
    ensures var s := [e, d, c, b, a];
      Groups(s[..1]) == 1 && Groups(s[..2]) == 2 && Groups(s[..3]) == 2 && Groups(s[..4]) == 3 && Groups(s[..5]) == 3
  {
    var s := [e, d, c, b, a];
    GroupsStep(s, 1);
    GroupsStep(s, 2);
    GroupsStep(s, 3);
    GroupsStep(s, 4);
    assert Groups(s[..1]) == 1;
  }

  /** Rows with batch numbers 1, 1, 2, 2, 3: one batch takes the newest row, two batches the
      three newest, three batches or more all five; a step of 2 takes the two newest rows
      whatever the batch. */
  lemma BatchExample(a: MigrationRec, b: MigrationRec, c: MigrationRec, d: MigrationRec, e: MigrationRec)
    requires a.batch == 1 && b.batch == 1 && c.batch == 2 && d.batch == 2 && e.batch == 3
    ensures Selection([a, b, c, d, e], 0, 1) == [e]
    ensures Selection([a, b, c, d, e], 0, 2) == [e, d, c]
    ensures Selection([a, b, c, d, e], 0, 3) == [e, d, c, b, a]
    ensures Selection([a, b, c, d, e], 2, 1) == [e, d]
  {
    FiveRecordGroups(a, b, c, d, e);
    var s := [e, d, c, b, a];
    assert s[..5] == s;
  }

  /** Within one budget of one batch every record has the same, positive, batch number. */
  lemma {:induction false} OneGroupOneBatch(s: seq<MigrationRec>)
    requires s != [] && Groups(s) <= 1
    requires forall k :: 0 <= k < |s| ==> s[k].batch >= 1
    ensures forall k :: 0 <= k < |s| ==> s[k].batch == s[0].batch
  {
    if |s| > 1 {
      var init := s[..|s| - 1];
      GroupsPositive(init);
      assert forall k :: 0 <= k < |init| ==> init[k] == s[k];
      OneGroupOneBatch(init);
    }
  }

  /** Rolling back with neither a step nor a batch undoes the last batch: the records taken
      are those of the newest record's batch, and the record after them, if any, belongs to
      another batch. */
  lemma DefaultRollsBackLastBatch(recs: seq<MigrationRec>)
    requires recs != [] && forall k :: 0 <= k < |recs| ==> recs[k].batch >= 1
    ensures EffectiveBatch(0, 0) == 1
    ensures var sel := Selection(recs, 0, EffectiveBatch(0, 0));
      var last := recs[|recs| - 1].batch;
      && sel != []
      && (forall k :: 0 <= k < |sel| ==> sel[k].batch == last)
      && (|sel| < |recs| ==> recs[|recs| - 1 - |sel|].batch != last)
  {
    var newest := Newest(recs);
    var sel := Selection(recs, 0, 1);
    BatchSelectionWholeGroups(recs, 1);
    assert forall k :: 0 <= k < |sel| ==> sel[k] == newest[k];
    OneGroupOneBatch(sel);
  }

  // ---------------------------------------------------------------------------------------
  // Undoing the selection

  /** Without the newest record, the k - 1 newest of the others follow it. */
  lemma NewestTail(rs: seq<MigrationRec>, k: nat)
    requires 0 < k <= |rs|
    ensures Newest(rs)[..k][1..] == Newest(rs[..|rs| - 1])[..k - 1]
  {
  }

  lemma PrefixOfInit<T>(s: seq<T>, k: nat)
    requires 0 < k <= |s|
    ensures s[..|s| - 1][..|s| - 1 - (k - 1)] == s[..|s| - k]
  {
  }

  /** The statements a rollback executes for the given records, in their order: for each
      record, the statements of its migration's rollback file. */
  function DownScript(fs: FileMap, ms: Migrations, list: seq<MigrationRec>): seq<string>
    decreases |list|
  {
    if list == [] then []
    else Statements(FileText(fs, ms.GetInfo(list[0].migration).downFilename)) + DownScript(fs, ms, list[1..])
  }

  /** One record of the loop: the statements of its rollback file are executed, they leave the
      rows alone, and the delete then removes its id. */
  lemma UndoOneRecords(t: Tables, f: Faults, fs: FileMap, ms: Migrations, rec: MigrationRec)
    requires UndoOne(t, f, fs, ms, rec).Ok?
    ensures var t1 := UndoOne(t, f, fs, ms, rec).value;
      && t1.schema == t.schema + Statements(FileText(fs, ms.GetInfo(rec.migration).downFilename))
      && t1.records == RemoveId(t.records, rec.id) && t1.nextId == t.nextId && t1.hasTable == t.hasTable
  {
    var m := LoadSQLFile(ms.GetInfo(rec.migration), fs).value;
    ExecSQLKeepsRecords(t, f, m.downSQL);
  }

  /** The rows left after deleting the ids of list, one after the other. */
  function RemoveAll(rs: seq<MigrationRec>, list: seq<MigrationRec>): seq<MigrationRec>
    decreases |list|
  {
    if list == [] then rs else RemoveAll(RemoveId(rs, list[0].id), list[1..])
  }

  /** A successful undo of a list executes the rollback files of its records in list order,
      deletes the ids of its records and touches nothing else of the bookkeeping. */
  lemma {:induction false} UndoAllRecords(t: Tables, f: Faults, fs: FileMap, ms: Migrations, list: seq<MigrationRec>)
    requires UndoAll(t, f, fs, ms, list).Ok?
    ensures var r := UndoAll(t, f, fs, ms, list).value;
      && r.schema == t.schema + DownScript(fs, ms, list)
      && r.records == RemoveAll(t.records, list) && r.nextId == t.nextId && r.hasTable == t.hasTable
    decreases |list|
  {
    if list != [] {
      UndoOneRecords(t, f, fs, ms, list[0]);
      var t1 := UndoOne(t, f, fs, ms, list[0]).value;
      UndoAllRecords(t1, f, fs, ms, list[1..]);
      SchemaStep(t, t1, UndoAll(t1, f, fs, ms, list[1..]).value,
                 Statements(FileText(fs, ms.GetInfo(list[0].migration).downFilename)), DownScript(fs, ms, list[1..]));
    }
  }

  /** Deleting the ids of the k newest records, newest first, leaves exactly the records
      before them. */
  lemma {:induction false} RemoveNewest(rs: seq<MigrationRec>, k: nat)
    requires Ascending(rs) && k <= |rs|
    ensures RemoveAll(rs, Newest(rs)[..k]) == rs[..|rs| - k]
    decreases k
  {
    var list := Newest(rs)[..k];
    if k == 0 {
      assert rs[..|rs|] == rs;
    } else {
      var rs' := rs[..|rs| - 1];
      assert list[0] == rs[|rs| - 1];
      RemoveLastId(rs);
      NewestTail(rs, k);
      RemoveNewest(rs', k - 1);
      PrefixOfInit(rs, k);
    }
  }

  /** Undoing the k newest records, newest first, executes their rollback files newest first
      and leaves exactly the records before them. */
  lemma UndoNewest(t: Tables, f: Faults, fs: FileMap, ms: Migrations, k: nat)
    requires Ascending(t.records) && k <= |t.records|
    requires UndoAll(t, f, fs, ms, Newest(t.records)[..k]).Ok?
    ensures var r := UndoAll(t, f, fs, ms, Newest(t.records)[..k]).value;
      && r.schema == t.schema + DownScript(fs, ms, Newest(t.records)[..k])
      && r.records == t.records[..|t.records| - k] && r.nextId == t.nextId && r.hasTable == t.hasTable
  {
    UndoAllRecords(t, f, fs, ms, Newest(t.records)[..k]);
    RemoveNewest(t.records, k);
  }

  /** What a rollback does to one database. It fails on an empty table; a failure leaves the
      database as it was; a success executes the rollback files of the selected records,
      newest first, removes exactly those records, the newest ones, and leaves the older
      records, the next id and the table in place. */
  lemma RollbackOnDbOutcome(t: Tables, f: Faults, fs: FileMap, ms: Migrations, step: int, batch: int)
    requires Ascending(t.records)
    ensures var o := RollbackOnDb(t, f, fs, ms, step, batch);
      && (o.err.Some? ==> o.state == t)
      && (t.hasTable && !f.readFails && t.records == [] ==> o.err == Some(NothingToRollback))
      && (o.err.None? ==>
           var sel := Selection(t.records, step, batch);
           && t.records != []
           && o.state.schema == t.schema + DownScript(fs, ms, sel)
           && o.state.records == t.records[..|t.records| - |sel|]
           && o.state.nextId == t.nextId && o.state.hasTable)
  {
    var o := RollbackOnDb(t, f, fs, ms, step, batch);
    if o.err.None? {
      var sel := Selection(t.records, step, batch);
      UndoNewest(t, f, fs, ms, |sel|);
    }
  }

  /** A rollback keeps the table invariant. */
  lemma RollbackOnDbValid(t: Tables, f: Faults, fs: FileMap, ms: Migrations, step: int, batch: int)
    requires Valid(t)
    ensures Valid(RollbackOnDb(t, f, fs, ms, step, batch).state)
  {
    RollbackOnDbOutcome(t, f, fs, ms, step, batch);
    var o := RollbackOnDb(t, f, fs, ms, step, batch);
    if o.err.None? {
      var rs := o.state.records;
      assert forall i :: 0 <= i < |rs| ==> rs[i] == t.records[i];
    }
  }

  /** A selected record whose migration is not in the directory makes the transaction fail:
      its files cannot be loaded, so nothing is undone at all. */
  lemma {:induction false} UnknownNameBlocksUndo(t: Tables, f: Faults, fs: FileMap, ms: Migrations,
                                                 list: seq<MigrationRec>, k: nat)
    requires k < |list| && list[k].migration !in ms.infos
    ensures UndoAll(t, f, fs, ms, list).Err?
    decreases |list|
  {
    if k == 0 {
      UnknownNameFailsToLoad(ms, list[0].migration, fs);
    } else if UndoOne(t, f, fs, ms, list[0]).Ok? {
      assert list[1..][k - 1] == list[k];
      UnknownNameBlocksUndo(UndoOne(t, f, fs, ms, list[0]).value, f, fs, ms, list[1..], k - 1);
    }
  }

  /** A rollback whose selection holds a record of an unknown migration fails and leaves the
      database as it was. */
  lemma UnknownNameBlocksRollback(t: Tables, f: Faults, fs: FileMap, ms: Migrations, step: int, batch: int, k: nat)
    requires k < |Selection(t.records, step, batch)|
    requires Selection(t.records, step, batch)[k].migration !in ms.infos
    ensures RollbackOnDb(t, f, fs, ms, step, batch).err.Some?
    ensures RollbackOnDb(t, f, fs, ms, step, batch).state == t
  {
    UnknownNameBlocksUndo(t, f, fs, ms, Selection(t.records, step, batch), k);
  }

  /** rollbackMigration over several databases, stated per database: every database is
      rolled back with the defaulted batch, in order, and the first failure stops the run. */
  lemma RollbackSpecOutcome(dir: string, listing: Listing, fs: FileMap, ts: seq<Tables>, fl: seq<Faults>,
                            step: int, batch: int)
    requires |ts| == |fl| && listing.Entries?
    ensures var r := RollbackSpec(dir, listing, fs, ts, fl, step, batch);
      var ms := Discover(dir, listing.entries);
      var b := EffectiveBatch(step, batch);
      && (r.err.None? ==> forall j :: 0 <= j < |ts| ==> RollbackOnDb(ts[j], fl[j], fs, ms, step, b) == Outcome(None, r.states[j]))
      && (r.err.Some? ==>
           exists k :: 0 <= k < |ts|
             && RollbackOnDb(ts[k], fl[k], fs, ms, step, b) == Outcome(r.err, r.states[k])
             && (forall j :: 0 <= j < k ==> RollbackOnDb(ts[j], fl[j], fs, ms, step, b) == Outcome(None, r.states[j]))
             && (forall j :: k < j < |ts| ==> r.states[j] == ts[j]))
  {
    SweepOutcome(RunOn(Rollback(step, EffectiveBatch(step, batch)), fs, Discover(dir, listing.entries)), ts, fl, 0);
  }

  // ---------------------------------------------------------------------------------------
  // A run and the rollback after it

  /** Records that all carry one batch number other than 0 span exactly one batch. */
  lemma {:induction false} SameBatchOneGroup(s: seq<MigrationRec>)
    requires s != [] && s[0].batch != 0
    requires forall k :: 0 <= k < |s| ==> s[k].batch == s[0].batch
    ensures Groups(s) == 1
  {
    if |s| > 1 {
      var init := s[..|s| - 1];
      assert forall k :: 0 <= k < |init| ==> init[k] == s[k];
      SameBatchOneGroup(init);
    }
  }

  /** Rows of older batches followed by the rows of one newer batch: the default rollback
      selects exactly the newer rows. */
  lemma LastBatchIsNewRows(before: seq<MigrationRec>, rows: seq<MigrationRec>, b: nat)
    requires b >= 1 && forall k :: 0 <= k < |before| ==> before[k].batch < b
    requires rows != [] && forall k :: 0 <= k < |rows| ==> rows[k].batch == b
    ensures |Selection(before + rows, 0, 1)| == |rows|
  {
    var recs := before + rows;
    var newest := Newest(recs);
    var m := |rows|;
    var top := newest[..m];
    forall k | 0 <= k < m
      ensures top[k].batch == b
    {
      assert top[k] == recs[|recs| - 1 - k] == rows[m - 1 - k];
    }
    SameBatchOneGroup(top);
    if before == [] {
      assert newest[..|newest|] == top;
    } else {
      assert newest[m] == recs[|before| - 1] == before[|before| - 1];
      GroupsStep(newest, m);
      LongestPrefixAt(newest, 1, m);
    }
  }

  /** A successful default rollback of rows of older batches followed by one newer batch
      removes exactly the newer rows. */
  lemma DefaultRollbackRemovesNewer(r: Tables, f: Faults, fs: FileMap, ms: Migrations,
                                    before: seq<MigrationRec>, rows: seq<MigrationRec>, b: nat)
    requires Ascending(r.records) && r.records == before + rows
    requires b >= 1 && forall k :: 0 <= k < |before| ==> before[k].batch < b
    requires rows != [] && forall k :: 0 <= k < |rows| ==> rows[k].batch == b
    requires RollbackOnDb(r, f, fs, ms, 0, 1).err.None?
    ensures var o := RollbackOnDb(r, f, fs, ms, 0, 1).state;
      o.records == before && o.nextId == r.nextId && o.hasTable
  {
    LastBatchIsNewRows(before, rows, b);
    RollbackOnDbOutcome(r, f, fs, ms, 0, 1);
    assert r.records[..|r.records| - |rows|] == before;
  }

  /** A run that applied at least one migration appends rows of one batch above every
      batch recorded before, and the rows stay ascending. */
  lemma RunAddsNewestBatch(t: Tables, f: Faults, fs: FileMap, ms: Migrations) returns (rows: seq<MigrationRec>, b: nat)
    requires Valid(t)
    requires ApplyOnDb(t, f, fs, ms).err.None?
    requires Pending(ms.GetNames(), Recorded(t.records)) != []
    ensures var r := ApplyOnDb(t, f, fs, ms).state;
      && Ascending(r.records) && r.records == t.records + rows && r.hasTable
      && b >= 1 && (forall k :: 0 <= k < |t.records| ==> t.records[k].batch < b)
      && rows != [] && (forall k :: 0 <= k < |rows| ==> rows[k].batch == b)
  {
    ApplyOnDbSuccess(t, f, fs, ms);
    ApplyOnDbValid(t, f, fs, ms);
    var p := Pending(ms.GetNames(), Recorded(t.records));
    b := MaxBatch(t.records) + 1;
    rows := NewRows(t.nextId, p, b);
    MaxBatchBound(t.records);
  }

  /** A run that applied at least one migration, followed by a rollback with neither a step
      nor a batch, gives back exactly the rows there were before the run: the rollback undoes
      that run's batch and nothing older. */
  lemma RunThenDefaultRollback(t: Tables, f: Faults, fs: FileMap, ms: Migrations)
    requires Valid(t)
    requires ApplyOnDb(t, f, fs, ms).err.None?
    requires Pending(ms.GetNames(), Recorded(t.records)) != []
    requires RollbackOnDb(ApplyOnDb(t, f, fs, ms).state, f, fs, ms, 0, EffectiveBatch(0, 0)).err.None?
    ensures var r := ApplyOnDb(t, f, fs, ms).state;
      var o := RollbackOnDb(r, f, fs, ms, 0, EffectiveBatch(0, 0)).state;
      o.records == t.records && o.nextId == r.nextId && o.hasTable
  {
    var rows, b := RunAddsNewestBatch(t, f, fs, ms);
    DefaultRollbackRemovesNewer(ApplyOnDb(t, f, fs, ms).state, f, fs, ms, t.records, rows, b);
  }
}
