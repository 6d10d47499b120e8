/** What runMigration guarantees about one database and about the run over all of them:
    the rows it adds, that a second run has nothing to do, that a failure leaves the
    bookkeeping as it was, that the table invariant is kept, and how the first failing
    database stops the run. */
module ApplyFacts {
  import opened Base
  import opened Migration
  import opened Store
  import opened Engine

  /** The names of a run that are not recorded yet, in the order of the run. */
  function Pending(names: seq<string>, recorded: set<string>): seq<string>
    decreases |names|
  {
    if names == [] then []
    else (if names[0] in recorded then [] else [names[0]]) + Pending(names[1..], recorded)
  }

  /** The pending names are the names of the run that are not recorded. */
  lemma {:induction false} PendingMembers(names: seq<string>, recorded: set<string>)
    ensures forall x :: x in Pending(names, recorded) <==> x in names && x !in recorded
    decreases |names|
  {
    if names != [] {
      PendingMembers(names[1..], recorded);
      assert forall x :: x in names <==> x == names[0] || x in names[1..];
    }
  }

  /** The rows inserted for the given names, one by one, starting at the id given. */
  function NewRows(id: nat, names: seq<string>, batch: nat): seq<MigrationRec> {
    seq(|names|, k requires 0 <= k < |names| => MigrationRec(id + k, names[k], batch))
  }

  /** The text of a readable file; "" for any other path. */
  function FileText(fs: FileMap, path: string): string {
    if path in fs then fs[path] else ""
  }

  /** The statements a run executes for the given names, in their order: for each name, the
      statements of its up file. */
  function UpScript(fs: FileMap, ms: Migrations, names: seq<string>): seq<string>
    decreases |names|
  {
    if names == [] then []
    else Statements(FileText(fs, ms.GetInfo(names[0]).upFilename)) + UpScript(fs, ms, names[1..])
  }

  /** The first name of a run, unless it is skipped, contributes its statements in front of
      those of the others. */
  lemma UpScriptStep(fs: FileMap, ms: Migrations, first: string, skip: bool, p1: seq<string>)
    ensures UpScript(fs, ms, (if skip then [] else [first]) + p1)
      == (if skip then [] else Statements(FileText(fs, ms.GetInfo(first).upFilename))) + UpScript(fs, ms, p1)
  {
    var p := (if skip then [] else [first]) + p1;
    if skip {
      assert p == p1;
    } else {
      assert p[0] == first && p[1..] == p1;
    }
  }

  /** Statements executed in two steps are the statements of both, in order. */
  lemma SchemaStep(t: Tables, t1: Tables, r: Tables, first: seq<string>, rest: seq<string>)
    requires t1.schema == t.schema + first && r.schema == t1.schema + rest
    ensures r.schema == t.schema + (first + rest)
  {
  }

  lemma NewRowsCons(id: nat, name: string, names: seq<string>, batch: nat)
    ensures NewRows(id, [name] + names, batch) == [MigrationRec(id, name, batch)] + NewRows(id + 1, names, batch)
  {
    var a := NewRows(id, [name] + names, batch);
    var b := [MigrationRec(id, name, batch)] + NewRows(id + 1, names, batch);
    forall k | 0 <= k < |a| ensures a[k] == b[k] {
      if k > 0 {
        assert b[k] == NewRows(id + 1, names, batch)[k - 1];
      }
    }
  }

  /** The first name of a run adds its row, if it is not skipped, in front of the rows of
      the others. */
  lemma RowsStep(t: Tables, t1: Tables, r: Tables, first: string, skip: bool, p1: seq<string>, batch: nat)
    requires skip ==> t1 == t
    requires !skip ==>
      && t1.records == t.records + [MigrationRec(t.nextId, first, batch)]
      && t1.nextId == t.nextId + 1 && t1.hasTable == t.hasTable
    requires r.records == t1.records + NewRows(t1.nextId, p1, batch) && r.nextId == t1.nextId + |p1| && r.hasTable == t1.hasTable
    ensures var p := (if skip then [] else [first]) + p1;
      r.records == t.records + NewRows(t.nextId, p, batch) && r.nextId == t.nextId + |p| && r.hasTable == t.hasTable
  {
    if !skip {
      var row := MigrationRec(t.nextId, first, batch);
      NewRowsCons(t.nextId, first, p1, batch);
      assert t.records + [row] + NewRows(t.nextId + 1, p1, batch)
          == t.records + ([row] + NewRows(t.nextId + 1, p1, batch));
    } else {
      assert [] + p1 == p1;
    }
  }

  /** One name of the loop: a recorded name changes nothing; any other executes the
      statements of its up file, which leave the rows alone, and then adds one row with the
      next id. */
  lemma ApplyOneRecords(t: Tables, f: Faults, fs: FileMap, ms: Migrations, recorded: set<string>,
                        batch: nat, name: string)
    requires ApplyOne(t, f, fs, ms, recorded, batch, name).Ok?
    ensures var t1 := ApplyOne(t, f, fs, ms, recorded, batch, name).value;
      && (name in recorded ==> t1 == t)
      && (name !in recorded ==>
           && t1.schema == t.schema + Statements(FileText(fs, ms.GetInfo(name).upFilename))
           && t1.records == t.records + [MigrationRec(t.nextId, name, batch)]
           && t1.nextId == t.nextId + 1
           && t1.hasTable == t.hasTable)
  {
    if name !in recorded {
      var m := LoadSQLFile(ms.GetInfo(name), fs).value;
      ExecSQLKeepsRecords(t, f, m.upSQL);
    }
  }

  /** A successful transaction body executes the up files of the pending names, in the order
      of the names, and appends one row per pending name, in the same order, with
      consecutive ids from the next id and the batch of the run; the rows that were there
      stay as they were. */
  lemma {:induction false} ApplyAllRecords(t: Tables, f: Faults, fs: FileMap, ms: Migrations,
                                           recorded: set<string>, batch: nat, names: seq<string>)
    requires ApplyAll(t, f, fs, ms, recorded, batch, names).Ok?
    ensures var r := ApplyAll(t, f, fs, ms, recorded, batch, names).value;
      var p := Pending(names, recorded);
      && r.schema == t.schema + UpScript(fs, ms, p)
      && r.records == t.records + NewRows(t.nextId, p, batch)
      && r.nextId == t.nextId + |p|
      && r.hasTable == t.hasTable
    decreases |names|
  {
    if names != [] {
      ApplyOneRecords(t, f, fs, ms, recorded, batch, names[0]);
      var t1 := ApplyOne(t, f, fs, ms, recorded, batch, names[0]).value;
      ApplyAllRecords(t1, f, fs, ms, recorded, batch, names[1..]);
      assert Pending(names, recorded) == (if names[0] in recorded then [] else [names[0]]) + Pending(names[1..], recorded);
      var r := ApplyAll(t1, f, fs, ms, recorded, batch, names[1..]).value;
      var skip := names[0] in recorded;
      RowsStep(t, t1, r, names[0], skip, Pending(names[1..], recorded), batch);
      UpScriptStep(fs, ms, names[0], skip, Pending(names[1..], recorded));
      SchemaStep(t, t1, r, if skip then [] else Statements(FileText(fs, ms.GetInfo(names[0]).upFilename)),
                 UpScript(fs, ms, Pending(names[1..], recorded)));
    }
  }

  /** When every name is recorded, the transaction body does nothing. */
  lemma {:induction false} ApplyAllNothingPending(t: Tables, f: Faults, fs: FileMap, ms: Migrations,
                                                  recorded: set<string>, batch: nat, names: seq<string>)
    requires forall k :: 0 <= k < |names| ==> names[k] in recorded
    ensures ApplyAll(t, f, fs, ms, recorded, batch, names) == Ok(t)
    decreases |names|
  {
    if names != [] {
      ApplyAllNothingPending(t, f, fs, ms, recorded, batch, names[1..]);
    }
  }

  /** What a successful run does to one database: the table exists, the up files of the
      migrations not recorded before have been executed in the order of discovery, and the
      rows gain, in the same order, one row for each of them, all with the batch one above
      the largest recorded batch, with consecutive fresh ids. */
  lemma ApplyOnDbSuccess(t: Tables, f: Faults, fs: FileMap, ms: Migrations)
    requires ApplyOnDb(t, f, fs, ms).err.None?
    ensures var r := ApplyOnDb(t, f, fs, ms).state;
      var p := Pending(ms.GetNames(), Recorded(t.records));
      && r.hasTable
      && r.schema == t.schema + UpScript(fs, ms, p)
      && r.records == t.records + NewRows(t.nextId, p, MaxBatch(t.records) + 1)
      && r.nextId == t.nextId + |p|
  {
    var e := EnsureTable(t, f).state;
    ApplyAllRecords(e, f, fs, ms, Recorded(t.records), MaxBatch(t.records) + 1, ms.GetNames());
  }

  /** A failed run leaves the rows, the ids and the schema of the database as they were; at
      most the (empty) migrations table has been created. */
  lemma ApplyOnDbFailure(t: Tables, f: Faults, fs: FileMap, ms: Migrations)
    requires ApplyOnDb(t, f, fs, ms).err.Some?
    ensures var r := ApplyOnDb(t, f, fs, ms).state;
      r == t || r == t.(hasTable := true)
  {
  }

  /** A failed table check or a failed read of the records stops the run on that database
      before any transaction is opened: no migration runs and no row changes. */
  lemma ApplyOnDbEarlyFailure(t: Tables, f: Faults, fs: FileMap, ms: Migrations)
    requires EnsureTable(t, f).err.Some? || ReadRecords(EnsureTable(t, f).state, f).Err?
    ensures var e := EnsureTable(t, f);
      e.err.Some? ==> ApplyOnDb(t, f, fs, ms) == Outcome(Some(CheckTableError(e.err.value)), t)
    ensures var e := EnsureTable(t, f);
      e.err.None? ==> ApplyOnDb(t, f, fs, ms) == Outcome(Some(GetInfosError(QueryFailed)), t.(hasTable := true))
  {
  }

  /** After a successful run every name of the directory is recorded. */
  lemma AllRecordedAfterRun(t: Tables, f: Faults, fs: FileMap, ms: Migrations)
    requires ApplyOnDb(t, f, fs, ms).err.None?
    ensures forall n :: n in ms.GetNames() ==> n in Recorded(ApplyOnDb(t, f, fs, ms).state.records)
  {
    ApplyOnDbSuccess(t, f, fs, ms);
    RecordedAfterAppend(t.records, ms.GetNames(), t.nextId, MaxBatch(t.records) + 1);
  }

  /** Appending the rows of the pending names leaves every name recorded. */
  lemma RecordedAfterAppend(rs: seq<MigrationRec>, names: seq<string>, id: nat, batch: nat)
    ensures var rs' := rs + NewRows(id, Pending(names, Recorded(rs)), batch);
      forall n :: n in names ==> n in Recorded(rs')
  {
    var p := Pending(names, Recorded(rs));
    var rows := NewRows(id, p, batch);
    var rs' := rs + rows;
    PendingMembers(names, Recorded(rs));
    RecordedMembers(rs);
    RecordedMembers(rs');
    forall n | n in names ensures n in Recorded(rs') {
      if n in Recorded(rs) {
        var k :| 0 <= k < |rs| && rs[k].migration == n;
        assert rs'[k] == rs[k];
      } else {
        var k :| 0 <= k < |p| && p[k] == n;
        assert rs'[|rs| + k] == rows[k];
      }
    }
  }

  /** A database whose table exists and records every name: the run does nothing. */
  lemma NothingToApply(t: Tables, f: Faults, fs: FileMap, ms: Migrations)
    requires t.hasTable && !f.tableQueryFails && !f.readFails && !f.beginFails && !f.commitFails
    requires forall n :: n in ms.GetNames() ==> n in Recorded(t.records)
    ensures ApplyOnDb(t, f, fs, ms) == Outcome(None, t)
  {
    assert EnsureTable(t, f) == Outcome(None, t);
    ApplyAllNothingPending(t, f, fs, ms, Recorded(t.records), MaxBatch(t.records) + 1, ms.GetNames());
  }

  /** Running again right after a successful run succeeds and changes nothing: every
      migration is recorded, so no SQL is executed and no row is added. */
  lemma SecondRunChangesNothing(t: Tables, f: Faults, fs: FileMap, ms: Migrations)
    requires ApplyOnDb(t, f, fs, ms).err.None?
    ensures var r := ApplyOnDb(t, f, fs, ms).state;
      ApplyOnDb(r, f, fs, ms) == Outcome(None, r)
  {
    ApplyOnDbSuccess(t, f, fs, ms);
    AllRecordedAfterRun(t, f, fs, ms);
    NothingToApply(ApplyOnDb(t, f, fs, ms).state, f, fs, ms);
  }

  /** A successful run keeps the table invariant. */
  lemma ApplyOnDbValid(t: Tables, f: Faults, fs: FileMap, ms: Migrations)
    requires Valid(t)
    ensures Valid(ApplyOnDb(t, f, fs, ms).state)
  {
    var o := ApplyOnDb(t, f, fs, ms);
    if o.err.None? {
      ApplyOnDbSuccess(t, f, fs, ms);
      var p := Pending(ms.GetNames(), Recorded(t.records));
      AppendRowsValid(t, o.state, p, MaxBatch(t.records) + 1);
    } else {
      ApplyOnDbFailure(t, f, fs, ms);
    }
  }

  /** Fresh rows with ids from the next id and a positive batch keep the invariant. */
  lemma AppendRowsValid(t: Tables, r: Tables, p: seq<string>, batch: nat)
    requires Valid(t) && batch >= 1
    requires r.hasTable && r.records == t.records + NewRows(t.nextId, p, batch) && r.nextId == t.nextId + |p|
    ensures Valid(r)
  {
    var rows := NewRows(t.nextId, p, batch);
    var rs := r.records;
    var n := |t.records|;
    assert forall i :: 0 <= i < |rs| ==> rs[i] == if i < n then t.records[i] else rows[i - n];
    forall i, j | 0 <= i < j < |rs| ensures rs[i].id < rs[j].id {
      if j < n {
        assert rs[i].id < rs[j].id;
      }
    }
  }

  // ---------------------------------------------------------------------------------------
  // The run over every database

  /** The run over the databases from the i-th on: the ones before i are left alone; when it
      succeeds, every database got the outcome of its own run from its own state; when it
      fails, the error is that of the first database whose run failed, every database before
      it got its successful outcome, and no database after it was touched. */
  lemma {:induction false} SweepOutcome(run: (Tables, Faults) -> Outcome, ts: seq<Tables>, fl: seq<Faults>, i: nat)
    requires i <= |ts| == |fl|
    ensures var r := Sweep(run, ts, fl, i);
      && (forall j :: 0 <= j < i ==> r.states[j] == ts[j])
      && (r.err.None? ==> forall j :: i <= j < |ts| ==> run(ts[j], fl[j]) == Outcome(None, r.states[j]))
      && (r.err.Some? ==>
           exists k :: i <= k < |ts|
             && run(ts[k], fl[k]) == Outcome(r.err, r.states[k])
             && (forall j :: i <= j < k ==> run(ts[j], fl[j]) == Outcome(None, r.states[j]))
             && (forall j :: k < j < |ts| ==> r.states[j] == ts[j]))
    decreases |ts| - i
  {
    if i < |ts| {
      var o := run(ts[i], fl[i]);
      var ts' := ts[i := o.state];
      if o.err.None? {
        SweepOutcome(run, ts', fl, i + 1);
        var r := Sweep(run, ts', fl, i + 1);
        assert r.states[i] == o.state;
        if r.err.Some? {
          var k :| i + 1 <= k < |ts| && run(ts'[k], fl[k]) == Outcome(r.err, r.states[k])
            && (forall j :: i + 1 <= j < k ==> run(ts'[j], fl[j]) == Outcome(None, r.states[j]))
            && (forall j :: k < j < |ts| ==> r.states[j] == ts'[j]);
          assert run(ts[k], fl[k]) == Outcome(r.err, r.states[k]);
        }
      } else {
        assert run(ts[i], fl[i]) == Outcome(o.err, ts'[i]);
      }
    }
  }

  /** runMigration over several databases, stated per database. */
  lemma RunSpecOutcome(dir: string, listing: Listing, fs: FileMap, ts: seq<Tables>, fl: seq<Faults>)
    requires |ts| == |fl| && listing.Entries?
    ensures var r := RunSpec(dir, listing, fs, ts, fl);
      var ms := Discover(dir, listing.entries);
      && (r.err.None? ==> forall j :: 0 <= j < |ts| ==> ApplyOnDb(ts[j], fl[j], fs, ms) == Outcome(None, r.states[j]))
      && (r.err.Some? ==>
           exists k :: 0 <= k < |ts|
             && ApplyOnDb(ts[k], fl[k], fs, ms) == Outcome(r.err, r.states[k])
             && (forall j :: 0 <= j < k ==> ApplyOnDb(ts[j], fl[j], fs, ms) == Outcome(None, r.states[j]))
             && (forall j :: k < j < |ts| ==> r.states[j] == ts[j]))
  {
    SweepOutcome(RunOn(Apply, fs, Discover(dir, listing.entries)), ts, fl, 0);
  }

  /** A directory that cannot be read stops the run before any database is touched. */
  lemma UnreadableDirTouchesNothing(dir: string, listing: Listing, fs: FileMap, ts: seq<Tables>,
                                    fl: seq<Faults>, step: int, batch: int)
    requires |ts| == |fl| && !listing.Entries?
    ensures RunSpec(dir, listing, fs, ts, fl) == FanOut(Some(ReadDirFailed(dir)), ts)
    ensures RollbackSpec(dir, listing, fs, ts, fl, step, batch) == FanOut(Some(ReadDirFailed(dir)), ts)
  {
  }
}
