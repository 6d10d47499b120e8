/** The migration engine (action.go): applying the pending migrations to every configured
    database, each database in one transaction, and rolling back the newest records by step
    count or by batch. Every operation is a function on database states (the specification)
    and a method over Database objects proved to agree with it. */
module Engine {
  import opened Base
  import opened Text
  import opened Migration
  import opened Store

  // ---------------------------------------------------------------------------------------
  // Applying migrations

  /** The names recorded in the migrations table (recMap in runMigration). */
  function Recorded(rs: seq<MigrationRec>): set<string>
  {
    if rs == [] then {} else Recorded(rs[..|rs| - 1]) + {rs[|rs| - 1].migration}
  }

  /** A name is recorded exactly when some row carries it. */
  lemma {:induction false} RecordedMembers(rs: seq<MigrationRec>)
    ensures forall x :: x in Recorded(rs) <==> exists k :: 0 <= k < |rs| && rs[k].migration == x
  {
    if rs != [] {
      var init := rs[..|rs| - 1];
      RecordedMembers(init);
      assert forall k :: 0 <= k < |rs| - 1 ==> rs[k] == init[k];
    }
  }

  /** The largest batch number recorded, 0 for an empty table. */
  function MaxBatch(rs: seq<MigrationRec>): nat
  {
    if rs == [] then 0
    else
      var m := MaxBatch(rs[..|rs| - 1]);
      if rs[|rs| - 1].batch > m then rs[|rs| - 1].batch else m
  }

  /** MaxBatch bounds every batch, is attained by some row, and is 0 only for no rows or
      rows of batch 0. */
  lemma {:induction false} MaxBatchBound(rs: seq<MigrationRec>)
    ensures forall k :: 0 <= k < |rs| ==> rs[k].batch <= MaxBatch(rs)
    ensures rs == [] ==> MaxBatch(rs) == 0
    ensures rs != [] ==> exists k :: 0 <= k < |rs| && rs[k].batch == MaxBatch(rs)
  {
    if rs != [] {
      var init := rs[..|rs| - 1];
      MaxBatchBound(init);
      assert forall k :: 0 <= k < |rs| - 1 ==> rs[k] == init[k];
    }
  }

  /** One name of the loop in runMigration's transaction: skip a recorded name; otherwise
      load both files, execute the up SQL, and record the name with this run's batch. */
  function ApplyOne(t: Tables, f: Faults, fs: FileMap, ms: Migrations, recorded: set<string>,
                    batch: nat, name: string): Result<Tables>
  {
    if name in recorded then Ok(t)
    else
      var m :- LoadSQLFile(ms.GetInfo(name), fs);
      var t1 :- ExecSQL(t, f, m.upSQL);
      Insert(t1, f, name, batch)
  }

  /** The whole body of runMigration's transaction, stopping at the first error. */
  function ApplyAll(t: Tables, f: Faults, fs: FileMap, ms: Migrations, recorded: set<string>,
                    batch: nat, names: seq<string>): Result<Tables>
    decreases |names|
  {
    if names == [] then Ok(t)
    else
      var t1 :- ApplyOne(t, f, fs, ms, recorded, batch, names[0]);
      ApplyAll(t1, f, fs, ms, recorded, batch, names[1..])
  }

  // ---------------------------------------------------------------------------------------
  // Rolling back

  /** The records from the newest to the oldest (the loop of rollbackMigration counts down). */
  function Newest(rs: seq<MigrationRec>): (r: seq<MigrationRec>)
    ensures |r| == |rs|
    ensures forall k :: 0 <= k < |rs| ==> r[k] == rs[|rs| - 1 - k]
  {
    seq(|rs|, k requires 0 <= k < |rs| => rs[|rs| - 1 - k])
  }

  /** Whether a record starts a new batch after the record before it: its batch number
      differs. Batch 0, which the engine never writes, is the selection loop's "no batch seen
      yet", so a record after one with batch 0 continues its run. */
  predicate NewBatch(prev: MigrationRec, next: MigrationRec) {
    prev.batch != 0 && next.batch != prev.batch
  }

  /** The number of runs of equal batch numbers in s (the batches s spans). */
  function Groups(s: seq<MigrationRec>): nat
  {
    if |s| <= 1 then |s|
    else Groups(s[..|s| - 1]) + (if NewBatch(s[|s| - 2], s[|s| - 1]) then 1 else 0)
  }

  /** The longest prefix of s[..n] that spans at most b batches. */
  function LongestPrefix(s: seq<MigrationRec>, b: nat, n: nat): (r: nat)
    requires n <= |s|
    ensures r <= n && Groups(s[..r]) <= b
    ensures forall m :: r < m <= n ==> Groups(s[..m]) > b
    decreases n
  {
    if n == 0 || Groups(s[..n]) <= b then n else LongestPrefix(s, b, n - 1)
  }

  function Min(a: int, b: int): int { if a <= b then a else b }

  /** The records a rollback removes, newest first: with a positive step, the newest step
      records (all of them when there are fewer); otherwise, with a positive batch, the
      newest records spanning at most that many batches; otherwise none. */
  function Selection(recs: seq<MigrationRec>, step: int, batch: int): (r: seq<MigrationRec>)
    ensures |r| <= |recs| && r == Newest(recs)[..|r|]
  {
    var newest := Newest(recs);
    if step > 0 then newest[..Min(step, |recs|)]
    else if batch > 0 then newest[..LongestPrefix(newest, batch, |newest|)]
    else []
  }

  /** The batch the rollback uses: with neither a step nor a batch, the last batch. */
  function EffectiveBatch(step: int, batch: int): int {
    if step == 0 && batch == 0 then 1 else batch
  }

  /** One record of the loop in rollbackMigration's transaction: load the files of its
      migration, execute the down SQL, and delete the record by id. */
  function UndoOne(t: Tables, f: Faults, fs: FileMap, ms: Migrations, rec: MigrationRec): Result<Tables>
  {
    var m :- LoadSQLFile(ms.GetInfo(rec.migration), fs);
    var t1 :- ExecSQL(t, f, m.downSQL);
    Delete(t1, f, rec.id)
  }

  function UndoAll(t: Tables, f: Faults, fs: FileMap, ms: Migrations, list: seq<MigrationRec>): Result<Tables>
    decreases |list|
  {
    if list == [] then Ok(t)
    else
      var t1 :- UndoOne(t, f, fs, ms, list[0]);
      UndoAll(t1, f, fs, ms, list[1..])
  }

  // ---------------------------------------------------------------------------------------
  // Transactions and databases

  /** DoTransaction: begin, run the body on a working copy, commit. The committed state is
      the body's result when everything succeeds; on any error it is what it was. */
  function Transaction(t: Tables, f: Faults, body: Result<Tables>): (r: Outcome)
    ensures r.err.None? <==> !f.beginFails && body.Ok? && !f.commitFails
    ensures r.err.None? ==> r.state == body.value
    ensures r.err.Some? ==> r.state == t
    ensures f.beginFails ==> r.err == Some(BeginFailed)
    ensures !f.beginFails && body.Err? ==> r.err == Some(body.error)
  {
    if f.beginFails then Outcome(Some(BeginFailed), t)
    else if body.Err? then Outcome(Some(body.error), t)
    else if f.commitFails then Outcome(Some(CommitFailed), t)
    else Outcome(None, body.value)
  }

  /** The two bodies the engine passes to DoTransaction. */
  datatype TxBody =
    | ApplyBody(fs: FileMap, ms: Migrations, recorded: set<string>, batch: nat)
    | UndoBody(fs: FileMap, ms: Migrations, list: seq<MigrationRec>)

  function BodyResult(t: Tables, f: Faults, body: TxBody): Result<Tables> {
    match body
    case ApplyBody(fs, ms, recorded, batch) => ApplyAll(t, f, fs, ms, recorded, batch, ms.GetNames())
    case UndoBody(fs, ms, list) => UndoAll(t, f, fs, ms, list)
  }

  /** The loop body of runMigration for one database: make sure the table exists, read the
      records, and apply the pending migrations in one transaction with the next batch. */
  function ApplyOnDb(t: Tables, f: Faults, fs: FileMap, ms: Migrations): Outcome {
    var e := EnsureTable(t, f);
    if e.err.Some? then Outcome(Some(CheckTableError(e.err.value)), e.state)
    else
      match ReadRecords(e.state, f)
      case Err(x) => Outcome(Some(GetInfosError(x)), e.state)
      case Ok(recs) =>
        var body := ApplyBody(fs, ms, Recorded(recs), MaxBatch(recs) + 1);
        Transaction(e.state, f, BodyResult(e.state, f, body))
  }

  /** The loop body of rollbackMigration for one database: read the records (an empty
      table is an error), select, and undo the selection in one transaction. */
  function RollbackOnDb(t: Tables, f: Faults, fs: FileMap, ms: Migrations, step: int, batch: int): Outcome {
    match ReadRecords(t, f)
    case Err(x) => Outcome(Some(x), t)
    case Ok(recs) =>
      if recs == [] then Outcome(Some(NothingToRollback), t)
      else Transaction(t, f, BodyResult(t, f, UndoBody(fs, ms, Selection(recs, step, batch))))
  }

  /** What is done to each database in turn. */
  datatype Action = Apply | Rollback(step: int, batch: int)

  function OnDb(a: Action, t: Tables, f: Faults, fs: FileMap, ms: Migrations): Outcome {
    match a
    case Apply => ApplyOnDb(t, f, fs, ms)
    case Rollback(step, batch) => RollbackOnDb(t, f, fs, ms, step, batch)
  }

  /** The error of a run over several databases and the state each is left in. */
  datatype FanOut = FanOut(err: Option<Error>, states: seq<Tables>)

  /** The run on one database, as a function of its state and its failure oracle. */
  function RunOn(a: Action, fs: FileMap, ms: Migrations): (Tables, Faults) -> Outcome {
    (t: Tables, f: Faults) => OnDb(a, t, f, fs, ms)
  }

  /** The databases from the i-th on are handled in order and the first error stops the
      run: the databases after it are not touched. */
  function Sweep(run: (Tables, Faults) -> Outcome, ts: seq<Tables>, fl: seq<Faults>, i: nat): (r: FanOut)
    requires i <= |ts| == |fl|
    ensures |r.states| == |ts|
    decreases |ts| - i
  {
    if i == |ts| then FanOut(None, ts)
    else
      var o := run(ts[i], fl[i]);
      if o.err.Some? then FanOut(o.err, ts[i := o.state])
      else Sweep(run, ts[i := o.state], fl, i + 1)
  }

  /** runMigration: load the migrations, then apply them to every database. */
  function RunSpec(dir: string, listing: Listing, fs: FileMap, ts: seq<Tables>, fl: seq<Faults>): (r: FanOut)
    requires |ts| == |fl|
    ensures |r.states| == |ts|
  {
    if !listing.Entries? then FanOut(Some(ReadDirFailed(dir)), ts)
    else Sweep(RunOn(Apply, fs, Discover(dir, listing.entries)), ts, fl, 0)
  }

  /** rollbackMigration: load the migrations, default the batch, roll back every database. */
  function RollbackSpec(dir: string, listing: Listing, fs: FileMap, ts: seq<Tables>, fl: seq<Faults>,
                        step: int, batch: int): (r: FanOut)
    requires |ts| == |fl|
    ensures |r.states| == |ts|
  {
    if !listing.Entries? then FanOut(Some(ReadDirFailed(dir)), ts)
    else Sweep(RunOn(Rollback(step, EffectiveBatch(step, batch)), fs, Discover(dir, listing.entries)), ts, fl, 0)
  }

  // ---------------------------------------------------------------------------------------
  // Methods

  /** An error and a working copy agree with a Result. */
  predicate Agrees(err: Option<Error>, work: Tables, r: Result<Tables>) {
    && (err.None? <==> r.Ok?)
    && (r.Ok? ==> work == r.value)
    && (r.Err? ==> err == Some(r.error))
  }

  /** The closure runMigration passes to DoTransaction. */
  method ApplyMigrations(tx: Tx, fs: FileMap, ms: Migrations, recorded: set<string>, batch: nat)
    returns (err: Option<Error>)
    modifies tx
    ensures Agrees(err, tx.work, ApplyAll(old(tx.work), tx.faults, fs, ms, recorded, batch, ms.GetNames()))
  {
    var names := ms.GetNames();
    ghost var goal := ApplyAll(tx.work, tx.faults, fs, ms, recorded, batch, names);
    assert names[0..] == names;
    for idx := 0 to |names|
      invariant goal == ApplyAll(tx.work, tx.faults, fs, ms, recorded, batch, names[idx..])
    {
      assert names[idx..][0] == names[idx] && names[idx..][1..] == names[idx + 1..];
      var name := names[idx];
      if name in recorded {
        continue;
      }
      var loaded := LoadSQLFile(ms.GetInfo(name), fs);
      if loaded.Err? {
        return Some(loaded.error);
      }
      ghost var before := tx.work;
      err := tx.ExecMigration(loaded.value.upSQL);
      if err.Some? {
        return;
      }
      err := tx.InsertMigrationInfo(name, batch);
      if err.Some? {
        return;
      }
      assert tx.work == ApplyOne(before, tx.faults, fs, ms, recorded, batch, name).value;
    }
    assert names[|names|..] == [];
    return None;
  }

  /** The closure rollbackMigration passes to DoTransaction. */
  method UndoMigrations(tx: Tx, fs: FileMap, ms: Migrations, list: seq<MigrationRec>)
    returns (err: Option<Error>)
    modifies tx
    ensures Agrees(err, tx.work, UndoAll(old(tx.work), tx.faults, fs, ms, list))
  {
    ghost var goal := UndoAll(tx.work, tx.faults, fs, ms, list);
    assert list[0..] == list;
    for idx := 0 to |list|
      invariant goal == UndoAll(tx.work, tx.faults, fs, ms, list[idx..])
    {
      assert list[idx..][0] == list[idx] && list[idx..][1..] == list[idx + 1..];
      var migrRec := list[idx];
      var loaded := LoadSQLFile(ms.GetInfo(migrRec.migration), fs);
      if loaded.Err? {
        return Some(loaded.error);
      }
      ghost var before := tx.work;
      err := tx.ExecMigration(loaded.value.GetDownSQL());
      if err.Some? {
        return;
      }
      err := tx.DeleteMigrationInfo(migrRec.id);
      if err.Some? {
        return;
      }
      assert tx.work == UndoOne(before, tx.faults, fs, ms, migrRec).value;
    }
    assert list[|list|..] == [];
    return None;
  }

  method RunBody(tx: Tx, body: TxBody) returns (err: Option<Error>)
    modifies tx
    ensures Agrees(err, tx.work, BodyResult(old(tx.work), tx.faults, body))
  {
    match body
    case ApplyBody(fs, ms, recorded, batch) =>
      err := ApplyMigrations(tx, fs, ms, recorded, batch);
    case UndoBody(fs, ms, list) =>
      err := UndoMigrations(tx, fs, ms, list);
  }

  /** DoTransaction: a failed body drops the working copy (tx.Rollback). */
  method DoTransaction(db: Database, body: TxBody) returns (err: Option<Error>)
    modifies db
    ensures Outcome(err, db.state) == Transaction(old(db.state), db.faults, BodyResult(old(db.state), db.faults, body))
  {
    var begun := db.Begin();
    if begun.Err? {
      return Some(begun.error);
    }
    var tx := begun.value;
    err := RunBody(tx, body);
    if err.Some? {
      return;
    }
    err := db.Commit(tx);
  }

  /** The loop body of runMigration for one database. */
  method ApplyToDatabase(db: Database, fs: FileMap, ms: Migrations) returns (err: Option<Error>)
    modifies db
    ensures Outcome(err, db.state) == ApplyOnDb(old(db.state), db.faults, fs, ms)
  {
    var checkErr := db.CheckMigrationInfoTable();
    if checkErr.Some? {
      return Some(CheckTableError(checkErr.value));
    }
    var read := db.GetMigrationInfos();
    if read.Err? {
      return Some(GetInfosError(read.error));
    }
    var maxBatch, recMap := ScanRecords(read.value);
    ghost var e := EnsureTable(old(db.state), db.faults);
    assert e == Outcome(None, db.state);
    assert ReadRecords(e.state, db.faults) == read;
    err := DoTransaction(db, ApplyBody(fs, ms, recMap, maxBatch + 1));
  }

  /** The pass of runMigration over the records: the largest batch and the recorded names. */
  method ScanRecords(recs: seq<MigrationRec>) returns (maxBatch: nat, recMap: set<string>)
    ensures maxBatch == MaxBatch(recs) && recMap == Recorded(recs)
  {
    maxBatch, recMap := 0, {};
    for k := 0 to |recs|
      invariant maxBatch == MaxBatch(recs[..k]) && recMap == Recorded(recs[..k])
    {
      assert recs[..k + 1][..k] == recs[..k];
      if recs[k].batch > maxBatch {
        maxBatch := recs[k].batch;
      }
      recMap := recMap + {recs[k].migration};
    }
    assert recs[..|recs|] == recs;
  }

  /** The selection loop of rollbackMigration, as written: count down from the newest
      record; in step mode take records until the step count is used up; in batch mode
      count a batch each time the batch number changes and stop when the count is used up. */
  method SelectForRollback(recs: seq<MigrationRec>, step: int, batch: int) returns (list: seq<MigrationRec>)
    ensures list == Selection(recs, step, batch)
  {
    var remainStep := 0;
    var byStep := false;
    if step > 0 {
      remainStep := step;
      byStep := true;
    }
    var remainBatch := 0;
    var lastBatch: nat := 0;
    var byBatch := false;
    if batch > 0 {
      remainBatch := batch;
      byBatch := true;
    }
    list := [];
    ghost var newest := Newest(recs);
    ghost var n := |recs|;
    var i := |recs| - 1;
    while i >= 0
      invariant -1 <= i < n
      invariant byStep ==> remainStep >= 0 && remainStep == step - (n - 1 - i)
      invariant (byStep || byBatch) ==> list == newest[..n - 1 - i]
      invariant !byStep && byBatch && i == n - 1 ==> lastBatch == 0 && remainBatch == batch
      invariant !byStep && byBatch && i < n - 1 ==>
        && lastBatch == newest[n - 2 - i].batch
        && Groups(newest[..n - 1 - i]) <= batch
        && remainBatch + Groups(newest[..n - 1 - i]) == batch + 1
      invariant !byStep && !byBatch ==> list == []
      decreases i + 1
    {
      ghost var k := n - 1 - i;
      assert newest[k] == recs[i];
      assert newest[..k + 1] == newest[..k] + [newest[k]];
      if byStep {
        if remainStep == 0 {
          break;
        }
        list := list + [recs[i]];
        remainStep := remainStep - 1;
        i := i - 1;
        continue;
      }
      if byBatch {
        ghost var remainBefore := remainBatch;
        ghost var starts := k > 0 && NewBatch(newest[k - 1], newest[k]);
        if lastBatch == 0 {
          lastBatch := recs[i].batch;
        }
        if lastBatch != recs[i].batch {
          remainBatch := remainBatch - 1;
        }
        assert remainBatch == remainBefore - (if starts then 1 else 0);
        if k == 0 {
          assert Groups(newest[..1]) == 1;
        } else {
          GroupsStep(newest, k);
        }
        assert remainBatch + Groups(newest[..k + 1]) == batch + 1;
        if remainBatch == 0 {
          LongestPrefixAt(newest, batch, k);
          break;
        }
        list := list + [recs[i]];
        lastBatch := recs[i].batch;
        i := i - 1;
        continue;
      }
      i := i - 1;
    }
    assert newest[..n] == newest;
  }

  /** Adding one record to a prefix adds one batch exactly when its batch number differs. */
  lemma GroupsStep(s: seq<MigrationRec>, k: nat)
    requires 0 < k < |s|
    ensures Groups(s[..k + 1]) == Groups(s[..k]) + (if NewBatch(s[k - 1], s[k]) then 1 else 0)
  {
    assert s[..k + 1][..k] == s[..k];
  }

  /** A longer prefix never spans fewer batches. */
  lemma {:induction false} GroupsMonotone(s: seq<MigrationRec>, a: nat, c: nat)
    requires a <= c <= |s|
    ensures Groups(s[..a]) <= Groups(s[..c])
    decreases c - a
  {
    if a < c {
      GroupsMonotone(s, a, c - 1);
      if c - 1 > 0 {
        GroupsStep(s, c - 1);
      }
    }
  }

  /** The batch loop stops at k exactly when k is the longest prefix within the budget. */
  lemma LongestPrefixAt(s: seq<MigrationRec>, b: nat, k: nat)
    requires k < |s|
    requires Groups(s[..k]) <= b && Groups(s[..k + 1]) > b
    ensures LongestPrefix(s, b, |s|) == k
  {
    var r := LongestPrefix(s, b, |s|);
    if r > k {
      GroupsMonotone(s, k + 1, r);
    }
  }

  /** rollbackMigration's loop body for one database (the batch already defaulted). */
  method RollbackDatabase(db: Database, fs: FileMap, ms: Migrations, step: int, batch: int)
    returns (err: Option<Error>)
    modifies db
    ensures Outcome(err, db.state) == RollbackOnDb(old(db.state), db.faults, fs, ms, step, batch)
  {
    var read := db.GetMigrationInfos();
    if read.Err? {
      return Some(read.error);
    }
    var recs := read.value;
    if |recs| == 0 {
      return Some(NothingToRollback);
    }
    var list := SelectForRollback(recs, step, batch);
    err := DoTransaction(db, UndoBody(fs, ms, list));
  }

  /** The committed states of the databases, in order. */
  function States(dbs: seq<Database>): (r: seq<Tables>)
    reads set d | d in dbs
    ensures |r| == |dbs| && forall j :: 0 <= j < |dbs| ==> r[j] == dbs[j].state
  {
    if dbs == [] then [] else [dbs[0].state] + States(dbs[1..])
  }

  /** The failure oracles of the databases, in order. */
  function FaultsOf(dbs: seq<Database>): (r: seq<Faults>)
    ensures |r| == |dbs| && forall j :: 0 <= j < |dbs| ==> r[j] == dbs[j].faults
  {
    seq(|dbs|, j requires 0 <= j < |dbs| => dbs[j].faults)
  }

  /** What is done to one database, by action. */
  method OnDatabase(a: Action, db: Database, fs: FileMap, ms: Migrations) returns (err: Option<Error>)
    modifies db
    ensures Outcome(err, db.state) == OnDb(a, old(db.state), db.faults, fs, ms)
  {
    match a
    case Apply =>
      err := ApplyToDatabase(db, fs, ms);
    case Rollback(step, batch) =>
      err := RollbackDatabase(db, fs, ms, step, batch);
  }

  /** The loop over the databases shared by runMigration and rollbackMigration. */
  method ForEachDatabase(a: Action, dbs: seq<Database>, fs: FileMap, ms: Migrations) returns (err: Option<Error>)
    requires forall i, j :: 0 <= i < j < |dbs| ==> dbs[i] != dbs[j]
    modifies set d | d in dbs
    ensures var r := Sweep(RunOn(a, fs, ms), old(States(dbs)), FaultsOf(dbs), 0);
      err == r.err && forall j :: 0 <= j < |dbs| ==> dbs[j].state == r.states[j]
  {
    ghost var cur := States(dbs);
    ghost var fl := FaultsOf(dbs);
    ghost var run := RunOn(a, fs, ms);
    ghost var goal := Sweep(run, cur, fl, 0);
    err := None;
    var i := 0;
    while i < |dbs| && err.None?
      invariant i <= |dbs| && |cur| == |dbs|
      invariant forall j :: 0 <= j < |dbs| ==> dbs[j].state == cur[j]
      invariant goal == if err.None? then Sweep(run, cur, fl, i) else FanOut(err, cur)
      decreases |dbs| - i
    {
      err, cur := Visit(a, dbs, i, fs, ms, cur);
      i := i + 1;
    }
  }

  /** One iteration of the loop over the databases: only the i-th database changes. */
  method Visit(a: Action, dbs: seq<Database>, i: nat, fs: FileMap, ms: Migrations, ghost cur: seq<Tables>)
    returns (err: Option<Error>, ghost cur': seq<Tables>)
    requires forall i, j :: 0 <= i < j < |dbs| ==> dbs[i] != dbs[j]
    requires i < |dbs| == |cur| && forall j :: 0 <= j < |dbs| ==> dbs[j].state == cur[j]
    modifies dbs[i]
    ensures var o := OnDb(a, cur[i], dbs[i].faults, fs, ms);
      err == o.err && cur' == cur[i := o.state]
    ensures forall j :: 0 <= j < |dbs| ==> dbs[j].state == cur'[j]
  {
    var db := dbs[i];
    assert forall j :: 0 <= j < |dbs| && j != i ==> dbs[j] != db;
    err := OnDatabase(a, db, fs, ms);
    cur' := cur[i := db.state];
  }

  /** runMigration over the configured connections. */
  method RunMigration(dir: string, listing: Listing, fs: FileMap, dbs: seq<Database>) returns (err: Option<Error>)
    requires forall i, j :: 0 <= i < j < |dbs| ==> dbs[i] != dbs[j]
    modifies set d | d in dbs
    ensures var r := RunSpec(dir, listing, fs, old(States(dbs)), FaultsOf(dbs));
      err == r.err && forall j :: 0 <= j < |dbs| ==> dbs[j].state == r.states[j]
  {
    var migrations := LoadMigrations(dir, listing);
    if migrations.Err? {
      return Some(migrations.error);
    }
    err := ForEachDatabase(Apply, dbs, fs, migrations.value);
  }

  /** rollbackMigration over the configured connections. */
  method RollbackMigration(dir: string, listing: Listing, fs: FileMap, dbs: seq<Database>, step: int, batch: int)
    returns (err: Option<Error>)
    requires forall i, j :: 0 <= i < j < |dbs| ==> dbs[i] != dbs[j]
    modifies set d | d in dbs
    ensures var r := RollbackSpec(dir, listing, fs, old(States(dbs)), FaultsOf(dbs), step, batch);
      err == r.err && forall j :: 0 <= j < |dbs| ==> dbs[j].state == r.states[j]
  {
    var migrations := LoadMigrations(dir, listing);
    if migrations.Err? {
      return Some(migrations.error);
    }
    var b := batch;
    if step == 0 && batch == 0 {
      b := 1;
    }
    err := ForEachDatabase(Rollback(step, b), dbs, fs, migrations.value);
  }
}
