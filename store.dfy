/** The database side of the engine: the bookkeeping table of applied migrations, raw SQL
    execution split on semicolons, and transactions (mysql.go, postgresql.go). The database
    itself is abstract: its state is a value of type Tables and its failures are an oracle. */
module Store {
  import opened Base
  import opened Text

  /** MigrationRec: one row of the migrations table. */
  datatype MigrationRec = MigrationRec(id: nat, migration: string, batch: nat)

  /** What the engine can observe of one database: whether the migrations table exists, its
      rows in id order, the next auto-increment id, and the statements executed so far (the
      abstract schema). */
  datatype Tables = Tables(hasTable: bool, records: seq<MigrationRec>, nextId: nat, schema: seq<string>)

  /** The failure oracle of one database: which calls fail. A statement is rejected according
      to the statements executed before it, and an insert or a delete fails according to the
      rows present and its argument, so a failure can come after earlier calls succeeded. */
  datatype Faults = Faults(
    tableQueryFails: bool, createFails: bool, readFails: bool,
    beginFails: bool, commitFails: bool,
    insertFails: (seq<MigrationRec>, string) -> bool, deleteFails: (seq<MigrationRec>, nat) -> bool,
    rejects: (seq<string>, string) -> bool)

  datatype DriverKind = MySQL | PostgreSQL

  /** What the dump introspection reports: the table list (None when the query fails) and the
      CREATE TABLE text MySQL gives for each table it can describe. */
  datatype Catalog = Catalog(tables: Option<seq<string>>, creations: map<string, string>)

  /** The error (if any) of an operation and the state it leaves. */
  datatype Outcome = Outcome(err: Option<Error>, state: Tables)

  /** The invariant the bookkeeping table keeps: ids strictly increase in row order and are
      below the next id, every batch is positive, and without a table there are no rows. */
  ghost predicate Valid(t: Tables) {
    && (forall i, j :: 0 <= i < j < |t.records| ==> t.records[i].id < t.records[j].id)
    && (forall i :: 0 <= i < |t.records| ==> t.records[i].id < t.nextId && t.records[i].batch >= 1)
    && (!t.hasTable ==> t.records == [])
  }

  /** checkMigraionInfoTable / CheckMigrationInfoTable: ask whether the table exists and create
      it, empty, only when it does not. A failure changes nothing. */
  function EnsureTable(t: Tables, f: Faults): (r: Outcome)
    ensures r.err == None ==> r.state == t.(hasTable := true)
    ensures r.err != None ==> r.state == t
    ensures r.err == None <==> !f.tableQueryFails && (t.hasTable || !f.createFails)
  {
    if f.tableQueryFails then Outcome(Some(TableQueryFailed), t)
    else if t.hasTable then Outcome(None, t)
    else if f.createFails then Outcome(Some(CreateTableFailed), t)
    else Outcome(None, t.(hasTable := true))
  }

  /** Calling the table check twice is the same as calling it once. */
  lemma EnsureTableIdempotent(t: Tables, f: Faults)
    ensures EnsureTable(EnsureTable(t, f).state, f) == Outcome(EnsureTable(t, f).err, EnsureTable(t, f).state)
  {
  }

  /** getMigrationInfos / GetMigrationInfos: all rows; fails without the table. */
  function ReadRecords(t: Tables, f: Faults): (r: Result<seq<MigrationRec>>)
    ensures r.Ok? <==> t.hasTable && !f.readFails
    ensures r.Ok? ==> r.value == t.records
  {
    if f.readFails || !t.hasTable then Err(QueryFailed) else Ok(t.records)
  }

  /** insertMigrationInfo / InsertMigrationInfo: one new row with the next id. */
  function Insert(t: Tables, f: Faults, name: string, batch: nat): (r: Result<Tables>)
    ensures r.Ok? <==> t.hasTable && !f.insertFails(t.records, name)
    ensures r.Ok? ==> r.value == t.(records := t.records + [MigrationRec(t.nextId, name, batch)], nextId := t.nextId + 1)
  {
    if f.insertFails(t.records, name) || !t.hasTable then Err(InsertFailed(name))
    else Ok(t.(records := t.records + [MigrationRec(t.nextId, name, batch)], nextId := t.nextId + 1))
  }

  /** The rows other than those with the given id, in order. */
  function RemoveId(rs: seq<MigrationRec>, id: nat): (r: seq<MigrationRec>)
    ensures |r| <= |rs|
  {
    if rs == [] then []
    else
      var keep := if rs[0].id == id then [] else [rs[0]];
      keep + RemoveId(rs[1..], id)
  }

  /** The rows kept are exactly those of another id. */
  lemma {:induction false} RemoveIdMembers(rs: seq<MigrationRec>, id: nat)
    ensures forall x :: x in RemoveId(rs, id) <==> x in rs && x.id != id
  {
    if rs != [] {
      RemoveIdMembers(rs[1..], id);
      assert forall x :: x in rs <==> x == rs[0] || x in rs[1..];
    }
  }

  /** deleteMigrationInfo / DeleteMigrationInfo: remove the row with the given id. */
  function Delete(t: Tables, f: Faults, id: nat): (r: Result<Tables>)
    ensures r.Ok? <==> t.hasTable && !f.deleteFails(t.records, id)
    ensures r.Ok? ==> r.value == t.(records := RemoveId(t.records, id))
  {
    if f.deleteFails(t.records, id) || !t.hasTable then Err(DeleteFailed(id))
    else Ok(t.(records := RemoveId(t.records, id)))
  }

  /** Removing an id keeps the rows that are not removed in their order and untouched. */
  lemma {:induction false} RemoveIdSubsequence(rs: seq<MigrationRec>, id: nat)
    requires forall i, j :: 0 <= i < j < |rs| ==> rs[i].id < rs[j].id
    ensures forall i, j :: 0 <= i < j < |RemoveId(rs, id)| ==> RemoveId(rs, id)[i].id < RemoveId(rs, id)[j].id
  {
    if rs != [] {
      RemoveIdSubsequence(rs[1..], id);
      RemoveIdMembers(rs[1..], id);
      var tail := RemoveId(rs[1..], id);
      forall x | x in tail ensures rs[0].id < x.id {
        var k :| 0 <= k < |rs[1..]| && rs[1..][k] == x;
        assert rs[k + 1] == x;
      }
    }
  }

  /** Deleting the id of the last row leaves exactly the rows before it. */
  lemma {:induction false} RemoveLastId(rs: seq<MigrationRec>)
    requires rs != []
    requires forall i, j :: 0 <= i < j < |rs| ==> rs[i].id < rs[j].id
    ensures RemoveId(rs, rs[|rs| - 1].id) == rs[..|rs| - 1]
  {
    if |rs| > 1 {
      RemoveLastId(rs[1..]);
      assert rs[1..][|rs| - 2] == rs[|rs| - 1];
      assert rs[0].id != rs[|rs| - 1].id;
      assert rs[1..][..|rs| - 2] == rs[1..|rs| - 1];
      assert rs[..|rs| - 1] == [rs[0]] + rs[1..|rs| - 1];
    }
  }

  lemma InsertValid(t: Tables, f: Faults, name: string, batch: nat)
    requires Valid(t) && batch >= 1
    requires Insert(t, f, name, batch).Ok?
    ensures Valid(Insert(t, f, name, batch).value)
  {
  }

  lemma DeleteValid(t: Tables, f: Faults, id: nat)
    requires Valid(t)
    requires Delete(t, f, id).Ok?
    ensures Valid(Delete(t, f, id).value)
  {
    RemoveIdSubsequence(t.records, id);
    RemoveIdMembers(t.records, id);
    var r := RemoveId(t.records, id);
    forall i | 0 <= i < |r| ensures r[i].id < t.nextId && r[i].batch >= 1 {
      assert r[i] in t.records;
    }
  }

  /** db.Exec of one statement: it is rejected, or it becomes part of the schema. */
  function ExecStatement(t: Tables, f: Faults, statement: string): (r: Result<Tables>)
    ensures r.Ok? <==> !f.rejects(t.schema, statement)
    ensures r.Ok? ==> r.value == t.(schema := t.schema + [statement])
    ensures r.Err? ==> r.error == ExecFailed(statement)
  {
    if f.rejects(t.schema, statement) then Err(ExecFailed(statement))
    else Ok(t.(schema := t.schema + [statement]))
  }

  /** A statement as TrimSpace leaves it: not empty and without white space at either end. */
  predicate Trimmed(s: string) {
    s != "" && !IsSpace(s[0]) && !IsSpace(s[|s| - 1])
  }

  /** The trimmed pieces that are not empty, in order. */
  function NonEmptyTrimmed(pieces: seq<string>): seq<string>
  {
    if pieces == [] then []
    else
      var s := TrimSpace(pieces[0]);
      var rest := NonEmptyTrimmed(pieces[1..]);
      if s == "" then rest else [s] + rest
  }

  /** One step of running the pieces of a split: a blank piece is skipped, any other is
      executed trimmed, and an error stops the run. */
  lemma ExecPiece(t: Tables, f: Faults, pieces: seq<string>)
    requires pieces != []
    ensures var s := TrimSpace(pieces[0]);
      ExecAll(t, f, NonEmptyTrimmed(pieces)) ==
        if s == "" then ExecAll(t, f, NonEmptyTrimmed(pieces[1..]))
        else if ExecStatement(t, f, s).Err? then ExecStatement(t, f, s).PropagateFailure()
        else ExecAll(ExecStatement(t, f, s).value, f, NonEmptyTrimmed(pieces[1..]))
  {
    var s := TrimSpace(pieces[0]);
    if s != "" {
      var ss := NonEmptyTrimmed(pieces);
      assert ss[0] == s && ss[1..] == NonEmptyTrimmed(pieces[1..]);
    }
  }

  /** The statements execMigration / ExecMigration runs for an SQL text: the pieces of a split
      on ';', trimmed, that are not empty. None contains ';', none is empty or has white space
      at either end. */
  function Statements(sql: string): (r: seq<string>)
    ensures forall k :: 0 <= k < |r| ==> Trimmed(r[k]) && ';' !in r[k]
  {
    var pieces := Split(sql, ';');
    NoSemicolonSurvives(pieces);
    AllTrimmed(pieces);
    NonEmptyTrimmed(pieces)
  }

  /** Every statement kept is trimmed and not empty. */
  lemma {:induction false} AllTrimmed(pieces: seq<string>)
    ensures forall k :: 0 <= k < |NonEmptyTrimmed(pieces)| ==> Trimmed(NonEmptyTrimmed(pieces)[k])
  {
    if pieces != [] {
      AllTrimmed(pieces[1..]);
      var s := TrimSpace(pieces[0]);
      var rest := NonEmptyTrimmed(pieces[1..]);
      if s != "" {
        TrimmedCons(pieces[0], rest);
      }
    }
  }

  lemma TrimmedCons(p: string, rest: seq<string>)
    requires TrimSpace(p) != ""
    requires forall k :: 0 <= k < |rest| ==> Trimmed(rest[k])
    ensures forall k :: 0 <= k < |[TrimSpace(p)] + rest| ==> Trimmed(([TrimSpace(p)] + rest)[k])
  {
    var s := TrimSpace(p);
    TrimSpaceEnds(p);
    assert Trimmed(s);
    forall k | 0 <= k < |[s] + rest|
      ensures Trimmed(([s] + rest)[k])
    {
      if k > 0 {
        assert ([s] + rest)[k] == rest[k - 1];
      }
    }
  }

  lemma {:induction false} NoSemicolonSurvives(pieces: seq<string>)
    requires forall k :: 0 <= k < |pieces| ==> ';' !in pieces[k]
    ensures forall k :: 0 <= k < |NonEmptyTrimmed(pieces)| ==> ';' !in NonEmptyTrimmed(pieces)[k]
  {
    if pieces != [] {
      NoSemicolonSurvives(pieces[1..]);
      TrimSpaceKeepsOut(pieces[0], ';');
    }
  }

  /** Every piece is blank exactly when the whole text is white space and semicolons. */
  lemma {:induction false} AllBlankPieces(s: string)
    ensures (forall k :: 0 <= k < |Split(s, ';')| ==> AllSpace(Split(s, ';')[k]))
        <==> (forall k :: 0 <= k < |s| ==> IsSpace(s[k]) || s[k] == ';')
  {
    if s != [] {
      AllBlankPieces(s[1..]);
      var rest := Split(s[1..], ';');
      if s[0] == ';' {
        assert Split(s, ';')[1..] == rest;
      } else {
        var r := Split(s, ';');
        assert r[0] == [s[0]] + rest[0];
        assert r[1..] == rest[1..];
        assert AllSpace(r[0]) <==> IsSpace(s[0]) && AllSpace(rest[0]) by {
          assert r[0][0] == s[0];
          assert r[0][1..] == rest[0];
          assert AllSpace(r[0]) <==> IsSpace(r[0][0]) && AllSpace(r[0][1..]) by {
            assert forall k :: 1 <= k < |r[0]| ==> r[0][k] == r[0][1..][k - 1];
          }
        }
      }
    }
  }

  lemma {:induction false} NonEmptyTrimmedEmpty(pieces: seq<string>)
    ensures NonEmptyTrimmed(pieces) == [] <==> forall k :: 0 <= k < |pieces| ==> AllSpace(pieces[k])
  {
    if pieces != [] {
      NonEmptyTrimmedEmpty(pieces[1..]);
      TrimSpaceEnds(pieces[0]);
      assert forall k :: 1 <= k < |pieces| ==> pieces[k] == pieces[1..][k - 1];
    }
  }

  /** An SQL text runs no statement at all exactly when it is made of white space and
      semicolons only (the empty text included). */
  lemma NothingToExecute(sql: string)
    ensures Statements(sql) == [] <==> forall k :: 0 <= k < |sql| ==> IsSpace(sql[k]) || sql[k] == ';'
  {
    var pieces := Split(sql, ';');
    assert Statements(sql) == NonEmptyTrimmed(pieces);
    AllBlankPieces(sql);
    NonEmptyTrimmedEmpty(pieces);
    if Statements(sql) == [] {
      assert forall k :: 0 <= k < |pieces| ==> AllSpace(pieces[k]);
    } else {
      assert !(forall k :: 0 <= k < |pieces| ==> AllSpace(pieces[k]));
    }
  }

  /** Run the statements in order, stopping at the first one the database rejects. */
  function ExecAll(t: Tables, f: Faults, statements: seq<string>): Result<Tables>
    decreases |statements|
  {
    if statements == [] then Ok(t)
    else
      var t1 :- ExecStatement(t, f, statements[0]);
      ExecAll(t1, f, statements[1..])
  }

  /** The statements that have run when k of them have been accepted. */
  ghost predicate AcceptedPrefix(t: Tables, f: Faults, statements: seq<string>, k: nat)
    requires k <= |statements|
  {
    forall j :: 0 <= j < k ==> !f.rejects(t.schema + statements[..j], statements[j])
  }

  /** Either every statement is accepted, in order, and becomes part of the schema with nothing
      else changed; or the error is that of the first statement rejected, all before it having
      been accepted. */
  lemma ExecAllOutcome(t: Tables, f: Faults, statements: seq<string>)
    ensures ExecAll(t, f, statements).Ok? ==>
      && AcceptedPrefix(t, f, statements, |statements|)
      && ExecAll(t, f, statements).value == t.(schema := t.schema + statements)
    ensures ExecAll(t, f, statements).Err? ==>
      exists k :: 0 <= k < |statements| && AcceptedPrefix(t, f, statements, k)
        && f.rejects(t.schema + statements[..k], statements[k])
        && ExecAll(t, f, statements).error == ExecFailed(statements[k])
  {
    if ExecAll(t, f, statements).Ok? {
      ExecAllAccepted(t, f, statements);
    } else {
      ExecAllRejected(t, f, statements);
    }
  }

  /** After the first statement is accepted, the statements run so far are those of the rest
      after that one. */
  lemma ShiftPrefix(t: Tables, statements: seq<string>)
    requires statements != []
    ensures forall j :: 1 <= j <= |statements| ==>
      t.schema + statements[..j] == (t.schema + [statements[0]]) + statements[1..][..j - 1]
  {
    forall j | 1 <= j <= |statements|
      ensures t.schema + statements[..j] == (t.schema + [statements[0]]) + statements[1..][..j - 1]
    {
      assert statements[..j] == [statements[0]] + statements[1..][..j - 1];
    }
  }

  lemma {:induction false} ExecAllAccepted(t: Tables, f: Faults, statements: seq<string>)
    requires ExecAll(t, f, statements).Ok?
    ensures AcceptedPrefix(t, f, statements, |statements|)
    ensures ExecAll(t, f, statements).value == t.(schema := t.schema + statements)
    decreases |statements|
  {
    if statements != [] {
      var s := statements[0];
      var t1 := t.(schema := t.schema + [s]);
      var rest := statements[1..];
      ExecAllAccepted(t1, f, rest);
      ShiftPrefix(t, statements);
      assert statements == [s] + rest;
      assert t.schema + statements[..0] == t.schema;
      forall j | 0 <= j < |statements|
        ensures !f.rejects(t.schema + statements[..j], statements[j])
      {
        if j > 0 {
          assert statements[j] == rest[j - 1];
        }
      }
    }
  }

  lemma {:induction false} ExecAllRejected(t: Tables, f: Faults, statements: seq<string>)
    requires ExecAll(t, f, statements).Err?
    ensures exists k :: (0 <= k < |statements| && AcceptedPrefix(t, f, statements, k)
      && f.rejects(t.schema + statements[..k], statements[k])
      && ExecAll(t, f, statements).error == ExecFailed(statements[k]))
    decreases |statements|
  {
    var s := statements[0];
    assert statements[..0] == [];
    assert t.schema + statements[..0] == t.schema;
    if !f.rejects(t.schema, s) {
      var t1 := t.(schema := t.schema + [s]);
      var rest := statements[1..];
      ExecAllRejected(t1, f, rest);
      ShiftPrefix(t, statements);
      var k :| 0 <= k < |rest| && AcceptedPrefix(t1, f, rest, k)
        && f.rejects(t1.schema + rest[..k], rest[k])
        && ExecAll(t1, f, rest).error == ExecFailed(rest[k]);
      assert statements[k + 1] == rest[k];
      assert AcceptedPrefix(t, f, statements, k + 1) by {
        forall j | 0 <= j < k + 1
          ensures !f.rejects(t.schema + statements[..j], statements[j])
        {
          if j > 0 {
            assert statements[j] == rest[j - 1];
          }
        }
      }
    } else {
      assert AcceptedPrefix(t, f, statements, 0);
    }
  }

  /** Running the SQL text of a migration on a working copy. */
  function ExecSQL(t: Tables, f: Faults, sql: string): Result<Tables> {
    ExecAll(t, f, Statements(sql))
  }

  /** Executing SQL touches only the schema: the bookkeeping rows stay as they were. */
  lemma ExecSQLKeepsRecords(t: Tables, f: Faults, sql: string)
    requires ExecSQL(t, f, sql).Ok?
    ensures ExecSQL(t, f, sql).value == t.(schema := t.schema + Statements(sql))
  {
    ExecAllOutcome(t, f, Statements(sql));
  }

  /** An open transaction: a working copy of the database state. Every write goes to the copy. */
  class Tx {
    var work: Tables
    const faults: Faults

    constructor (start: Tables, faults: Faults)
      ensures work == start && this.faults == faults
    {
      work := start;
      this.faults := faults;
    }

    /** execMigration / ExecMigration: split on ';', trim, skip empty pieces, execute the rest
        in order and stop at the first error. After an error the working copy holds the
        statements accepted before it; only the log of executed statements has grown. */
    method ExecMigration(migrationSQL: string) returns (err: Option<Error>)
      modifies this
      ensures err.None? <==> ExecSQL(old(work), faults, migrationSQL).Ok?
      ensures err.None? ==> work == ExecSQL(old(work), faults, migrationSQL).value
      ensures err.Some? ==> err.value == ExecSQL(old(work), faults, migrationSQL).error
      ensures err.Some? ==> work == old(work).(schema := work.schema) && old(work).schema <= work.schema
    {
      var statements := Split(migrationSQL, ';');
      ghost var goal := ExecSQL(work, faults, migrationSQL);
      assert statements[0..] == statements;
      for i := 0 to |statements|
        invariant goal == ExecAll(work, faults, NonEmptyTrimmed(statements[i..]))
        invariant work == old(work).(schema := work.schema) && old(work).schema <= work.schema
      {
        var statement := TrimSpace(statements[i]);
        ExecPiece(work, faults, statements[i..]);
        assert statements[i..][0] == statements[i];
        assert statements[i..][1..] == statements[i + 1..];
        if statement == "" {
          continue;
        }
        var r := ExecStatement(work, faults, statement);
        if r.Err? {
          assert goal == Err(r.error);
          return Some(r.error);
        }
        work := r.value;
      }
      assert statements[|statements|..] == [];
      return None;
    }

    method InsertMigrationInfo(name: string, batch: nat) returns (err: Option<Error>)
      modifies this
      ensures err.None? <==> Insert(old(work), faults, name, batch).Ok?
      ensures err.None? ==> work == Insert(old(work), faults, name, batch).value
      ensures err.Some? ==> work == old(work) && err.value == InsertFailed(name)
    {
      var r := Insert(work, faults, name, batch);
      if r.Err? {
        return Some(r.error);
      }
      work := r.value;
      return None;
    }

    method DeleteMigrationInfo(id: nat) returns (err: Option<Error>)
      modifies this
      ensures err.None? <==> Delete(old(work), faults, id).Ok?
      ensures err.None? ==> work == Delete(old(work), faults, id).value
      ensures err.Some? ==> work == old(work) && err.value == DeleteFailed(id)
    {
      var r := Delete(work, faults, id);
      if r.Err? {
        return Some(r.error);
      }
      work := r.value;
      return None;
    }
  }

  /** One configured database connection: its committed state, its failure oracle, its
      product and what its introspection reports. */
  class Database {
    var state: Tables
    const faults: Faults
    const driver: DriverKind
    const catalog: Catalog

    constructor (start: Tables, faults: Faults, driver: DriverKind, catalog: Catalog)
      ensures state == start && this.faults == faults && this.driver == driver && this.catalog == catalog
    {
      state := start;
      this.faults := faults;
      this.driver := driver;
      this.catalog := catalog;
    }

    method CheckMigrationInfoTable() returns (err: Option<Error>)
      modifies this
      ensures Outcome(err, state) == EnsureTable(old(state), faults)
    {
      var r := EnsureTable(state, faults);
      err, state := r.err, r.state;
    }

    method GetMigrationInfos() returns (r: Result<seq<MigrationRec>>)
      ensures r == ReadRecords(state, faults)
    {
      r := ReadRecords(state, faults);
    }

    /** db.Begin: a fresh working copy of the committed state. */
    method Begin() returns (r: Result<Tx>)
      ensures r.Err? <==> faults.beginFails
      ensures r.Err? ==> r.error == BeginFailed
      ensures r.Ok? ==> fresh(r.value) && r.value.work == state && r.value.faults == faults
    {
      if faults.beginFails {
        return Err(BeginFailed);
      }
      var tx := new Tx(state, faults);
      return Ok(tx);
    }

    /** tx.Commit: the working copy becomes the committed state; a failed commit keeps the
        old state. */
    method Commit(tx: Tx) returns (err: Option<Error>)
      modifies this
      ensures err.None? <==> !faults.commitFails
      ensures err.None? ==> state == tx.work
      ensures err.Some? ==> state == old(state) && err.value == CommitFailed
    {
      if faults.commitFails {
        return Some(CommitFailed);
      }
      state := tx.work;
      return None;
    }

    method GetTables() returns (r: Result<seq<string>>)
      ensures r.Ok? <==> catalog.tables.Some?
      ensures r.Ok? ==> r.value == catalog.tables.value
      ensures r.Err? ==> r.error == TablesFailed
    {
      if catalog.tables.None? {
        return Err(TablesFailed);
      }
      return Ok(catalog.tables.value);
    }

    /** PostgreSQL's ShowTableCreate always fails, whatever the table; MySQL's reports the
        CREATE TABLE text it has for the table. */
    function ShowTableCreate(table: string): (r: Result<string>)
      ensures driver == PostgreSQL ==> r == Err(ShowCreateUnsupported(table))
      ensures driver == MySQL ==> (r.Ok? <==> table in catalog.creations)
      ensures driver == MySQL && r.Ok? ==> r.value == catalog.creations[table]
    {
      if driver == PostgreSQL then Err(ShowCreateUnsupported(table))
      else if table in catalog.creations then Ok(catalog.creations[table])
      else Err(ShowCreateFailed(table))
    }
  }
}
