/** The actions of blueprint that work on the repository directory (action.go): the names of
    a new pair of migration files, creating that pair, the emptiness test of a directory and
    the dump of the table definitions of a database into migration files. The clock, the
    table name typed on stdin and the file system's refusals are parameters; the files an
    action writes are returned, in order, with their contents. */
module Repo {
  import opened Base
  import opened Text
  import opened Migration
  import opened Store

  // ---------------------------------------------------------------------------------------
  // Timestamps: time.Now().Format("200601021504")

  /** A reading of the wall clock, to the minute. */
  datatype Clock = Clock(year: nat, month: nat, day: nat, hour: nat, minute: nat)

  function Zeros(n: nat): (z: string)
    ensures |z| == n && AllDigits(z)
  {
    seq(n, _ => '0')
  }

  /** The decimal spelling of n with leading zeros up to width digits, as Go writes the
      fields of a time layout; a wider number keeps all of its digits. */
  function Padded(n: nat, width: nat): string {
    var d := DecimalString(n);
    if |d| >= width then d else Zeros(width - |d|) + d
  }

  /** The layout "200601021504": four digits of year, then two each of month, day, hour
      (24-hour clock) and minute. */
  function Stamp(c: Clock): string {
    Padded(c.year, 4) + Padded(c.month, 2) + Padded(c.day, 2) + Padded(c.hour, 2) + Padded(c.minute, 2)
  }

  function Pow10(w: nat): nat {
    if w == 0 then 1 else 10 * Pow10(w - 1)
  }

  lemma {:induction false} DecimalStringWidth(n: nat, w: nat)
    requires 1 <= w && n < Pow10(w)
    ensures |DecimalString(n)| <= w
    decreases w
  {
    if n >= 10 {
      DecimalStringWidth(n / 10, w - 1);
    }
  }

  /** Leading zeros do not change the value of a string of digits. */
  lemma {:induction false} LeadingZeros(k: nat, d: string)
    requires AllDigits(d)
    ensures AllDigits(Zeros(k) + d) && DecimalValue(Zeros(k) + d) == DecimalValue(d)
    decreases |d| + k
  {
    var s := Zeros(k) + d;
    if d == [] {
      assert s == Zeros(k);
      if k > 0 {
        assert s[..|s| - 1] == Zeros(k - 1) + [];
        LeadingZeros(k - 1, []);
      }
    } else {
      assert s[..|s| - 1] == Zeros(k) + d[..|d| - 1];
      LeadingZeros(k, d[..|d| - 1]);
    }
  }

  /** A field that fits its width takes exactly width digits and reads back as its value. */
  lemma PaddedField(n: nat, w: nat)
    requires 1 <= w && n < Pow10(w)
    ensures |Padded(n, w)| == w && AllDigits(Padded(n, w)) && DecimalValue(Padded(n, w)) == n
  {
    DecimalStringWidth(n, w);
    DecimalValueOfString(n);
    var d := DecimalString(n);
    if |d| < w {
      LeadingZeros(w - |d|, d);
    }
  }

  /** A clock reading of a four-digit year gives twelve digits, and each field reads back
      from its own columns. */
  lemma StampLayout(c: Clock)
    requires c.year <= 9999 && 1 <= c.month <= 12 && 1 <= c.day <= 31 && c.hour <= 23 && c.minute <= 59
    ensures var s := Stamp(c);
      |s| == 12 && AllDigits(s) &&
      DecimalValue(s[..4]) == c.year && DecimalValue(s[4..6]) == c.month &&
      DecimalValue(s[6..8]) == c.day && DecimalValue(s[8..10]) == c.hour && DecimalValue(s[10..]) == c.minute
  {
    assert Pow10(2) == 100 && Pow10(4) == 10000;
    PaddedField(c.year, 4);
    PaddedField(c.month, 2);
    PaddedField(c.day, 2);
    PaddedField(c.hour, 2);
    PaddedField(c.minute, 2);
    var s := Stamp(c);
    assert s[..4] == Padded(c.year, 4);
    assert s[4..6] == Padded(c.month, 2);
    assert s[6..8] == Padded(c.day, 2);
    assert s[8..10] == Padded(c.hour, 2);
    assert s[10..] == Padded(c.minute, 2);
  }

  // ---------------------------------------------------------------------------------------
  // getMigrationFilename

  /** The name of the migration a new pair of files is created for. */
  function MigrationName(stamp: string, note: string): string {
    stamp + "_" + note
  }

  /** The up and rollback file names of a new migration: stamp_note.sql and
      stamp_note_rollback.sql, both with the same stamp. */
  function MigrationFilenames(stamp: string, note: string): (string, string) {
    (stamp + "_" + note + ".sql", stamp + "_" + note + "_rollback.sql")
  }

  lemma FilenamesOfName(stamp: string, note: string)
    ensures var (up, down) := MigrationFilenames(stamp, note);
      up == MigrationName(stamp, note) + ".sql" && down == MigrationName(stamp, note) + RollbackSuffix + ".sql"
  {
  }

  /** The scanner reads a new pair of files back as one migration named stamp_note, whose up
      and rollback files are the two files, added after those already listed. */
  lemma FilenamesDiscovered(dir: string, entries: seq<DirEntry>, stamp: string, note: string)
    requires !EndsWith(MigrationName(stamp, note), RollbackSuffix)
    requires MigrationName(stamp, note) !in Discover(dir, entries).infos
    ensures var (up, down) := MigrationFilenames(stamp, note);
      var m := Discover(dir, entries);
      var name := MigrationName(stamp, note);
      Discover(dir, entries + [DirEntry(up, false), DirEntry(down, false)])
      == Migrations(m.names + [name], m.infos[name := MigrationInfo(name, PathJoin(dir, up), PathJoin(dir, down), "", "")])
  {
    FilenamesOfName(stamp, note);
    PairOfFiles(dir, entries, MigrationName(stamp, note));
  }

  /** A note that ends with "_rollback" breaks the pair: its up file is scanned as the
      rollback file of the migration named without that suffix. */
  lemma RollbackNoteMisread(stamp: string, base: string)
    ensures var (up, _) := MigrationFilenames(stamp, base + RollbackSuffix);
      IsSqlFile(DirEntry(up, false)) && Candidate(DirEntry(up, false)) == (MigrationName(stamp, base), true)
  {
    assert Lower(".sql") == ".sql";
    var name := MigrationName(stamp, base);
    AppendAssoc(stamp + "_", base, RollbackSuffix);
    assert MigrationFilenames(stamp, base + RollbackSuffix).0 == name + RollbackSuffix + ".sql";
    RollbackFileCandidate(name, ".sql");
  }

  // ---------------------------------------------------------------------------------------
  // createMigration

  /** The files an action created or wrote, in order, with their contents, and the error
      that stopped it. */
  datatype Written = Written(err: Option<Error>, files: seq<(string, string)>)

  /** The table name of create/update: the first parameter, or the line typed at the
      prompt when there is none. */
  function TableName(params: seq<string>, typed: string): string {
    if |params| == 0 then typed else params[0]
  }

  /** createMigration: outside a repository nothing is created; otherwise the up file, then
      the rollback file, both empty, each in workDir; a path the file system refuses stops
      the action, keeping what was created before it. */
  function CreateMigration(workDir: string, isRepo: bool, action: string, params: seq<string>, typed: string,
                           stamp: string, refused: set<string>): Written
  {
    if !isRepo then Written(Some(NotARepo(workDir)), [])
    else
      var (name, rbName) := MigrationFilenames(stamp, action + "_" + TableName(params, typed));
      var up, down := PathJoin(workDir, name), PathJoin(workDir, rbName);
      if up in refused then Written(Some(CreateFailed(up)), [])
      else if down in refused then Written(Some(CreateFailed(down)), [(up, "")])
      else Written(None, [(up, ""), (down, "")])
  }

  /** What createMigration leaves behind: an error and nothing outside a repository; else
      on success two empty files, the pair of stamp_action_table; on failure a prefix of
      that pair, ending before the refused path. */
  lemma CreateMigrationFiles(workDir: string, isRepo: bool, action: string, params: seq<string>, typed: string,
                             stamp: string, refused: set<string>)
    ensures var w := CreateMigration(workDir, isRepo, action, params, typed, stamp, refused);
      var (name, rbName) := MigrationFilenames(stamp, action + "_" + TableName(params, typed));
      var pair := [(PathJoin(workDir, name), ""), (PathJoin(workDir, rbName), "")];
      (!isRepo ==> w == Written(Some(NotARepo(workDir)), [])) &&
      (w.err.None? <==> isRepo && pair[0].0 !in refused && pair[1].0 !in refused) &&
      (w.err.None? ==> w.files == pair) &&
      (isRepo && w.err.Some? ==> (w.err == Some(CreateFailed(pair[|w.files|].0)) && |w.files| < 2 && w.files == pair[..|w.files|] &&
        pair[|w.files|].0 in refused && forall k :: 0 <= k < |w.files| ==> pair[k].0 !in refused))
  {
  }

  /** The pair createMigration writes is read back by the scanner as the one new migration
      stamp_action_table, with the two created files as its up and rollback files. */
  lemma CreatedPairDiscovered(workDir: string, entries: seq<DirEntry>, action: string, params: seq<string>,
                              typed: string, stamp: string, refused: set<string>)
    requires var note := action + "_" + TableName(params, typed);
      !EndsWith(MigrationName(stamp, note), RollbackSuffix) &&
      MigrationName(stamp, note) !in Discover(workDir, entries).infos
    requires CreateMigration(workDir, true, action, params, typed, stamp, refused).err.None?
    ensures var note := action + "_" + TableName(params, typed);
      var (up, down) := MigrationFilenames(stamp, note);
      var w := CreateMigration(workDir, true, action, params, typed, stamp, refused);
      var mig := Discover(workDir, entries + [DirEntry(up, false), DirEntry(down, false)]);
      var name := MigrationName(stamp, note);
      mig.names == Discover(workDir, entries).names + [name] && name in mig.infos &&
      mig.infos[name].upFilename == w.files[0].0 && mig.infos[name].downFilename == w.files[1].0
  {
    FilenamesDiscovered(workDir, entries, stamp, action + "_" + TableName(params, typed));
  }

  // ---------------------------------------------------------------------------------------
  // isEmptyRepo

  /** The test of isEmptyRepo: a file entry whose extension is exactly ".sql". */
  predicate CountsAsSql(e: DirEntry) {
    !e.isDir && Ext(e.name) == ".sql"
  }

  /** isEmptyRepo: a path that cannot be read or is not a directory is an error; a directory
      is empty when none of its file entries has the extension ".sql". */
  function EmptyRepo(dir: string, listing: Listing): Result<bool> {
    match listing
    case Missing => Err(ReadDirFailed(dir))
    case PlainFile => Err(NotADir(dir))
    case Unreadable => Err(ReadDirFailed(dir))
    case Entries(es) => Ok(!exists k :: 0 <= k < |es| && CountsAsSql(es[k]))
  }

  /** isEmptyRepo as written: a loop over the entries that stops at the first ".sql" file. */
  method IsEmptyRepo(dir: string, listing: Listing) returns (r: Result<bool>)
    ensures r == EmptyRepo(dir, listing)
  {
    if listing.Missing? || listing.Unreadable? {
      return Err(ReadDirFailed(dir));
    }
    if listing.PlainFile? {
      return Err(NotADir(dir));
    }
    var entries := listing.entries;
    for i := 0 to |entries|
      invariant forall k :: 0 <= k < i ==> !CountsAsSql(entries[k])
    {
      if !entries[i].isDir && Ext(entries[i].name) == ".sql" {
        return Ok(false);
      }
    }
    return Ok(true);
  }

  /** The emptiness test is case sensitive where the scanner is not: a directory holding
      only name.SQL counts as empty, yet the scanner loads that file as a migration. */
  lemma UpperCaseSqlCountsAsEmpty(dir: string, name: string)
    requires !EndsWith(name, RollbackSuffix)
    ensures var e := DirEntry(name + ".SQL", false);
      EmptyRepo(dir, Entries([e])) == Ok(true) &&
      IsSqlFile(e) && Discover(dir, [e]).names == [name]
  {
    UpperCaseUpFile(name);
    EmptyButScanned(dir, DirEntry(name + ".SQL", false), name);
  }

  lemma EmptyButScanned(dir: string, e: DirEntry, name: string)
    requires !CountsAsSql(e) && IsSqlFile(e) && Candidate(e) == (name, false)
    ensures EmptyRepo(dir, Entries([e])) == Ok(true) && Discover(dir, [e]).names == [name]
  {
    assert [e][..0] == [];
    var m := AddNewUp(NoMigrations, dir, e, name);
  }

  /** name.SQL has the extension ".SQL", which the scanner lowers to ".sql". */
  lemma UpperCaseUpFile(name: string)
    requires !EndsWith(name, RollbackSuffix)
    ensures var e := DirEntry(name + ".SQL", false);
      Ext(e.name) == ".SQL" && IsSqlFile(e) && Candidate(e) == (name, false)
  {
    var f := name + ".SQL";
    ExtFromLastDot(f, |name|);
    assert f[|name|..] == ".SQL";
    assert Lower(".SQL") == ".sql";
    SqlExt(f);
    assert f[|f| - 4..] == ".SQL";
    assert f[..|f| - 4] == name;
  }

  // ---------------------------------------------------------------------------------------
  // dumpSchemas

  const MigrationsTable: string := "migrations"

  /** The tables of a dump: those listed, without the migrations table, in listing order. */
  function FilterTables(tables: seq<string>): seq<string> {
    if tables == [] then []
    else
      var last := tables[|tables| - 1];
      FilterTables(tables[..|tables| - 1]) + (if last == MigrationsTable then [] else [last])
  }

  /** The filtered list holds every listed table but the migrations table, in the same
      order: it is the listing with those entries removed. */
  lemma {:induction false} FilterTablesMembers(tables: seq<string>)
    ensures forall t :: t in FilterTables(tables) <==> t in tables && t != MigrationsTable
    ensures MigrationsTable !in tables ==> FilterTables(tables) == tables
    ensures |FilterTables(tables)| <= |tables|
  {
    if tables != [] {
      var init := tables[..|tables| - 1];
      FilterTablesMembers(init);
      assert tables == init + [tables[|tables| - 1]];
    }
  }

  /** Filtering twice is filtering once. */
  lemma {:induction false} FilterTablesIdempotent(tables: seq<string>)
    ensures FilterTables(FilterTables(tables)) == FilterTables(tables)
  {
    FilterTablesMembers(FilterTables(tables));
    FilterTablesMembers(tables);
  }

  /** The filtering loop of dumpSchemas. */
  method FilterOutMigrations(tables: seq<string>) returns (filtered: seq<string>)
    ensures filtered == FilterTables(tables)
  {
    filtered := [];
    for i := 0 to |tables|
      invariant filtered == FilterTables(tables[..i])
    {
      assert tables[..i + 1][..i] == tables[..i];
      if tables[i] == MigrationsTable {
        continue;
      }
      filtered := filtered + [tables[i]];
    }
    assert tables[..|tables|] == tables;
  }

  /** The first table, in order, whose definition the database does not give, with its
      error; None when it gives all of them. */
  function ShowAll(db: Database, tables: seq<string>): Option<Error> {
    if tables == [] then None
    else match db.ShowTableCreate(tables[0])
      case Err(e) => Some(e)
      case Ok(_) => ShowAll(db, tables[1..])
  }

  /** ShowAll gives no error exactly when every table's definition is available, and
      otherwise the error of the first table that fails. */
  lemma {:induction false} ShowAllFirstFailure(db: Database, tables: seq<string>)
    ensures ShowAll(db, tables).None? <==> forall k :: 0 <= k < |tables| ==> db.ShowTableCreate(tables[k]).Ok?
    ensures ShowAll(db, tables).Some? ==> exists k :: (0 <= k < |tables| && db.ShowTableCreate(tables[k]).Err? &&
      ShowAll(db, tables) == Some(db.ShowTableCreate(tables[k]).error) &&
      forall j :: 0 <= j < k ==> db.ShowTableCreate(tables[j]).Ok?)
  {
    if tables != [] && db.ShowTableCreate(tables[0]).Ok? {
      var rest := tables[1..];
      ShowAllFirstFailure(db, rest);
      assert forall k :: 0 < k < |tables| ==> tables[k] == rest[k - 1];
      if ShowAll(db, rest).Some? {
        var k :| 0 <= k < |rest| && db.ShowTableCreate(rest[k]).Err? &&
          ShowAll(db, rest) == Some(db.ShowTableCreate(rest[k]).error) &&
          forall j :: 0 <= j < k ==> db.ShowTableCreate(rest[j]).Ok?;
        assert tables[k + 1] == rest[k];
      }
    }
  }

  /** What the database gives as the definition of a table, or "" when it gives none. */
  function CreationText(db: Database, table: string): string {
    match db.ShowTableCreate(table)
    case Ok(c) => c
    case Err(_) => ""
  }

  /** The map the definitions are collected into: one entry per table. */
  function Creations(db: Database, tables: seq<string>): map<string, string> {
    map t | t in tables :: CreationText(db, t)
  }

  lemma CreationsSnoc(db: Database, tables: seq<string>, t: string)
    ensures Creations(db, tables + [t]) == Creations(db, tables)[t := CreationText(db, t)]
  {
    assert forall x :: x in tables + [t] <==> x in tables || x == t;
  }

  /** A Go map lookup: the value of the key, or "" for a key that is absent. */
  function Lookup(m: map<string, string>, key: string): string {
    if key in m then m[key] else ""
  }

  /** The rollback file of a dumped table drops it. */
  function RollbackText(table: string): string {
    "DROP TABLE `" + table + "`;\n"
  }

  /** The two paths of a dumped table: the migration create_<table, lowered>, in workDir. */
  function TablePaths(workDir: string, stamp: string, table: string): (string, string) {
    var (name, rbName) := MigrationFilenames(stamp, "create_" + Lower(table));
    (PathJoin(workDir, name), PathJoin(workDir, rbName))
  }

  /** What the writing loop does for one table: the creation file and its contents, the
      rollback file and its contents. */
  datatype Job = Job(up: string, creation: string, down: string, rollback: string)

  /** The job of a table whose definition is creation. */
  function JobWith(workDir: string, stamp: string, table: string, creation: string): Job {
    var (up, down) := TablePaths(workDir, stamp, table);
    Job(up, creation, down, RollbackText(table))
  }

  /** The jobs of a dump, one per table in order, each with the definition the map holds for
      the table; stampAt(k) is the clock's reading when the names of the k-th table are made. */
  function Jobs(workDir: string, tables: seq<string>, creations: map<string, string>, stampAt: nat -> string): (js: seq<Job>)
    ensures |js| == |tables|
  {
    seq(|tables|, k requires 0 <= k < |tables| => JobWith(workDir, stampAt(k), tables[k], Lookup(creations, tables[k])))
  }

  /** writeSqlFile: the creation file, then the rollback file; a refused path stops it. */
  function WriteSqlFile(j: Job, refused: set<string>): Written {
    if j.up in refused then Written(Some(WriteFailed(j.up)), [])
    else if j.down in refused then Written(Some(WriteFailed(j.down)), [(j.up, j.creation)])
    else Written(None, [(j.up, j.creation), (j.down, j.rollback)])
  }

  /** The writing loop of dumpSchemas from the i-th job on. */
  function WriteAll(jobs: seq<Job>, i: nat, refused: set<string>): Written
    decreases |jobs| - i
  {
    if i >= |jobs| then Written(None, [])
    else
      var w := WriteSqlFile(jobs[i], refused);
      if w.err.Some? then w
      else
        var rest := WriteAll(jobs, i + 1, refused);
        Written(rest.err, w.files + rest.files)
  }

  /** dumpSchemas: the emptiness test, the refusal to dump into a repository that is not
      empty without --force, the list of tables, the definitions of all of them before
      anything is written, then the files, table by table. */
  function DumpSpec(db: Database, workDir: string, listing: Listing, force: bool, stampAt: nat -> string,
                    refused: set<string>): Written
  {
    match EmptyRepo(workDir, listing)
    case Err(e) => Written(Some(e), [])
    case Ok(empty) =>
      if !empty && !force then Written(Some(NotEmptyRepo(workDir)), [])
      else match db.catalog.tables
        case None => Written(Some(TablesFailed), [])
        case Some(all) =>
          var tables := FilterTables(all);
          match ShowAll(db, tables)
          case Some(e) => Written(Some(e), [])
          case None => WriteAll(Jobs(workDir, tables, Creations(db, tables), stampAt), 0, refused)
  }

  /** dumpSchemas as written: loops over the tables that filter them, collect their
      definitions into a map and write the files. */
  method DumpSchemas(db: Database, workDir: string, listing: Listing, force: bool, stampAt: nat -> string,
                     refused: set<string>) returns (err: Option<Error>, files: seq<(string, string)>)
    ensures Written(err, files) == DumpSpec(db, workDir, listing, force, stampAt, refused)
  {
    var repoEmpty := IsEmptyRepo(workDir, listing);
    if repoEmpty.Err? {
      return Some(repoEmpty.error), [];
    }
    if !repoEmpty.value && !force {
      return Some(NotEmptyRepo(workDir)), [];
    }
    var listed := db.GetTables();
    if listed.Err? {
      return Some(listed.error), [];
    }
    var tables := FilterOutMigrations(listed.value);
    var creations := CollectCreations(db, tables);
    if creations.Err? {
      return Some(creations.error), [];
    }
    err, files := WriteTables(workDir, tables, creations.value, stampAt, refused);
  }

  /** The loop that asks the database for the definition of every table, stopping at the
      first failure. */
  method CollectCreations(db: Database, tables: seq<string>) returns (r: Result<map<string, string>>)
    ensures ShowAll(db, tables).Some? <==> r.Err?
    ensures r.Err? ==> ShowAll(db, tables) == Some(r.error)
    ensures r.Ok? ==> r.value == Creations(db, tables)
  {
    var creations: map<string, string> := map[];
    assert tables[..0] == [];
    for i := 0 to |tables|
      invariant ShowAll(db, tables) == ShowAll(db, tables[i..])
      invariant creations == Creations(db, tables[..i])
    {
      assert tables[i..][1..] == tables[i + 1..];
      assert tables[..i + 1] == tables[..i] + [tables[i]];
      CreationsSnoc(db, tables[..i], tables[i]);
      var creation := db.ShowTableCreate(tables[i]);
      if creation.Err? {
        return Err(creation.error);
      }
      creations := creations[tables[i] := creation.value];
    }
    assert tables[..|tables|] == tables;
    assert tables[|tables|..] == [];
    return Ok(creations);
  }

  /** The writing loop of dumpSchemas, reading each definition from the collected map. */
  method WriteTables(workDir: string, tables: seq<string>, creations: map<string, string>,
                     stampAt: nat -> string, refused: set<string>) returns (err: Option<Error>, files: seq<(string, string)>)
    ensures Written(err, files) == WriteAll(Jobs(workDir, tables, creations, stampAt), 0, refused)
  {
    ghost var jobs := Jobs(workDir, tables, creations, stampAt);
    files := [];
    var i := 0;
    while i < |tables|
      invariant i <= |tables|
      invariant var rest := WriteAll(jobs, i, refused);
        WriteAll(jobs, 0, refused) == Written(rest.err, files + rest.files)
    {
      var table := tables[i];
      var job := JobWith(workDir, stampAt(i), table, Lookup(creations, table));
      JobAt(workDir, tables, creations, stampAt, i);
      var w := WriteSqlFile(job, refused);
      WriteStep(jobs, i, refused, files);
      files := files + w.files;
      if w.err.Some? {
        return w.err, files;
      }
      i := i + 1;
    }
    return None, files;
  }

  /** One turn of the writing loop: a failed job ends the run, any other leaves the rest to do. */
  lemma WriteStep(jobs: seq<Job>, i: nat, refused: set<string>, files: seq<(string, string)>)
    requires i < |jobs|
    requires var rest := WriteAll(jobs, i, refused);
      WriteAll(jobs, 0, refused) == Written(rest.err, files + rest.files)
    ensures var w := WriteSqlFile(jobs[i], refused);
      (w.err.Some? ==> WriteAll(jobs, 0, refused) == Written(w.err, files + w.files)) &&
      (w.err.None? ==> var rest := WriteAll(jobs, i + 1, refused);
        WriteAll(jobs, 0, refused) == Written(rest.err, (files + w.files) + rest.files))
  {
    var w := WriteSqlFile(jobs[i], refused);
    AppendAssoc(files, w.files, WriteAll(jobs, i + 1, refused).files);
  }

  lemma JobAt(workDir: string, tables: seq<string>, creations: map<string, string>, stampAt: nat -> string, i: nat)
    requires i < |tables|
    ensures Jobs(workDir, tables, creations, stampAt)[i] == JobWith(workDir, stampAt(i), tables[i], Lookup(creations, tables[i]))
  {
  }

  lemma AppendAssoc<T>(a: seq<T>, b: seq<T>, c: seq<T>)
    ensures a + (b + c) == (a + b) + c
  {
  }

  // ---------------------------------------------------------------------------------------
  // Properties of the dump

  /** fs holds, from its start, the two files of each of the n jobs from the i-th on. */
  predicate PairsOf(fs: seq<(string, string)>, jobs: seq<Job>, i: nat, n: nat)
    requires i + n <= |jobs|
  {
    |fs| >= 2 * n &&
    forall j :: i <= j < i + n ==>
      fs[2 * (j - i)] == (jobs[j].up, jobs[j].creation) && fs[2 * (j - i) + 1] == (jobs[j].down, jobs[j].rollback)
  }

  /** Two files of one job, then the pairs of the following jobs. */
  lemma PairsCons(w: seq<(string, string)>, fs: seq<(string, string)>, jobs: seq<Job>, i: nat, n: nat)
    requires i + 1 + n <= |jobs| && w == [(jobs[i].up, jobs[i].creation), (jobs[i].down, jobs[i].rollback)]
    requires PairsOf(fs, jobs, i + 1, n)
    ensures PairsOf(w + fs, jobs, i, n + 1)
  {
    forall j | i <= j < i + n + 1
      ensures (w + fs)[2 * (j - i)] == (jobs[j].up, jobs[j].creation)
      ensures (w + fs)[2 * (j - i) + 1] == (jobs[j].down, jobs[j].rollback)
    {
      if j > i {
        assert (w + fs)[2 * (j - i)] == fs[2 * (j - (i + 1))];
        assert (w + fs)[2 * (j - i) + 1] == fs[2 * (j - (i + 1)) + 1];
      }
    }
  }

  /** A successful write of the jobs from i on leaves exactly their two files each, in job
      order, none of them at a refused path. */
  lemma {:induction false} WriteAllSuccess(jobs: seq<Job>, i: nat, refused: set<string>)
    requires i <= |jobs| && WriteAll(jobs, i, refused).err.None?
    ensures var fs := WriteAll(jobs, i, refused).files;
      |fs| == 2 * (|jobs| - i) && PairsOf(fs, jobs, i, |jobs| - i) &&
      forall j :: i <= j < |jobs| ==> jobs[j].up !in refused && jobs[j].down !in refused
    decreases |jobs| - i
  {
    if i < |jobs| {
      WriteAllSuccess(jobs, i + 1, refused);
      PairsCons(WriteSqlFile(jobs[i], refused).files, WriteAll(jobs, i + 1, refused).files, jobs, i, |jobs| - i - 1);
    }
  }

  /** How a write that failed at job k left things: the files of the jobs from i to k, then
      the creation file of job k when only its rollback path is refused; the error names the
      refused path. */
  predicate StoppedAt(w: Written, jobs: seq<Job>, i: nat, k: nat, refused: set<string>)
    requires i <= k < |jobs|
  {
    PairsOf(w.files, jobs, i, k - i) &&
    ((jobs[k].up in refused && w.err == Some(WriteFailed(jobs[k].up)) && |w.files| == 2 * (k - i)) ||
     (jobs[k].up !in refused && jobs[k].down in refused && w.err == Some(WriteFailed(jobs[k].down)) &&
      |w.files| == 2 * (k - i) + 1 && w.files[2 * (k - i)] == (jobs[k].up, jobs[k].creation)))
  }

  lemma StoppedAtCons(w: seq<(string, string)>, rest: Written, jobs: seq<Job>, i: nat, k: nat, refused: set<string>)
    requires i + 1 <= k < |jobs| && w == [(jobs[i].up, jobs[i].creation), (jobs[i].down, jobs[i].rollback)]
    requires StoppedAt(rest, jobs, i + 1, k, refused)
    ensures StoppedAt(Written(rest.err, w + rest.files), jobs, i, k, refused)
  {
    PairsCons(w, rest.files, jobs, i, k - (i + 1));
    if |rest.files| > 2 * (k - (i + 1)) {
      assert (w + rest.files)[2 * (k - i)] == rest.files[2 * (k - (i + 1))];
    }
  }

  /** A failed write of the jobs from i on stopped at one of them, as StoppedAt says. */
  lemma {:induction false} WriteAllFailure(jobs: seq<Job>, i: nat, refused: set<string>)
    requires WriteAll(jobs, i, refused).err.Some?
    ensures exists k :: i <= k < |jobs| && StoppedAt(WriteAll(jobs, i, refused), jobs, i, k, refused)
    decreases |jobs| - i
  {
    var w := WriteSqlFile(jobs[i], refused);
    if w.err.None? {
      var rest := WriteAll(jobs, i + 1, refused);
      WriteAllFailure(jobs, i + 1, refused);
      var k :| i + 1 <= k < |jobs| && StoppedAt(rest, jobs, i + 1, k, refused);
      StoppedAtCons(w.files, rest, jobs, i, k, refused);
    } else {
      assert StoppedAt(w, jobs, i, i, refused);
    }
  }

  /** Without --force a directory holding a ".sql" file is refused before the database is
      asked anything and before anything is written. */
  lemma NonEmptyRepoRefused(db: Database, workDir: string, entries: seq<DirEntry>, k: nat, stampAt: nat -> string,
                            refused: set<string>)
    requires k < |entries| && CountsAsSql(entries[k])
    ensures DumpSpec(db, workDir, Entries(entries), false, stampAt, refused) == Written(Some(NotEmptyRepo(workDir)), [])
  {
  }

  /** A PostgreSQL database cannot be dumped: as soon as one table besides the migrations
      table is listed, the dump fails on the first of them and writes nothing. */
  lemma PostgreSQLDumpFails(db: Database, workDir: string, listing: Listing, force: bool, stampAt: nat -> string,
                            refused: set<string>)
    requires db.driver == PostgreSQL && db.catalog.tables.Some?
    requires EmptyRepo(workDir, listing) == Ok(true) || (EmptyRepo(workDir, listing).Ok? && force)
    requires FilterTables(db.catalog.tables.value) != []
    ensures DumpSpec(db, workDir, listing, force, stampAt, refused)
      == Written(Some(ShowCreateUnsupported(FilterTables(db.catalog.tables.value)[0])), [])
  {
  }

  /** A successful dump writes, for every table but the migrations table and in listing
      order, the database's definition into the up file of create_<table, lowered> and a
      DROP TABLE of the table into its rollback file; nothing else. */
  lemma DumpSuccess(db: Database, workDir: string, listing: Listing, force: bool, stampAt: nat -> string,
                    refused: set<string>)
    requires DumpSpec(db, workDir, listing, force, stampAt, refused).err.None?
    ensures db.catalog.tables.Some? && EmptyRepo(workDir, listing).Ok?
    ensures EmptyRepo(workDir, listing).value || force
    ensures var tables := FilterTables(db.catalog.tables.value);
      var fs := DumpSpec(db, workDir, listing, force, stampAt, refused).files;
      |fs| == 2 * |tables| &&
      forall k :: 0 <= k < |tables| ==>
        tables[k] != MigrationsTable && db.ShowTableCreate(tables[k]).Ok? &&
        fs[2 * k] == (TablePaths(workDir, stampAt(k), tables[k]).0, db.ShowTableCreate(tables[k]).value) &&
        fs[2 * k + 1] == (TablePaths(workDir, stampAt(k), tables[k]).1, RollbackText(tables[k]))
  {
    var tables := FilterTables(db.catalog.tables.value);
    var jobs := Jobs(workDir, tables, Creations(db, tables), stampAt);
    FilterTablesMembers(db.catalog.tables.value);
    ShowAllFirstFailure(db, tables);
    WriteAllSuccess(jobs, 0, refused);
    forall k | 0 <= k < |tables|
      ensures tables[k] != MigrationsTable
      ensures jobs[k] == Job(TablePaths(workDir, stampAt(k), tables[k]).0, db.ShowTableCreate(tables[k]).value,
                             TablePaths(workDir, stampAt(k), tables[k]).1, RollbackText(tables[k]))
    {
      assert tables[k] in tables;
    }
  }

  /** The two files dumped for a table are read back by the scanner as one migration: the
      up file runs the definition and the rollback file drops the table. */
  lemma DumpedPairDiscovered(workDir: string, entries: seq<DirEntry>, stamp: string, table: string)
    requires !EndsWith(MigrationName(stamp, "create_" + Lower(table)), RollbackSuffix)
    requires MigrationName(stamp, "create_" + Lower(table)) !in Discover(workDir, entries).infos
    ensures var (up, down) := MigrationFilenames(stamp, "create_" + Lower(table));
      var name := MigrationName(stamp, "create_" + Lower(table));
      var mig := Discover(workDir, entries + [DirEntry(up, false), DirEntry(down, false)]);
      var (upPath, downPath) := TablePaths(workDir, stamp, table);
      name in mig.infos && mig.infos[name].upFilename == upPath && mig.infos[name].downFilename == downPath
  {
    FilenamesDiscovered(workDir, entries, stamp, "create_" + Lower(table));
  }
}
