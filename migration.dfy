/** Migration discovery: scanning a directory listing for up and rollback SQL files and grouping
    them into one migration per name (migration.go). */
module Migration {
  import opened Base
  import opened Text

  /** One entry of os.ReadDir: its base name and whether it is a directory. */
  datatype DirEntry = DirEntry(name: string, isDir: bool)

  /** What reading a directory gave: the path does not exist, is a plain file, cannot be
      read, or lists these entries. */
  datatype Listing = Missing | PlainFile | Unreadable | Entries(entries: seq<DirEntry>)

  /** The readable files, by path. */
  type FileMap = map<string, string>

  /** MigrationInfo: the two file paths of a migration and, once loaded, their contents. */
  datatype MigrationInfo = MigrationInfo(
    name: string, upFilename: string, downFilename: string, upSQL: string, downSQL: string)
  {
    function GetUpSQL(): string {
      upSQL
    }

    function GetDownSQL(): string {
      downSQL
    }
  }

  /** Go's zero MigrationInfo. */
  const ZeroInfo: MigrationInfo := MigrationInfo("", "", "", "", "")

  /** os.ReadFile: the empty path and a path that is not a readable file fail. */
  function ReadFile(fs: FileMap, path: string): (r: Result<string>)
    ensures r.Ok? <==> path != "" && path in fs
    ensures r.Ok? ==> r.value == fs[path]
    ensures r.Err? ==> r.error == ReadFileFailed(path)
  {
    if path != "" && path in fs then Ok(fs[path]) else Err(ReadFileFailed(path))
  }

  /** MigrationInfo.LoadSQLFile: reads the up file, then the down file. It succeeds exactly
      when both are readable, and then holds exactly their contents; a failure names the first
      file that could not be read. */
  function LoadSQLFile(m: MigrationInfo, fs: FileMap): (r: Result<MigrationInfo>)
    ensures r.Ok? <==> ReadFile(fs, m.upFilename).Ok? && ReadFile(fs, m.downFilename).Ok?
    ensures r.Ok? ==> r.value.upSQL == fs[m.upFilename] && r.value.downSQL == fs[m.downFilename]
    ensures r.Ok? ==> r.value.(upSQL := m.upSQL, downSQL := m.downSQL) == m
    ensures r.Err? && ReadFile(fs, m.upFilename).Err? ==> r.error == ReadFileFailed(m.upFilename)
    ensures r.Err? && ReadFile(fs, m.upFilename).Ok? ==> r.error == ReadFileFailed(m.downFilename)
  {
    var up :- ReadFile(fs, m.upFilename);
    var down :- ReadFile(fs, m.downFilename);
    Ok(m.(upSQL := up, downSQL := down))
  }

  /** Migrations: the migration names in discovery order and the info of each. */
  datatype Migrations = Migrations(names: seq<string>, infos: map<string, MigrationInfo>) {
    function GetNames(): seq<string> {
      names
    }

    /** The info recorded for name, or the zero info when there is none. */
    function GetInfo(name: string): (m: MigrationInfo)
      ensures name in infos ==> m == infos[name]
      ensures name !in infos ==> m == ZeroInfo
    {
      if name in infos then infos[name] else ZeroInfo
    }
  }

  /** The zero info of an unknown name cannot be loaded: its paths are empty. */
  lemma UnknownNameFailsToLoad(migs: Migrations, name: string, fs: FileMap)
    requires name !in migs.infos
    ensures LoadSQLFile(migs.GetInfo(name), fs) == Err(ReadFileFailed(""))
  {
  }

  /** The entries the scanner looks at: files whose extension, lowered, is ".sql". */
  predicate IsSqlFile(e: DirEntry) {
    !e.isDir && Lower(Ext(e.name)) == ".sql"
  }

  const RollbackSuffix: string := "_rollback"

  /** The migration name of an SQL file name and whether it is a rollback file: the name is the
      file name without its last four characters, minus a "_rollback" suffix when what remains
      is longer than nine characters and ends with it. */
  function Classify(filename: string): (c: (string, bool))
    requires |filename| >= 4
    ensures c.0 + (if c.1 then RollbackSuffix else "") == filename[..|filename| - 4]
    ensures c.1 <==> |filename| - 4 > 9 && EndsWith(filename[..|filename| - 4], RollbackSuffix)
  {
    var base := filename[..|filename| - 4];
    if |base| > 9 && base[|base| - 9..] == RollbackSuffix then (base[..|base| - 9], true)
    else (base, false)
  }

  /** The classification of a scanned entry. */
  function Candidate(e: DirEntry): (string, bool)
    requires IsSqlFile(e)
  {
    SqlExtSuffix(e.name);
    Classify(e.name)
  }

  /** The up file of a migration: name + ".sql" is scanned, whatever the name, and names the
      migration itself unless the name ends with "_rollback". */
  lemma UpFileCandidate(name: string)
    requires !EndsWith(name, RollbackSuffix)
    ensures IsSqlFile(DirEntry(name + ".sql", false))
    ensures Candidate(DirEntry(name + ".sql", false)) == (name, false)
  {
    var f := name + ".sql";
    assert f[|f| - 4..] == ".sql";
    assert f[..|f| - 4] == name;
    SqlSuffixExt(f);
  }

  /** The rollback file of a migration with a non-empty name: name + "_rollback" + ext is
      scanned for any extension that lowers to ".sql", and names the migration. */
  lemma RollbackFileCandidate(name: string, ext: string)
    requires name != "" && |ext| == 4 && Lower(ext) == ".sql"
    ensures IsSqlFile(DirEntry(name + RollbackSuffix + ext, false))
    ensures Candidate(DirEntry(name + RollbackSuffix + ext, false)) == (name, true)
  {
    var f := name + RollbackSuffix + ext;
    var base := name + RollbackSuffix;
    assert f[|f| - 4..] == ext;
    assert f[..|f| - 4] == base;
    assert base[|base| - 9..] == RollbackSuffix;
    assert base[..|base| - 9] == name;
    SqlSuffixExt(f);
  }

  /** "_rollback.sql" on its own is the up file of a migration named "_rollback": nine
      characters are not longer than nine. */
  lemma BareRollbackIsUpFile()
    ensures IsSqlFile(DirEntry("_rollback.sql", false))
    ensures Candidate(DirEntry("_rollback.sql", false)) == ("_rollback", false)
  {
    SqlSuffixExt("_rollback.sql");
    assert "_rollback.sql"[..9] == "_rollback";
  }

  /** The extension test ignores case ("X_rollback.SQL" is a rollback file), the rollback
      test does not ("X_ROLLBACK.sql" is the up file of a migration named "X_ROLLBACK"). */
  lemma CaseOfExtensionAndSuffix(name: string)
    requires name != ""
    ensures IsSqlFile(DirEntry(name + RollbackSuffix + ".SQL", false))
    ensures Candidate(DirEntry(name + RollbackSuffix + ".SQL", false)) == (name, true)
    ensures IsSqlFile(DirEntry(name + "_ROLLBACK" + ".sql", false))
    ensures Candidate(DirEntry(name + "_ROLLBACK" + ".sql", false)) == (name + "_ROLLBACK", false)
  {
    assert Lower(".SQL") == ".sql";
    RollbackFileCandidate(name, ".SQL");
    var up := name + "_ROLLBACK";
    assert up[|up| - 9..] != RollbackSuffix by {
      assert up[|up| - 9..][8] == 'K';
      assert RollbackSuffix[8] == 'k';
    }
    assert up + ".sql" == name + "_ROLLBACK" + ".sql";
    UpFileCandidate(up);
  }

  const NoMigrations: Migrations := Migrations([], map[])

  /** One iteration of the scanning loop of LoadMigrations. */
  function AddEntry(m: Migrations, dir: string, e: DirEntry): Migrations {
    if !IsSqlFile(e) then m
    else
      var (name, isRollback) := Candidate(e);
      var data := if name in m.infos then m.infos[name] else MigrationInfo(name, "", "", "", "");
      var names := if name in m.infos then m.names else m.names + [name];
      var path := PathJoin(dir, e.name);
      var data' := if isRollback then data.(downFilename := path) else data.(upFilename := path);
      Migrations(names, m.infos[name := data'])
  }

  /** What LoadMigrations builds from the entries of dir, in listing order. */
  function Discover(dir: string, entries: seq<DirEntry>): Migrations
  {
    if entries == [] then NoMigrations
    else AddEntry(Discover(dir, entries[..|entries| - 1]), dir, entries[|entries| - 1])
  }

  /** LoadMigrations: a failed directory read is an error; otherwise one pass over the entries
      in listing order builds the names and the infos. */
  method LoadMigrations(dir: string, listing: Listing) returns (r: Result<Migrations>)
    ensures listing.Entries? ==> r == Ok(Discover(dir, listing.entries))
    ensures !listing.Entries? ==> r == Err(ReadDirFailed(dir))
  {
    if !listing.Entries? {
      return Err(ReadDirFailed(dir));
    }
    var dirs := listing.entries;
    var names: seq<string> := [];
    var infos: map<string, MigrationInfo> := map[];
    for i := 0 to |dirs|
      invariant Migrations(names, infos) == Discover(dir, dirs[..i])
    {
      assert dirs[..i + 1][..i] == dirs[..i];
      var entry := dirs[i];
      if entry.isDir {
        continue;
      }
      var filename := entry.name;
      var fileExt := Lower(Ext(filename));
      if fileExt != ".sql" {
        continue;
      }
      SqlExtSuffix(filename);
      var migrationName := filename[..|filename| - 4];
      var isRollback := false;
      if |migrationName| > 9 && migrationName[|migrationName| - 9..] == RollbackSuffix {
        isRollback := true;
        migrationName := migrationName[..|migrationName| - 9];
      }
      var data: MigrationInfo;
      if migrationName in infos {
        data := infos[migrationName];
      } else {
        names := names + [migrationName];
        data := MigrationInfo(migrationName, "", "", "", "");
      }
      if isRollback {
        data := data.(downFilename := PathJoin(dir, filename));
      } else {
        data := data.(upFilename := PathJoin(dir, filename));
      }
      infos := infos[migrationName := data];
    }
    assert dirs[..|dirs|] == dirs;
    return Ok(Migrations(names, infos));
  }

  // ---------------------------------------------------------------------------------------
  // Properties of discovery

  predicate NoDuplicates<T(==)>(s: seq<T>) {
    forall i, j :: 0 <= i < j < |s| ==> s[i] != s[j]
  }

  /** The shape every discovery result has: duplicate-free names that are exactly the keys of
      the infos, every info filed under its own name, and no SQL loaded yet. */
  ghost predicate WellFormed(m: Migrations) {
    && NoDuplicates(m.names)
    && (forall n :: n in m.names <==> n in m.infos)
    && (forall n :: n in m.infos ==> m.infos[n].name == n)
    && (forall n :: n in m.infos ==> m.infos[n].upSQL == "" && m.infos[n].downSQL == "")
  }

  lemma {:induction false} DiscoverWellFormed(dir: string, entries: seq<DirEntry>)
    ensures WellFormed(Discover(dir, entries))
  {
    if entries != [] {
      DiscoverWellFormed(dir, entries[..|entries| - 1]);
      AddEntryWellFormed(Discover(dir, entries[..|entries| - 1]), dir, entries[|entries| - 1]);
    }
  }

  /** One step of the scan keeps the shape. */
  lemma AddEntryWellFormed(m: Migrations, dir: string, e: DirEntry)
    requires WellFormed(m)
    ensures WellFormed(AddEntry(m, dir, e))
  {
    if IsSqlFile(e) {
      var (name, isRollback) := Candidate(e);
      var path := PathJoin(dir, e.name);
      if name in m.infos {
        var data := m.infos[name];
        WellFormedUpdate(m, name, if isRollback then data.(downFilename := path) else data.(upFilename := path));
      } else {
        var data := MigrationInfo(name, "", "", "", "");
        WellFormedAdd(m, name, if isRollback then data.(downFilename := path) else data.(upFilename := path));
      }
    }
  }

  lemma WellFormedAdd(m: Migrations, name: string, info: MigrationInfo)
    requires WellFormed(m) && name !in m.infos && info.name == name && info.upSQL == "" && info.downSQL == ""
    ensures WellFormed(Migrations(m.names + [name], m.infos[name := info]))
  {
    var names := m.names + [name];
    assert forall i :: 0 <= i < |m.names| ==> names[i] == m.names[i];
    assert forall n :: n in names <==> n in m.names || n == name;
  }

  lemma WellFormedUpdate(m: Migrations, name: string, info: MigrationInfo)
    requires WellFormed(m) && name in m.infos && info.name == name && info.upSQL == "" && info.downSQL == ""
    ensures WellFormed(Migrations(m.names, m.infos[name := info]))
  {
  }

  /** The migration names of the scanned entries, one per SQL file, in listing order. */
  function CandidateNames(entries: seq<DirEntry>): seq<string> {
    if entries == [] then []
    else
      var e := entries[|entries| - 1];
      CandidateNames(entries[..|entries| - 1]) + (if IsSqlFile(e) then [Candidate(e).0] else [])
  }

  /** The first occurrence of each element, in order. */
  function Dedup(s: seq<string>): (r: seq<string>)
    ensures forall x :: x in r <==> x in s
  {
    if s == [] then []
    else
      var init := Dedup(s[..|s| - 1]);
      var x := s[|s| - 1];
      assert forall y :: y in s <==> y in s[..|s| - 1] || y == x;
      init + (if x in s[..|s| - 1] then [] else [x])
  }

  /** Discovery does no sorting: the names are the listing's migration names, each at its
      first occurrence. */
  lemma {:induction false} DiscoverFirstSeenOrder(dir: string, entries: seq<DirEntry>)
    ensures Discover(dir, entries).names == Dedup(CandidateNames(entries))
    ensures forall n :: n in Discover(dir, entries).infos <==> n in CandidateNames(entries)
  {
    if entries != [] {
      var front := entries[..|entries| - 1];
      DiscoverFirstSeenOrder(dir, front);
      DiscoverWellFormed(dir, front);
      var e := entries[|entries| - 1];
      var c := CandidateNames(entries);
      if IsSqlFile(e) {
        assert c[..|c| - 1] == CandidateNames(front);
      } else {
        assert c == CandidateNames(front);
      }
    }
  }

  /** The path recorded for the up (rollback = false) or down (rollback = true) file of name:
      that of the last entry of that role, or "" when there is none. */
  function LastFileOf(dir: string, entries: seq<DirEntry>, name: string, rollback: bool): string {
    if entries == [] then ""
    else
      var e := entries[|entries| - 1];
      if IsSqlFile(e) && Candidate(e) == (name, rollback) then PathJoin(dir, e.name)
      else LastFileOf(dir, entries[..|entries| - 1], name, rollback)
  }

  /** An up file sets only the up path and a rollback file only the down path, so every
      discovered migration carries the last up path and the last down path seen for it. */
  lemma {:induction false} DiscoverFiles(dir: string, entries: seq<DirEntry>, name: string)
    requires name in Discover(dir, entries).infos
    ensures Discover(dir, entries).infos[name].upFilename == LastFileOf(dir, entries, name, false)
    ensures Discover(dir, entries).infos[name].downFilename == LastFileOf(dir, entries, name, true)
  {
    var front := entries[..|entries| - 1];
    var m := Discover(dir, front);
    var e := entries[|entries| - 1];
    if name in m.infos {
      DiscoverFiles(dir, front, name);
    } else {
      DiscoverFirstSeenOrder(dir, front);
      DiscoverNoFileWithoutName(dir, front, name);
    }
  }

  lemma {:induction false} DiscoverNoFileWithoutName(dir: string, entries: seq<DirEntry>, name: string)
    requires name !in CandidateNames(entries)
    ensures LastFileOf(dir, entries, name, false) == ""
    ensures LastFileOf(dir, entries, name, true) == ""
  {
    if entries != [] {
      var front := entries[..|entries| - 1];
      assert CandidateNames(front) <= CandidateNames(entries);
      DiscoverNoFileWithoutName(dir, front, name);
    }
  }

  /** The entries that the scanner keeps. */
  function SqlFiles(entries: seq<DirEntry>): (r: seq<DirEntry>)
    ensures forall e :: e in r <==> e in entries && IsSqlFile(e)
  {
    if entries == [] then []
    else
      var e := entries[|entries| - 1];
      var front := entries[..|entries| - 1];
      assert forall x :: x in entries <==> x in front || x == e;
      SqlFiles(front) + (if IsSqlFile(e) then [e] else [])
  }

  /** Directories and files that are not ".sql" files leave the result unchanged wherever
      they stand in the listing. */
  lemma {:induction false} DiscoverIgnoresOtherEntries(dir: string, entries: seq<DirEntry>)
    ensures Discover(dir, entries) == Discover(dir, SqlFiles(entries))
  {
    if entries != [] {
      var front := entries[..|entries| - 1];
      var e := entries[|entries| - 1];
      DiscoverIgnoresOtherEntries(dir, front);
      var s := SqlFiles(entries);
      if IsSqlFile(e) {
        assert s == SqlFiles(front) + [e];
        assert s[..|s| - 1] == SqlFiles(front);
        calc {
          Discover(dir, s);
          AddEntry(Discover(dir, SqlFiles(front)), dir, e);
          AddEntry(Discover(dir, front), dir, e);
        }
      } else {
        assert s == SqlFiles(front);
      }
    }
  }

  lemma DiscoverSnoc(dir: string, entries: seq<DirEntry>, e: DirEntry)
    ensures Discover(dir, entries + [e]) == AddEntry(Discover(dir, entries), dir, e)
  {
    assert (entries + [e])[..|entries|] == entries;
  }

  /** The up and rollback files of a migration not yet listed, appended to a listing, add
      exactly that migration, at the end of the names, with both of its paths. */
  lemma PairOfFiles(dir: string, entries: seq<DirEntry>, name: string)
    requires name != "" && !EndsWith(name, RollbackSuffix)
    requires name !in Discover(dir, entries).infos
    ensures var m := Discover(dir, entries);
      Discover(dir, entries + [DirEntry(name + ".sql", false), DirEntry(name + RollbackSuffix + ".sql", false)])
      == Migrations(m.names + [name], m.infos[name := MigrationInfo(name, PathJoin(dir, name + ".sql"), PathJoin(dir, name + RollbackSuffix + ".sql"), "", "")])
  {
    var e1, e2 := DirEntry(name + ".sql", false), DirEntry(name + RollbackSuffix + ".sql", false);
    var m := Discover(dir, entries);
    DiscoverUp(dir, entries, name);
    var m1 := Discover(dir, entries + [e1]);
    DiscoverRollback(dir, entries + [e1], name);
    AppendTwo(entries, e1, e2);
    var upInfo := MigrationInfo(name, PathJoin(dir, name + ".sql"), "", "", "");
    UpdateTwice(m.infos, name, upInfo, upInfo.(downFilename := PathJoin(dir, name + RollbackSuffix + ".sql")));
  }

  /** Appending the up file of a migration not listed yet. */
  lemma DiscoverUp(dir: string, entries: seq<DirEntry>, name: string)
    requires !EndsWith(name, RollbackSuffix) && name !in Discover(dir, entries).infos
    ensures var m := Discover(dir, entries);
      Discover(dir, entries + [DirEntry(name + ".sql", false)])
      == Migrations(m.names + [name], m.infos[name := MigrationInfo(name, PathJoin(dir, name + ".sql"), "", "", "")])
  {
    DiscoverSnoc(dir, entries, DirEntry(name + ".sql", false));
    var _ := StepUp(Discover(dir, entries), dir, name);
  }

  /** Appending the rollback file of a migration already listed. */
  lemma DiscoverRollback(dir: string, entries: seq<DirEntry>, name: string)
    requires name != "" && name in Discover(dir, entries).infos
    ensures var m := Discover(dir, entries);
      Discover(dir, entries + [DirEntry(name + RollbackSuffix + ".sql", false)])
      == Migrations(m.names, m.infos[name := m.infos[name].(downFilename := PathJoin(dir, name + RollbackSuffix + ".sql"))])
  {
    DiscoverSnoc(dir, entries, DirEntry(name + RollbackSuffix + ".sql", false));
    var _ := StepRollback(Discover(dir, entries), dir, name);
  }

  lemma UpdateTwice<K, V>(mp: map<K, V>, k: K, a: V, b: V)
    ensures mp[k := a][k := b] == mp[k := b]
  {
  }

  lemma AppendTwo<T>(s: seq<T>, a: T, b: T)
    ensures s + [a, b] == (s + [a]) + [b]
  {
  }

  lemma AppendThree<T>(s: seq<T>, a: T, b: T, c: T)
    ensures s + [a, b, c] == (s + [a, b]) + [c]
  {
  }

  lemma StepUp(m: Migrations, dir: string, name: string) returns (m': Migrations)
    requires !EndsWith(name, RollbackSuffix) && name !in m.infos
    ensures m' == AddEntry(m, dir, DirEntry(name + ".sql", false))
    ensures m' == Migrations(m.names + [name], m.infos[name := MigrationInfo(name, PathJoin(dir, name + ".sql"), "", "", "")])
  {
    UpFileCandidate(name);
    m' := AddNewUp(m, dir, DirEntry(name + ".sql", false), name);
  }

  lemma StepRollback(m: Migrations, dir: string, name: string) returns (m': Migrations)
    requires name != "" && name in m.infos
    ensures m' == AddEntry(m, dir, DirEntry(name + RollbackSuffix + ".sql", false))
    ensures m' == Migrations(m.names, m.infos[name := m.infos[name].(downFilename := PathJoin(dir, name + RollbackSuffix + ".sql"))])
  {
    assert Lower(".sql") == ".sql";
    RollbackFileCandidate(name, ".sql");
    m' := AddKnownRollback(m, dir, DirEntry(name + RollbackSuffix + ".sql", false), name);
  }

  /** Scanning the up file of a migration not seen yet. */
  lemma AddNewUp(m: Migrations, dir: string, e: DirEntry, name: string) returns (m': Migrations)
    requires IsSqlFile(e) && Candidate(e) == (name, false) && name !in m.infos
    ensures m' == AddEntry(m, dir, e)
    ensures m' == Migrations(m.names + [name], m.infos[name := MigrationInfo(name, PathJoin(dir, e.name), "", "", "")])
  {
    m' := AddEntry(m, dir, e);
  }

  /** Scanning the rollback file of a migration already seen. */
  lemma AddKnownRollback(m: Migrations, dir: string, e: DirEntry, name: string) returns (m': Migrations)
    requires IsSqlFile(e) && Candidate(e) == (name, true) && name in m.infos
    ensures m' == AddEntry(m, dir, e)
    ensures m' == Migrations(m.names, m.infos[name := m.infos[name].(downFilename := PathJoin(dir, e.name))])
  {
    m' := AddEntry(m, dir, e);
  }

  /** A has both of its files and B only its up file, listed after any other entries:
      discovery adds both, in listing order; B's missing rollback file is found only when
      its SQL is loaded, while A loads when its two files are readable. */
  lemma HalfPairFailsLate(dir: string, entries: seq<DirEntry>, a: string, b: string, fs: FileMap)
    requires a != "" && !EndsWith(a, RollbackSuffix) && !EndsWith(b, RollbackSuffix) && a != b
    requires a !in Discover(dir, entries).infos && b !in Discover(dir, entries).infos
    ensures var m0 := Discover(dir, entries);
      var m := Discover(dir, entries + [DirEntry(a + ".sql", false), DirEntry(a + RollbackSuffix + ".sql", false),
                                        DirEntry(b + ".sql", false)]);
      && m.names == m0.names + [a, b]
      && a in m.infos && b in m.infos && m.infos[b].downFilename == ""
      && LoadSQLFile(m.GetInfo(b), fs).Err?
      && (PathJoin(dir, a + ".sql") in fs && PathJoin(dir, a + RollbackSuffix + ".sql") in fs
          ==> LoadSQLFile(m.GetInfo(a), fs).Ok?)
  {
    var infoA, infoB := DiscoverHalfPair(dir, entries, a, b);
    assert PathJoin(dir, a + ".sql") != "" && PathJoin(dir, a + RollbackSuffix + ".sql") != "";
  }

  /** The shape discovery gives the three entries of HalfPairFailsLate. */
  lemma DiscoverHalfPair(dir: string, entries: seq<DirEntry>, a: string, b: string)
    returns (infoA: MigrationInfo, infoB: MigrationInfo)
    requires a != "" && !EndsWith(a, RollbackSuffix) && !EndsWith(b, RollbackSuffix) && a != b
    requires a !in Discover(dir, entries).infos && b !in Discover(dir, entries).infos
    ensures infoA == MigrationInfo(a, PathJoin(dir, a + ".sql"), PathJoin(dir, a + RollbackSuffix + ".sql"), "", "")
    ensures infoB == MigrationInfo(b, PathJoin(dir, b + ".sql"), "", "", "")
    ensures var m0 := Discover(dir, entries);
      Discover(dir, entries + [DirEntry(a + ".sql", false), DirEntry(a + RollbackSuffix + ".sql", false),
                               DirEntry(b + ".sql", false)])
      == Migrations(m0.names + [a, b], m0.infos[a := infoA][b := infoB])
  {
    infoA := MigrationInfo(a, PathJoin(dir, a + ".sql"), PathJoin(dir, a + RollbackSuffix + ".sql"), "", "");
    infoB := MigrationInfo(b, PathJoin(dir, b + ".sql"), "", "", "");
    var e1, e2, e3 := DirEntry(a + ".sql", false), DirEntry(a + RollbackSuffix + ".sql", false), DirEntry(b + ".sql", false);
    var m0 := Discover(dir, entries);
    PairOfFiles(dir, entries, a);
    DiscoverUp(dir, entries + [e1, e2], b);
    AppendThree(entries, e1, e2, e3);
    AppendTwo(m0.names, a, b);
  }
}
