/** The configuration of a repository (config.go): the databases of blueprint.json and the
    default that an entry without a type is a MySQL database. */
module Config {

  /** One entry of the databases list of blueprint.json. */
  datatype DBConfig = DBConfig(dbType: string, host: string, port: nat, user: string, pass: string, name: string)

  const DefaultDBType: string := "mysql"

  /** The default applied to one entry: an empty type becomes "mysql"; every other field, and
      a type that is given, stay as they were. */
  function WithDefaultType(c: DBConfig): (r: DBConfig)
    ensures r.dbType != ""
    ensures c.dbType == "" ==> r.dbType == DefaultDBType
    ensures c.dbType != "" ==> r == c
    ensures r == c.(dbType := r.dbType)
  {
    if c.dbType == "" then c.(dbType := DefaultDBType) else c
  }

  /** Applying the default twice is applying it once. */
  lemma WithDefaultTypeIdempotent(c: DBConfig)
    ensures WithDefaultType(WithDefaultType(c)) == WithDefaultType(c)
  {
  }

  /** The loop of loadJsonConfig over the parsed entries, changing them in place. */
  method ApplyTypeDefaults(databases: array<DBConfig>)
    modifies databases
    ensures databases[..] == Defaulted(old(databases[..]))
  {
    for i := 0 to databases.Length
      invariant forall k :: 0 <= k < i ==> databases[k] == WithDefaultType(old(databases[k]))
      invariant forall k :: i <= k < databases.Length ==> databases[k] == old(databases[k])
    {
      if databases[i].dbType == "" {
        databases[i] := databases[i].(dbType := DefaultDBType);
      }
    }
    assert databases[..] == Defaulted(old(databases[..]));
  }

  /** Every entry names a type. */
  predicate Typed(databases: seq<DBConfig>) {
    forall i :: 0 <= i < |databases| ==> databases[i].dbType != ""
  }

  /** The defaults of a whole list, as a value: afterwards every entry names a type. */
  function Defaulted(databases: seq<DBConfig>): (r: seq<DBConfig>)
    ensures |r| == |databases| && Typed(r)
  {
    seq(|databases|, i requires 0 <= i < |databases| => WithDefaultType(databases[i]))
  }

  /** Defaulting keeps the entries in place: each gets a type, keeps the type it had, and
      keeps every other field. */
  lemma DefaultedKeepsFields(databases: seq<DBConfig>)
    ensures var r := Defaulted(databases);
      forall i :: 0 <= i < |databases| ==>
        && r[i].dbType != ""
        && (databases[i].dbType != "" ==> r[i] == databases[i])
        && (databases[i].dbType == "" ==> r[i].dbType == DefaultDBType)
        && r[i] == databases[i].(dbType := r[i].dbType)
  {
  }

  /** A list whose entries all name a type is left as it is. */
  lemma {:induction false} DefaultedTyped(databases: seq<DBConfig>)
    requires Typed(databases)
    ensures Defaulted(databases) == databases
  {
    var r := Defaulted(databases);
    forall i | 0 <= i < |databases|
      ensures r[i] == databases[i]
    {
      assert databases[i].dbType != "";
    }
  }
}
