/** The SQLite schema migration: a loop over versions inside one transaction. */
module Migration {
  import opened Records

  datatype TableName =
    | Clients | ClientAssertions | AuthorizationCodes | RefreshTokens | ConsentRequests | UpstreamSessions
    | Foreign(name: string)

  datatype Column =
    | IdColumn | NameColumn | RedirectUrisColumn | TokenEndpointAuthColumn | SecretHashColumn
    | PublicKeyPemColumn | AlgorithmColumn | DynamicRegistrationColumn
    | ClientIdColumn | JtiColumn | ExpiresAtColumn | ValueHashColumn | RedirectUriColumn | CodeChallengeColumn
    | ScopeColumn | ResourceColumn | SubjectColumn | NonceColumn | UsedColumn | RevokedColumn | FamilyIdColumn
    | RequestJsonColumn | CodeVerifierColumn | AccessTokenColumn | RefreshTokenColumn | TokenTypeColumn

  datatype Value = Text(text: string) | Integer(number: int)

  type Record = map<Column, Value>

  datatype Table = Table(columns: set<Column>, rows: seq<Record>)

  datatype Database = Database(version: int, tables: map<TableName, Table>)

  /** The statements the migrations and the fresh schema are made of. */
  datatype Statement =
    | AddColumn(table: TableName, column: Column, default: Value)
    | CreateIfNotExists(table: TableName, columns: set<Column>)
    | SetColumn(table: TableName, column: Column, value: Value)

  function ExecuteStatement(tables: map<TableName, Table>, s: Statement): Option<map<TableName, Table>> {
    match s
    case AddColumn(name, column, default) =>
      if name !in tables || column in tables[name].columns then None
      else
        var t := tables[name];
        Some(tables[name := Table(t.columns + {column}, seq(|t.rows|, i requires 0 <= i < |t.rows| => t.rows[i][column := default]))])
    case CreateIfNotExists(name, columns) =>
      Some(if name in tables then tables else tables[name := Table(columns, [])])
    case SetColumn(name, column, value) =>
      if name !in tables || column !in tables[name].columns then None
      else
        var t := tables[name];
        Some(tables[name := Table(t.columns, seq(|t.rows|, i requires 0 <= i < |t.rows| => t.rows[i][column := value]))])
  }

  /** A script stops at its first failing statement. */
  function ExecuteScript(tables: map<TableName, Table>, script: seq<Statement>): Option<map<TableName, Table>>
    decreases |script|
  {
    if script == [] then Some(tables)
    else
      var next := ExecuteStatement(tables, script[0]);
      if next.None? then None else ExecuteScript(next.value, script[1..])
  }

  const CURRENT_SCHEMA_VERSION := 5

  /** The columns each table was first created with. */
  type Layout = TableName -> set<Column>

  function FirstColumns(table: TableName): set<Column> {
    match table
    case Clients => {IdColumn, NameColumn, RedirectUrisColumn, TokenEndpointAuthColumn, SecretHashColumn}
    case ClientAssertions => {ClientIdColumn, JtiColumn, ExpiresAtColumn}
    case AuthorizationCodes =>
      {ValueHashColumn, ClientIdColumn, RedirectUriColumn, CodeChallengeColumn, ScopeColumn, ResourceColumn,
       SubjectColumn, NonceColumn, ExpiresAtColumn, UsedColumn}
    case RefreshTokens =>
      {ValueHashColumn, ClientIdColumn, SubjectColumn, ScopeColumn, ResourceColumn, ExpiresAtColumn, UsedColumn, RevokedColumn}
    case ConsentRequests => {ValueHashColumn, RequestJsonColumn, NonceColumn, ExpiresAtColumn}
    case UpstreamSessions =>
      {SubjectColumn, AccessTokenColumn, RefreshTokenColumn, TokenTypeColumn, ExpiresAtColumn, ScopeColumn}
    case Foreign(_) => {}
  }

  function Migrations(first: Layout, v: int): seq<Statement> {
    if v == 0 then [AddColumn(Clients, PublicKeyPemColumn, Text("")),
                    CreateIfNotExists(ClientAssertions, first(ClientAssertions)),
                    AddColumn(ConsentRequests, CodeVerifierColumn, Text(""))]
    else if v == 1 then [CreateIfNotExists(UpstreamSessions, first(UpstreamSessions))]
    else if v == 2 then [AddColumn(Clients, AlgorithmColumn, Text("RS256"))]
    else if v == 3 then [AddColumn(RefreshTokens, FamilyIdColumn, Text(""))]
    else if v == 4 then [AddColumn(Clients, DynamicRegistrationColumn, Integer(0)),
                         SetColumn(Clients, DynamicRegistrationColumn, Integer(1))]
    else []
  }

  predicate Registered(v: int) {
    0 <= v < CURRENT_SCHEMA_VERSION
  }

  function FreshSchema(first: Layout): seq<Statement> {
    [CreateIfNotExists(Clients, first(Clients) + {PublicKeyPemColumn, AlgorithmColumn, DynamicRegistrationColumn}),
     CreateIfNotExists(ClientAssertions, first(ClientAssertions)),
     CreateIfNotExists(AuthorizationCodes, first(AuthorizationCodes)),
     CreateIfNotExists(RefreshTokens, first(RefreshTokens) + {FamilyIdColumn}),
     CreateIfNotExists(ConsentRequests, first(ConsentRequests) + {CodeVerifierColumn}),
     CreateIfNotExists(UpstreamSessions, first(UpstreamSessions))]
  }

  /** The migrations from version `v` to the current one. */
  function MigrateFrom(first: Layout, tables: map<TableName, Table>, v: int): Option<map<TableName, Table>>
    decreases CURRENT_SCHEMA_VERSION - v
  {
    if v >= CURRENT_SCHEMA_VERSION then Some(tables)
    else if !Registered(v) then None
    else
      var next := ExecuteScript(tables, Migrations(first, v));
      if next.None? then None else MigrateFrom(first, next.value, v + 1)
  }

  /** Opening a database without interruption. */
  function Initialized(db: Database): Option<Database> {
    if Clients !in db.tables then
      var created := ExecuteScript(db.tables, FreshSchema(FirstColumns));
      if created.None? then None else Some(Database(CURRENT_SCHEMA_VERSION, created.value))
    else if db.version >= CURRENT_SCHEMA_VERSION then Some(db)
    else
      var migrated := MigrateFrom(FirstColumns, db.tables, db.version);
      if migrated.None? then None else Some(Database(CURRENT_SCHEMA_VERSION, migrated.value))
  }

  lemma {:induction false} ScriptExtended(tables: map<TableName, Table>, script: seq<Statement>, s: Statement)
    ensures ExecuteScript(tables, script + [s]) ==
            var before := ExecuteScript(tables, script);
            if before.None? then None else ExecuteStatement(before.value, s)
    decreases |script|
  {
    if script == [] {
      assert ([] + [s])[1..] == [];
    } else {
      assert (script + [s])[1..] == script[1..] + [s];
      var next := ExecuteStatement(tables, script[0]);
      if next.Some? {
        ScriptExtended(next.value, script[1..], s);
      }
    }
  }

  class SQLiteDatabase {
    var db: Database

    constructor (initial: Database)
      ensures db == initial
    {
      db := initial;
    }

    /** Every statement runs on the transaction's copy; only the commit touches the database. */
    method Migrate() returns (ok: bool)
      modifies this
      ensures
        var start := old(db);
        if start.version >= CURRENT_SCHEMA_VERSION then ok && db == start
        else
          var migrated := MigrateFrom(FirstColumns, start.tables, start.version);
          ok == migrated.Some? && db == if ok then Database(CURRENT_SCHEMA_VERSION, migrated.value) else start
    {
      var version := db.version;
      if version >= CURRENT_SCHEMA_VERSION {
        return true;
      }
      var tx := db.tables;
      var v := version;
      while v < CURRENT_SCHEMA_VERSION
        invariant version <= v <= CURRENT_SCHEMA_VERSION
        invariant MigrateFrom(FirstColumns, db.tables, version) == MigrateFrom(FirstColumns, tx, v)
      {
        if !Registered(v) {
          return false;
        }
        var result := ExecuteScript(tx, Migrations(FirstColumns, v));
        if result.None? {
          return false;
        }
        tx := result.value;
        v := v + 1;
      }
      db := Database(CURRENT_SCHEMA_VERSION, tx);
      return true;
    }

    /** A database without a clients table gets the fresh schema, statement by
        statement, and then its version; nothing joins these writes, so the process
        may stop after `executed` statements, or before the version is written. */
    method Initialize(executed: nat, stamped: bool) returns (ok: bool)
      modifies this
      ensures
        var start, script := old(db), FreshSchema(FirstColumns);
        if Clients in start.tables && start.version >= CURRENT_SCHEMA_VERSION then ok && db == start
        else if Clients in start.tables then
          var migrated := MigrateFrom(FirstColumns, start.tables, start.version);
          ok == migrated.Some? && db == if ok then Database(CURRENT_SCHEMA_VERSION, migrated.value) else start
        else
          && ok == (|script| <= executed && stamped)
          && Some(db.tables) == ExecuteScript(start.tables, if executed < |script| then script[..executed] else script)
          && db.version == if ok then CURRENT_SCHEMA_VERSION else start.version
    {
      if Clients in db.tables {
        ok := Migrate();
        return;
      }
      var script := FreshSchema(FirstColumns);
      var done := 0;
      while done < |script| && done < executed
        invariant done <= |script| && done <= executed && db.version == old(db).version
        invariant ExecuteScript(old(db).tables, script[..done]) == Some(db.tables)
        decreases |script| - done
      {
        ScriptExtended(old(db).tables, script[..done], script[done]);
        assert script[..done + 1] == script[..done] + [script[done]];
        db := db.(tables := ExecuteStatement(db.tables, script[done]).value);
        done := done + 1;
      }
      assert script[..|script|] == script;
      if done < |script| || !stamped {
        return false;
      }
      db := db.(version := CURRENT_SCHEMA_VERSION);
      return true;
    }
  }

  // ---- what the loop preserves ----

  /** The version in which a table of the schema first appears. */
  function Since(table: TableName): int {
    if table == ClientAssertions then 1 else if table == UpstreamSessions then 2 else 0
  }

  /** The columns added to a table up to version `v`. */
  function AddedBy(table: TableName, v: int): set<Column> {
    if table == Clients then
      (if v >= 1 then {PublicKeyPemColumn} else {}) + (if v >= 3 then {AlgorithmColumn} else {})
      + (if v >= 5 then {DynamicRegistrationColumn} else {})
    else if table == RefreshTokens then (if v >= 4 then {FamilyIdColumn} else {})
    else if table == ConsentRequests then (if v >= 1 then {CodeVerifierColumn} else {})
    else {}
  }

  ghost predicate Conforms(t: Table, columns: set<Column>) {
    t.columns == columns && forall i :: 0 <= i < |t.rows| ==> t.rows[i].Keys == columns
  }

  /** A database as version `v` left it, with any rows, and possibly foreign tables. */
  ghost predicate AtVersion(first: Layout, tables: map<TableName, Table>, v: int) {
    forall t: TableName :: !t.Foreign? ==>
      (t in tables <==> Since(t) <= v) && (t in tables ==> Conforms(tables[t], first(t) + AddedBy(t, v)))
  }

  /** No table started out with a column that is added later. */
  ghost predicate AddsNew(first: Layout) {
    forall t: TableName :: first(t) !! AddedBy(t, CURRENT_SCHEMA_VERSION)
  }

  /** What a column missing from a row is filled with; a pre-existing client counts
      as dynamically registered. */
  function Defaults(table: TableName): Record {
    if table == Clients then
      map[PublicKeyPemColumn := Text(""), AlgorithmColumn := Text("RS256"), DynamicRegistrationColumn := Integer(1)]
    else if table == RefreshTokens then map[FamilyIdColumn := Text("")]
    else if table == ConsentRequests then map[CodeVerifierColumn := Text("")]
    else map[]
  }

  /** The row with its missing columns filled; its own values win. */
  function Completed(table: TableName, row: Record): Record {
    Defaults(table) + row
  }

  function CompletedRows(table: TableName, rows: seq<Record>): seq<Record> {
    seq(|rows|, i requires 0 <= i < |rows| => Completed(table, rows[i]))
  }

  ghost predicate SameCompletion(before: map<TableName, Table>, after: map<TableName, Table>) {
    && before.Keys <= after.Keys
    && (forall t :: t in before && !t.Foreign? ==>
          CompletedRows(t, after[t].rows) == CompletedRows(t, before[t].rows))
    && (forall t :: t in before && t.Foreign? ==> after[t] == before[t])
    && (forall t :: t in after && t !in before ==> !t.Foreign? && after[t].rows == [])
  }

  /** Filling a missing column with its default completes to the same row. */
  lemma FilledColumn(table: TableName, rows: seq<Record>, filled: seq<Record>, column: Column)
    requires column in Defaults(table) && |filled| == |rows|
    requires forall i :: 0 <= i < |rows| ==>
      column !in rows[i] && filled[i] == rows[i][column := Defaults(table)[column]]
    ensures CompletedRows(table, filled) == CompletedRows(table, rows)
  {
    forall i | 0 <= i < |rows| ensures Completed(table, filled[i]) == Completed(table, rows[i]) {
    }
  }

  lemma AddDefault(tables: map<TableName, Table>, table: TableName, column: Column) returns (next: map<TableName, Table>)
    requires table in tables && column in Defaults(table) && column !in tables[table].columns
    requires Conforms(tables[table], tables[table].columns)
    ensures ExecuteStatement(tables, AddColumn(table, column, Defaults(table)[column])) == Some(next)
    ensures next.Keys == tables.Keys && (forall t :: t in tables && t != table ==> next[t] == tables[t])
    ensures Conforms(next[table], tables[table].columns + {column})
    ensures SameCompletion(tables, next)
  {
    next := ExecuteStatement(tables, AddColumn(table, column, Defaults(table)[column])).value;
    FilledColumn(table, tables[table].rows, next[table].rows, column);
  }

  /** Version 4 adds the registration flag as 0 and sets every row to 1. */
  lemma {:induction false} AddAndSet(first: Layout, tables: map<TableName, Table>)
    requires Clients in tables && DynamicRegistrationColumn !in tables[Clients].columns
    requires Conforms(tables[Clients], tables[Clients].columns)
    ensures
      var next := ExecuteScript(tables, Migrations(first, 4));
      && next.Some? && next.value.Keys == tables.Keys
      && (forall t :: t in tables && t != Clients ==> next.value[t] == tables[t])
      && Conforms(next.value[Clients], tables[Clients].columns + {DynamicRegistrationColumn})
      && CompletedRows(Clients, next.value[Clients].rows) == CompletedRows(Clients, tables[Clients].rows)
  {
    var script := Migrations(first, 4);
    var t1 := ExecuteStatement(tables, script[0]).value;
    var t2 := ExecuteStatement(t1, script[1]).value;
    assert script[1..][1..] == [];
    assert ExecuteScript(t1, script[1..]) == Some(t2);
    FilledColumn(Clients, tables[Clients].rows, t2[Clients].rows, DynamicRegistrationColumn);
  }

  /** The next version's shape, and every row still completes to the same row. */
  ghost predicate Advanced(first: Layout, tables: map<TableName, Table>, next: Option<map<TableName, Table>>, v: int) {
    next.Some? && AtVersion(first, next.value, v) && SameCompletion(tables, next.value)
  }

  lemma {:induction false} ThreeStatements(t0: map<TableName, Table>, t1: map<TableName, Table>, t2: map<TableName, Table>,
                        t3: map<TableName, Table>, script: seq<Statement>)
    requires |script| == 3
    requires ExecuteStatement(t0, script[0]) == Some(t1) && ExecuteStatement(t1, script[1]) == Some(t2) && ExecuteStatement(t2, script[2]) == Some(t3)
    ensures ExecuteScript(t0, script) == Some(t3)
  {
    assert ExecuteScript(t2, script[1..][1..]) == Some(t3);
    assert ExecuteScript(t1, script[1..]) == Some(t3);
  }

  lemma AddTable(tables: map<TableName, Table>, table: TableName, columns: set<Column>)
    requires table !in tables && !table.Foreign?
    ensures ExecuteStatement(tables, CreateIfNotExists(table, columns)) == Some(tables[table := Table(columns, [])])
    ensures SameCompletion(tables, tables[table := Table(columns, [])])
  {
  }

  lemma ReachedVersion1(first: Layout, tables: map<TableName, Table>, next: map<TableName, Table>)
    requires AtVersion(first, tables, 0) && next.Keys == tables.Keys + {ClientAssertions}
    requires Conforms(next[Clients], first(Clients) + {PublicKeyPemColumn})
    requires Conforms(next[ConsentRequests], first(ConsentRequests) + {CodeVerifierColumn})
    requires next[ClientAssertions] == Table(first(ClientAssertions), [])
    requires forall t :: t in tables && t != Clients && t != ConsentRequests ==> next[t] == tables[t]
    ensures AtVersion(first, next, 1)
  {
  }

  lemma FirstStatements(first: Layout, tables: map<TableName, Table>) returns (t1: map<TableName, Table>, t2: map<TableName, Table>)
    requires AddsNew(first) && AtVersion(first, tables, 0)
    ensures ExecuteStatement(tables, Migrations(first, 0)[0]) == Some(t1) && ExecuteStatement(t1, Migrations(first, 0)[1]) == Some(t2)
    ensures SameCompletion(tables, t2) && t2.Keys == tables.Keys + {ClientAssertions}
    ensures Conforms(t2[Clients], first(Clients) + {PublicKeyPemColumn})
    ensures t2[ClientAssertions] == Table(first(ClientAssertions), [])
    ensures forall t :: t in tables && t != Clients ==> t2[t] == tables[t]
  {
    t1 := AddDefault(tables, Clients, PublicKeyPemColumn);
    AddTable(t1, ClientAssertions, first(ClientAssertions));
    t2 := t1[ClientAssertions := Table(first(ClientAssertions), [])];
    CompletionTransitive(tables, t1, t2);
  }

  lemma FirstScript(first: Layout, tables: map<TableName, Table>) returns (t3: map<TableName, Table>)
    requires AddsNew(first) && AtVersion(first, tables, 0)
    ensures ExecuteScript(tables, Migrations(first, 0)) == Some(t3)
    ensures SameCompletion(tables, t3) && t3.Keys == tables.Keys + {ClientAssertions}
    ensures Conforms(t3[Clients], first(Clients) + {PublicKeyPemColumn})
    ensures Conforms(t3[ConsentRequests], first(ConsentRequests) + {CodeVerifierColumn})
    ensures t3[ClientAssertions] == Table(first(ClientAssertions), [])
    ensures forall t :: t in tables && t != Clients && t != ConsentRequests ==> t3[t] == tables[t]
  {
    var t1, t2 := FirstStatements(first, tables);
    t3 := AddDefault(t2, ConsentRequests, CodeVerifierColumn);
    ThreeStatements(tables, t1, t2, t3, Migrations(first, 0));
    CompletionTransitive(tables, t2, t3);
  }

  lemma {:induction false} Migration0(first: Layout, tables: map<TableName, Table>)
    requires AddsNew(first) && AtVersion(first, tables, 0)
    ensures Advanced(first, tables, ExecuteScript(tables, Migrations(first, 0)), 1)
  {
    var next := FirstScript(first, tables);
    ReachedVersion1(first, tables, next);
  }

  lemma {:induction false} Migration1(first: Layout, tables: map<TableName, Table>)
    requires AddsNew(first) && AtVersion(first, tables, 1)
    ensures Advanced(first, tables, ExecuteScript(tables, Migrations(first, 1)), 2)
  {
    var after := tables[UpstreamSessions := Table(first(UpstreamSessions), [])];
    assert ExecuteScript(tables, Migrations(first, 1)) == Some(after);
  }

  lemma {:induction false} Migration2(first: Layout, tables: map<TableName, Table>)
    requires AddsNew(first) && AtVersion(first, tables, 2)
    ensures Advanced(first, tables, ExecuteScript(tables, Migrations(first, 2)), 3)
  {
    var next := AddDefault(tables, Clients, AlgorithmColumn);
    assert Migrations(first, 2)[1..] == [];
  }

  lemma {:induction false} Migration3(first: Layout, tables: map<TableName, Table>)
    requires AddsNew(first) && AtVersion(first, tables, 3)
    ensures Advanced(first, tables, ExecuteScript(tables, Migrations(first, 3)), 4)
  {
    var next := AddDefault(tables, RefreshTokens, FamilyIdColumn);
    assert Migrations(first, 3)[1..] == [];
  }

  lemma {:induction false} Migration4(first: Layout, tables: map<TableName, Table>)
    requires AddsNew(first) && AtVersion(first, tables, 4)
    ensures Advanced(first, tables, ExecuteScript(tables, Migrations(first, 4)), 5)
  {
    AddAndSet(first, tables);
  }

  lemma {:induction false} OneMigration(first: Layout, tables: map<TableName, Table>, v: int)
    requires AddsNew(first) && Registered(v) && AtVersion(first, tables, v)
    ensures Advanced(first, tables, ExecuteScript(tables, Migrations(first, v)), v + 1)
  {
    match v
    case 0 => Migration0(first, tables);
    case 1 => Migration1(first, tables);
    case 2 => Migration2(first, tables);
    case 3 => Migration3(first, tables);
    case _ => Migration4(first, tables);
  }

  lemma CompletionTransitive(a: map<TableName, Table>, b: map<TableName, Table>, c: map<TableName, Table>)
    requires SameCompletion(a, b) && SameCompletion(b, c)
    ensures SameCompletion(a, c)
  {
    forall t | t in c && t !in a ensures !t.Foreign? && c[t].rows == [] {
      if t in b {
        assert |CompletedRows(t, c[t].rows)| == |CompletedRows(t, b[t].rows)|;
      }
    }
  }

  ghost predicate KeptByScript(first: Layout, kept: (map<TableName, Table>, int) -> bool, tables: map<TableName, Table>, v: int) {
    kept(tables, v) ==>
      var next := ExecuteScript(tables, Migrations(first, v));
      next.Some? && kept(next.value, v + 1)
  }

  /** The loop rule: what every version's script keeps, the whole migration keeps. */
  lemma {:induction false} LoopKeeps(first: Layout, kept: (map<TableName, Table>, int) -> bool, tables: map<TableName, Table>, v: int)
    requires forall t, w :: Registered(w) ==> KeptByScript(first, kept, t, w)
    requires 0 <= v <= CURRENT_SCHEMA_VERSION && kept(tables, v)
    ensures var final := MigrateFrom(first, tables, v);
      final.Some? && kept(final.value, CURRENT_SCHEMA_VERSION)
    decreases CURRENT_SCHEMA_VERSION - v
  {
    if v < CURRENT_SCHEMA_VERSION {
      assert KeptByScript(first, kept, tables, v);
      LoopKeeps(first, kept, ExecuteScript(tables, Migrations(first, v)).value, v + 1);
    }
  }

  lemma {:induction false} MigrateFromCompletes(first: Layout, tables: map<TableName, Table>, v: int)
    requires AddsNew(first) && 0 <= v <= CURRENT_SCHEMA_VERSION && AtVersion(first, tables, v)
    ensures Advanced(first, tables, MigrateFrom(first, tables, v), CURRENT_SCHEMA_VERSION)
  {
    var kept := (t: map<TableName, Table>, w: int) => AtVersion(first, t, w) && SameCompletion(tables, t);
    forall t, w | Registered(w) ensures KeptByScript(first, kept, t, w) {
      if kept(t, w) {
        OneMigration(first, t, w);
        CompletionTransitive(tables, t, ExecuteScript(t, Migrations(first, w)).value);
      }
    }
    LoopKeeps(first, kept, tables, v);
  }

  lemma FirstColumnsAddNew()
    ensures AddsNew(FirstColumns)
  {
  }

  lemma CompleteRows(t: TableName, table: Table)
    requires Conforms(table, table.columns) && Defaults(t).Keys <= table.columns
    ensures CompletedRows(t, table.rows) == table.rows
  {
    forall i | 0 <= i < |table.rows| ensures Completed(t, table.rows[i]) == table.rows[i] {
    }
  }

  ghost predicate DataPreserved(first: Layout, tables: map<TableName, Table>, final: map<TableName, Table>, t: TableName) {
    if t.Foreign? then (t in final <==> t in tables) && (t in tables ==> final[t] == tables[t])
    else t in final
         && final[t].columns == first(t) + AddedBy(t, CURRENT_SCHEMA_VERSION)
         && final[t].rows == if t in tables then CompletedRows(t, tables[t].rows) else []
  }

  lemma {:induction false} MigrationPreservesLayout(first: Layout, tables: map<TableName, Table>, v: int, t: TableName)
    requires AddsNew(first) && Registered(v) && AtVersion(first, tables, v)
    ensures var final := MigrateFrom(first, tables, v);
      final.Some? && DataPreserved(first, tables, final.value, t)
  {
    MigrateFromCompletes(first, tables, v);
    var final := MigrateFrom(first, tables, v).value;
    if !t.Foreign? {
      assert Defaults(t).Keys == AddedBy(t, CURRENT_SCHEMA_VERSION);
      CompleteRows(t, final[t]);
    }
  }

  /** From every earlier schema version and any rows, migration succeeds; every table
      has the current columns; every row is the old row, value by value, with its
      missing columns at their defaults and every pre-existing client marked
      dynamically registered; tables new to the database are empty, and foreign
      tables are untouched. */
  lemma {:induction false} MigrationPreservesData(tables: map<TableName, Table>, v: int, t: TableName)
    requires Registered(v) && AtVersion(FirstColumns, tables, v)
    ensures var final := MigrateFrom(FirstColumns, tables, v);
      final.Some? && DataPreserved(FirstColumns, tables, final.value, t)
  {
    FirstColumnsAddNew();
    MigrationPreservesLayout(FirstColumns, tables, v, t);
  }

  /** What completion means cell by cell: old values stay, and only defaults are new. */
  lemma CompletedCells(table: TableName, row: Record, column: Column)
    ensures column in Completed(table, row) <==> column in row || column in Defaults(table)
    ensures column in row ==> Completed(table, row)[column] == row[column]
    ensures column !in row && column in Defaults(table) ==> Completed(table, row)[column] == Defaults(table)[column]
    ensures table == Clients && DynamicRegistrationColumn !in row ==>
      Completed(table, row)[DynamicRegistrationColumn] == Integer(1)
  {
  }

  lemma {:induction false} CreatesAll(tables: map<TableName, Table>, script: seq<Statement>, t: TableName)
    requires forall i :: 0 <= i < |script| ==> script[i].CreateIfNotExists?
    requires forall i, j :: 0 <= i < j < |script| ==> script[i].table != script[j].table
    ensures
      var created := ExecuteScript(tables, script);
      && created.Some?
      && (t in created.value <==> t in tables || exists i :: 0 <= i < |script| && script[i].table == t)
      && (t in tables ==> created.value[t] == tables[t])
      && (forall i :: 0 <= i < |script| && script[i].table == t && t !in tables ==> created.value[t] == Table(script[i].columns, []))
    decreases |script|
  {
    if script != [] {
      var next := ExecuteStatement(tables, script[0]).value;
      CreatesAll(next, script[1..], t);
      assert forall i :: 0 < i < |script| ==> script[i] == script[1..][i - 1];
      if exists i :: 0 <= i < |script| && script[i].table == t {
        var i :| 0 <= i < |script| && script[i].table == t;
        if i > 0 { assert script[1..][i - 1].table == t; }
      }
    }
  }

  /** A fresh database has exactly the tables and columns of a migrated one. */
  lemma {:induction false} FreshMatchesMigrated(tables: map<TableName, Table>, v: int, t: TableName)
    requires Registered(v) && AtVersion(FirstColumns, tables, v) && !t.Foreign?
    ensures
      var created, migrated := ExecuteScript(map[], FreshSchema(FirstColumns)), MigrateFrom(FirstColumns, tables, v);
      && created.Some? && migrated.Some? && t in created.value && t in migrated.value
      && created.value[t] == Table(migrated.value[t].columns, [])
  {
    MigrationPreservesData(tables, v, t);
    FreshTable(FirstColumns, t);
  }

  lemma FreshTable(first: Layout, t: TableName)
    requires !t.Foreign?
    ensures
      var created := ExecuteScript(map[], FreshSchema(first));
      created.Some? && t in created.value && created.value[t] == Table(first(t) + AddedBy(t, CURRENT_SCHEMA_VERSION), [])
  {
    var script := FreshSchema(first);
    CreatesAll(map[], script, t);
    var i := if t == Clients then 0 else if t == ClientAssertions then 1 else if t == AuthorizationCodes then 2
             else if t == RefreshTokens then 3 else if t == ConsentRequests then 4 else 5;
    assert script[i].table == t;
    assert script[i].columns == first(t) + AddedBy(t, CURRENT_SCHEMA_VERSION);
  }

  /** Opening a database of any earlier version succeeds and keeps its data; opening it
      once more changes nothing. */
  lemma {:induction false} OpeningPreservesData(start: Database, t: TableName)
    requires Registered(start.version) && AtVersion(FirstColumns, start.tables, start.version)
    ensures var after := Initialized(start);
      && after.Some? && after.value.version == CURRENT_SCHEMA_VERSION
      && DataPreserved(FirstColumns, start.tables, after.value.tables, t)
      && Initialized(after.value) == after
  {
    MigrationPreservesData(start.tables, start.version, t);
    MigrationPreservesData(start.tables, start.version, Clients);
  }

  // ---- opening again after an interruption ----

  /** The clients table has its last column already. */
  predicate Registers(tables: map<TableName, Table>) {
    Clients in tables && DynamicRegistrationColumn in tables[Clients].columns
  }

  lemma {:induction false} ScriptKeepsRegistering(tables: map<TableName, Table>, script: seq<Statement>)
    requires Registers(tables)
    ensures var after := ExecuteScript(tables, script); after.Some? ==> Registers(after.value)
    decreases |script|
  {
    if script != [] && ExecuteStatement(tables, script[0]).Some? {
      ScriptKeepsRegistering(ExecuteStatement(tables, script[0]).value, script[1..]);
    }
  }

  /** Such a table cannot be migrated: version 4 adds the column once more. */
  lemma {:induction false} NeverMigrated(first: Layout, tables: map<TableName, Table>, v: int)
    requires Registers(tables) && v < CURRENT_SCHEMA_VERSION
    ensures MigrateFrom(first, tables, v).None?
    decreases CURRENT_SCHEMA_VERSION - v
  {
    if Registered(v) {
      var next := ExecuteScript(tables, Migrations(first, v));
      if v == 4 {
        assert ExecuteStatement(tables, Migrations(first, 4)[0]).None?;
      } else if next.Some? {
        ScriptKeepsRegistering(tables, Migrations(first, v));
        NeverMigrated(first, next.value, v + 1);
      }
    }
  }

  /** A creation interrupted after `executed` statements of the fresh schema, all of
      them included: the next opening succeeds exactly when nothing had been created
      yet or the file claimed a current version from the start. In the second case it
      accepts the tables as they are; otherwise no later opening succeeds either,
      because a failed opening leaves the database as it was. */
  lemma ReopenedExactly(start: Database, executed: nat)
    requires Clients !in start.tables && executed <= |FreshSchema(FirstColumns)|
    ensures
      var created := ExecuteScript(start.tables, FreshSchema(FirstColumns)[..executed]);
      && created.Some?
      && var left := start.(tables := created.value);
         && (Initialized(left).Some? <==> executed == 0 || start.version >= CURRENT_SCHEMA_VERSION)
         && (executed > 0 && start.version >= CURRENT_SCHEMA_VERSION ==> Initialized(left) == Some(left))
         && (executed == 0 ==> left == start)
  {
    var script := FreshSchema(FirstColumns);
    CreatesAll(start.tables, script[..executed], Clients);
    CreatesAll(start.tables, script, Clients);
    if executed > 0 {
      var tables := ExecuteScript(start.tables, script[..executed]).value;
      assert script[..executed][0].table == Clients;
      assert Registers(tables);
      if start.version < CURRENT_SCHEMA_VERSION {
        NeverMigrated(FirstColumns, tables, start.version);
      }
    }
  }
}
