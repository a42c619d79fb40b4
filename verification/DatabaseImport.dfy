/** Executing a dump on the replica's own server, and what its databases hold afterwards. */
module DatabaseImport {
  import opened Options
  import opened DatabaseDump

  type Tables = map<string, Table>

  /** One connection to the server: its databases, the selected one and the foreign-key switch. */
  datatype Server = Server(dbs: map<string, Tables>, current: Option<string>, checks: bool)

  function RowOf(columns: seq<string>, tuple: Tuple): (row: Row)
    requires |columns| == |tuple|
    ensures forall c :: c in row <==> c in columns
  {
    if columns == [] then map[] else RowOf(columns[1..], tuple[1..])[columns[0] := tuple[0]]
  }

  function RowsOf(columns: seq<string>, tuples: seq<Tuple>): seq<Row>
    requires forall t :: t in tuples ==> |t| == |columns|
  {
    if tuples == [] then [] else [RowOf(columns, tuples[0])] + RowsOf(columns, tuples[1..])
  }

  predicate Referenced(tables: Tables, name: string) {
    exists t :: t in tables && t != name && name in tables[t].schema.refs
  }

  /**
   * One statement. With foreign-key checks on, a referenced table cannot be dropped, a reference to
   * a missing table cannot be created, and rows of a referring table are not accepted here at all.
   */
  function Exec(s: Server, stmt: Stmt): (Server, bool) {
    match stmt
    case SetForeignKeyChecks(on) => (s.(checks := on), true)
    case CreateDatabase(db) => (if db in s.dbs then s else s.(dbs := s.dbs[db := map[]]), true)
    case Use(db) => if db in s.dbs then (s.(current := Some(db)), true) else (s, false)
    case _ =>
      if s.current.None? || s.current.value !in s.dbs then (s, false)
      else
        var r := ExecInDatabase(s.dbs[s.current.value], s.checks, stmt);
        (s.(dbs := s.dbs[s.current.value := r.0]), r.1)
  }

  function ExecInDatabase(tables: Tables, checks: bool, stmt: Stmt): (Tables, bool) {
    match stmt
    case DropTable(t) => if checks && Referenced(tables, t) then (tables, false) else (tables - {t}, true)
    case CreateTable(t, schema) =>
      if t in tables || (checks && !(schema.refs <= tables.Keys + {t})) then (tables, false)
      else (tables[t := Table(schema, [])], true)
    case Insert(t, columns, tuples) =>
      if t !in tables || columns != tables[t].schema.columns || (exists x :: x in tuples && |x| != |columns|)
         || (checks && tables[t].schema.refs != {}) then (tables, false)
      else (tables[t := Table(tables[t].schema, tables[t].rows + RowsOf(columns, tuples))], true)
    case _ => (tables, false)
  }

  /** The import loop stops at the first statement the server rejects. */
  function Execute(s: Server, stmts: seq<Stmt>): (Server, bool)
    decreases |stmts|
  {
    if stmts == [] then (s, true)
    else
      var r := Exec(s, stmts[0]);
      if r.1 then Execute(r.0, stmts[1..]) else r
  }

  class Connection {
    var server: Server

    constructor (server: Server)
      ensures this.server == server
    {
      this.server := server;
    }

    /** The import loop of replicateDatabase(). */
    method Import(stmts: seq<Stmt>) returns (ok: bool)
      modifies this
      ensures (server, ok) == Execute(old(server), stmts)
    {
      hide Exec;
      var i := 0;
      while i < |stmts|
        invariant 0 <= i <= |stmts|
        invariant Execute(server, stmts[i..]) == Execute(old(server), stmts)
      {
        assert stmts[i..][1..] == stmts[i + 1..];
        var r := Exec(server, stmts[i]);
        server := r.0;
        if !r.1 {
          return false;
        }
        i := i + 1;
      }
      ok := true;
    }
  }

  lemma {:induction false} ExecuteTogether(s: Server, a: seq<Stmt>, b: seq<Stmt>)
    ensures Execute(s, a + b) == if Execute(s, a).1 then Execute(Execute(s, a).0, b) else Execute(s, a)
    decreases |a|
  {
    hide Exec;
    if a == [] {
      assert a + b == b;
    } else {
      assert (a + b)[1..] == a[1..] + b;
      ExecuteTogether(Exec(s, a[0]).0, a[1..], b);
    }
  }

  /** A statement the server rejects changes nothing, and what comes after it is not executed. */
  lemma ARejectedStatementEndsTheImport(s: Server, a: seq<Stmt>, x: Stmt, b: seq<Stmt>)
    requires Execute(s, a).1 && !Exec(Execute(s, a).0, x).1
    ensures Execute(s, a + [x] + b) == (Execute(s, a).0, false)
  {
    hide ExecInDatabase;
    var u := Execute(s, a).0;
    RejectedMeansUnchanged(u, x);
    ExecuteTogether(s, a, [x] + b);
    assert a + ([x] + b) == a + [x] + b && ([x] + b)[0] == x;
  }

  lemma RejectedMeansUnchanged(s: Server, x: Stmt)
    ensures !Exec(s, x).1 ==> Exec(s, x).0 == s
  {
    if s.current.Some? && s.current.value in s.dbs {
      assert s.dbs[s.current.value := s.dbs[s.current.value]] == s.dbs;
    }
  }

  // ------------------------------------------------------------------ rows survive

  lemma {:induction false} TuplesRoundTrip(row: Row, columns: seq<string>)
    ensures forall c :: c in columns ==>
              RowOf(columns, TupleOf(row, columns))[c] == if c in row then row[c] else Null
  {
    if columns != [] {
      TuplesRoundTrip(row, columns[1..]);
      assert TupleOf(row, columns)[1..] == TupleOf(row, columns[1..]);
    }
  }

  predicate HasColumns(row: Row, columns: seq<string>) {
    row.Keys == set c | c in columns
  }

  /** Every row has the table's columns. */
  predicate Complete(t: Table) {
    forall i :: 0 <= i < |t.rows| ==> HasColumns(t.rows[i], t.schema.columns)
  }

  lemma {:induction false} RowsRoundTrip(rows: seq<Row>, columns: seq<string>)
    requires forall i :: 0 <= i < |rows| ==> HasColumns(rows[i], columns)
    ensures forall t :: t in TuplesOf(rows, columns) ==> |t| == |columns|
    ensures RowsOf(columns, TuplesOf(rows, columns)) == rows
  {
    if rows != [] {
      RowsRoundTrip(rows[1..], columns);
      TuplesRoundTrip(rows[0], columns);
      var back := RowOf(columns, TupleOf(rows[0], columns));
      assert back.Keys == rows[0].Keys;
      assert back == rows[0];
      assert TuplesOf(rows, columns)[1..] == TuplesOf(rows[1..], columns);
    }
  }

  lemma {:induction false} RowsOfTogether(columns: seq<string>, a: seq<Tuple>, b: seq<Tuple>)
    requires forall t :: t in a + b ==> |t| == |columns|
    ensures (forall t :: t in a ==> |t| == |columns|) && (forall t :: t in b ==> |t| == |columns|)
    ensures RowsOf(columns, a + b) == RowsOf(columns, a) + RowsOf(columns, b)
  {
    assert forall t :: t in a || t in b ==> t in a + b;
    if a == [] {
      assert a + b == b;
    } else {
      assert a + b == [a[0]] + (a[1..] + b);
      RowsOfTogether(columns, a[1..], b);
    }
  }

  /** The same execution seen from inside the selected database. */
  function ExecuteInDatabase(tables: Tables, checks: bool, stmts: seq<Stmt>): (Tables, bool)
    decreases |stmts|
  {
    if stmts == [] then (tables, true)
    else
      var r := ExecInDatabase(tables, checks, stmts[0]);
      if r.1 then ExecuteInDatabase(r.0, checks, stmts[1..]) else r
  }

  predicate WithinDatabase(stmts: seq<Stmt>) {
    forall x :: x in stmts ==> x.DropTable? || x.CreateTable? || x.Insert?
  }

  lemma {:induction false} InsideOneDatabase(s: Server, stmts: seq<Stmt>)
    requires s.current.Some? && s.current.value in s.dbs && WithinDatabase(stmts)
    ensures var r := ExecuteInDatabase(s.dbs[s.current.value], s.checks, stmts);
            Execute(s, stmts) == (s.(dbs := s.dbs[s.current.value := r.0]), r.1)
    decreases |stmts|
  {
    hide ExecInDatabase;
    var db := s.current.value;
    if stmts == [] {
      assert s.dbs[db := s.dbs[db]] == s.dbs;
    } else {
      var r := ExecInDatabase(s.dbs[db], s.checks, stmts[0]);
      var s' := s.(dbs := s.dbs[db := r.0]);
      assert stmts[0] in stmts;
      assert Exec(s, stmts[0]) == (s', r.1);
      if r.1 {
        InsideOneDatabase(s', stmts[1..]);
        var last := ExecuteInDatabase(r.0, s.checks, stmts[1..]).0;
        assert s'.dbs[db := last] == s.dbs[db := last];
      }
    }
  }

  lemma {:induction false} InDatabaseTogether(tables: Tables, checks: bool, a: seq<Stmt>, b: seq<Stmt>)
    ensures ExecuteInDatabase(tables, checks, a + b) ==
            (var r := ExecuteInDatabase(tables, checks, a);
             if r.1 then ExecuteInDatabase(r.0, checks, b) else r)
    decreases |a|
  {
    hide ExecInDatabase;
    if a == [] {
      assert a + b == b;
    } else {
      assert (a + b)[1..] == a[1..] + b;
      InDatabaseTogether(ExecInDatabase(tables, checks, a[0]).0, checks, a[1..], b);
    }
  }

  lemma InsertAppends(tables: Tables, t: string, schema: Schema, rows: seq<Row>, batch: seq<Tuple>)
    requires forall x :: x in batch ==> |x| == |schema.columns|
    ensures ExecInDatabase(tables[t := Table(schema, rows)], false, Insert(t, schema.columns, batch)) ==
            (tables[t := Table(schema, rows + RowsOf(schema.columns, batch))], true)
  {
    hide RowsOf;
    var more := Table(schema, rows + RowsOf(schema.columns, batch));
    assert tables[t := Table(schema, rows)][t := more] == tables[t := more];
  }

  lemma {:induction false} InsertsAppend(tables: Tables, t: string, schema: Schema, rows: seq<Row>,
                                         batches: seq<seq<Tuple>>)
    requires forall x :: x in Flattened(batches) ==> |x| == |schema.columns|
    ensures ExecuteInDatabase(tables[t := Table(schema, rows)], false, Inserts(t, schema.columns, batches)) ==
            (tables[t := Table(schema, rows + RowsOf(schema.columns, Flattened(batches)))], true)
    decreases |batches|
  {
    hide ExecInDatabase, RowsOf;
    var columns := schema.columns;
    if batches == [] {
      NoRows(columns);
      assert rows + [] == rows;
    } else {
      RowsOfTogether(columns, batches[0], Flattened(batches[1..]));
      var more := rows + RowsOf(columns, batches[0]);
      InsertAppends(tables, t, schema, rows, batches[0]);
      InsertsAppend(tables, t, schema, more, batches[1..]);
      assert Inserts(t, columns, batches)[1..] == Inserts(t, columns, batches[1..]);
      assert more + RowsOf(columns, Flattened(batches[1..])) == rows + RowsOf(columns, Flattened(batches));
    }
  }

  lemma NoRows(columns: seq<string>)
    ensures RowsOf(columns, []) == []
  {
  }

  // ------------------------------------------------------------------ one table, one database, all of them

  function Stored(c: Config, db: string, t: NamedTable): Table {
    Table(t.table.schema, if IsExcluded(c, db, t.name) then [] else t.table.rows)
  }

  lemma TableIsReplaced(c: Config, db: string, tables: Tables, t: NamedTable)
    requires Complete(t.table)
    ensures ExecuteInDatabase(tables, false, TableDump(c, db, t)) == (tables[t.name := Stored(c, db, t)], true)
  {
    hide IsExcluded, Inserts;
    var schema := t.table.schema;
    var intro := [DropTable(t.name), CreateTable(t.name, schema)];
    DropThenCreate(tables, t.name, schema);
    var rows := if IsExcluded(c, db, t.name) then [] else TableRows(t);
    InDatabaseTogether(tables, false, intro, rows);
    if !IsExcluded(c, db, t.name) {
      var tuples := TuplesOf(t.table.rows, schema.columns);
      RowsRoundTrip(t.table.rows, schema.columns);
      BatchesHoldTheRows(tuples);
      assert [] + t.table.rows == t.table.rows;
      InsertsAppend(tables, t.name, schema, [], Batches([], tuples));
    }
  }

  lemma DropThenCreate(tables: Tables, t: string, schema: Schema)
    ensures ExecuteInDatabase(tables, false, [DropTable(t), CreateTable(t, schema)])
            == (tables[t := Table(schema, [])], true)
  {
    assert [DropTable(t), CreateTable(t, schema)][1..] == [CreateTable(t, schema)]
        && [CreateTable(t, schema)][1..] == [];
    assert ExecInDatabase(tables, false, DropTable(t)) == (tables - {t}, true);
    assert (tables - {t})[t := Table(schema, [])] == tables[t := Table(schema, [])];
    assert ExecInDatabase(tables - {t}, false, CreateTable(t, schema)) == (tables[t := Table(schema, [])], true);
    assert ExecuteInDatabase(tables - {t}, false, [CreateTable(t, schema)]) == (tables[t := Table(schema, [])], true);
  }

  function WithTables(c: Config, db: string, tables: Tables, ts: seq<NamedTable>): Tables
    decreases |ts|
  {
    if ts == [] then tables else WithTables(c, db, tables[ts[0].name := Stored(c, db, ts[0])], ts[1..])
  }

  lemma {:induction false} TablesAreReplaced(c: Config, db: string, tables: Tables, ts: seq<NamedTable>)
    requires forall i :: 0 <= i < |ts| ==> Complete(ts[i].table)
    ensures ExecuteInDatabase(tables, false, TablesDump(c, db, ts)) == (WithTables(c, db, tables, ts), true)
    decreases |ts|
  {
    hide ExecInDatabase, TableDump, Complete, Stored;
    if ts != [] {
      TableIsReplaced(c, db, tables, ts[0]);
      InDatabaseTogether(tables, false, TableDump(c, db, ts[0]), TablesDump(c, db, ts[1..]));
      TablesAreReplaced(c, db, tables[ts[0].name := Stored(c, db, ts[0])], ts[1..]);
    }
  }

  lemma {:induction false} InsertsAreWithin(table: string, columns: seq<string>, batches: seq<seq<Tuple>>)
    ensures WithinDatabase(Inserts(table, columns, batches))
  {
    if batches != [] {
      InsertsAreWithin(table, columns, batches[1..]);
    }
  }

  lemma {:induction false} TablesDumpIsWithin(c: Config, db: string, ts: seq<NamedTable>)
    ensures WithinDatabase(TablesDump(c, db, ts))
  {
    hide IsExcluded, Inserts;
    if ts != [] {
      InsertsAreWithin(ts[0].name, ts[0].table.schema.columns,
                       Batches([], TuplesOf(ts[0].table.rows, ts[0].table.schema.columns)));
      TablesDumpIsWithin(c, db, ts[1..]);
    }
  }

  function TablesIn(dbs: map<string, Tables>, db: string): Tables {
    if db in dbs then dbs[db] else map[]
  }

  function WithDatabases(c: Config, dbs: map<string, Tables>, ds: seq<Database>): map<string, Tables>
    decreases |ds|
  {
    if ds == [] then dbs
    else if IsSystem(c, ds[0].name) then WithDatabases(c, dbs, ds[1..])
    else WithDatabases(c, dbs[ds[0].name := WithTables(c, ds[0].name, TablesIn(dbs, ds[0].name), ds[0].tables)],
        ds[1..])
  }

  predicate CompleteTables(ts: seq<NamedTable>) {
    forall i :: 0 <= i < |ts| ==> Complete(ts[i].table)
  }

  predicate AllComplete(ds: seq<Database>) {
    forall i :: 0 <= i < |ds| ==> CompleteTables(ds[i].tables)
  }

  lemma CreateThenUse(s: Server, db: string)
    ensures Execute(s, [CreateDatabase(db), Use(db)])
            == (Server(s.dbs[db := TablesIn(s.dbs, db)], Some(db), s.checks), true)
  {
    hide ExecInDatabase;
    assert [CreateDatabase(db), Use(db)][1..] == [Use(db)] && [Use(db)][1..] == [];
    assert db in s.dbs ==> s.dbs[db := s.dbs[db]] == s.dbs;
    var made := s.(dbs := s.dbs[db := TablesIn(s.dbs, db)]);
    assert Exec(s, CreateDatabase(db)) == (made, true);
    assert Exec(made, Use(db)) == (made.(current := Some(db)), true);
    assert Execute(made, [Use(db)]) == (made.(current := Some(db)), true);
  }

  /** CREATE DATABASE, USE, and the tables. */
  lemma DatabaseIsReplaced(c: Config, s: Server, d: Database)
    requires !s.checks && CompleteTables(d.tables)
    ensures Execute(s, [CreateDatabase(d.name), Use(d.name)] + TablesDump(c, d.name, d.tables)) ==
            var tables := WithTables(c, d.name, TablesIn(s.dbs, d.name), d.tables);
            (Server(s.dbs[d.name := tables], Some(d.name), false), true)
  {
    hide Complete, Exec, Execute, ExecuteInDatabase, WithTables, TablesDump, TablesIn, WithinDatabase;
    var tables := TablesIn(s.dbs, d.name);
    var used := Server(s.dbs[d.name := tables], Some(d.name), false);
    CreateThenUse(s, d.name);
    ExecuteTogether(s, [CreateDatabase(d.name), Use(d.name)], TablesDump(c, d.name, d.tables));
    TablesDumpIsWithin(c, d.name, d.tables);
    InsideOneDatabase(used, TablesDump(c, d.name, d.tables));
    TablesAreReplaced(c, d.name, tables, d.tables);
    var after := WithTables(c, d.name, tables, d.tables);
    assert used.dbs[d.name := after] == s.dbs[d.name := after];
  }

  lemma {:induction false} DatabasesAreReplaced(c: Config, s: Server, ds: seq<Database>)
    requires !s.checks && AllComplete(ds)
    ensures var r := Execute(s, DatabasesDump(c, ds)); r.1 && r.0.dbs == WithDatabases(c, s.dbs, ds) && !r.0.checks
    decreases |ds|
  {
    hide Exec, CompleteTables, IsSystem, TablesDump, WithTables, TablesIn;
    if ds != [] {
      if IsSystem(c, ds[0].name) {
        DatabasesAreReplaced(c, s, ds[1..]);
      } else {
        var d := ds[0];
        DatabaseIsReplaced(c, s, d);
        var mine := [CreateDatabase(d.name), Use(d.name)] + TablesDump(c, d.name, d.tables);
        ExecuteTogether(s, mine, DatabasesDump(c, ds[1..]));
        DatabasesAreReplaced(c, Execute(s, mine).0, ds[1..]);
      }
    }
  }

  /** The whole dump executes without a rejected statement, whatever the server held before. */
  lemma DumpExecutes(c: Config, s: Server, ds: seq<Database>)
    requires AllComplete(ds)
    ensures var r := Execute(s, Dump(c, ds)); r.1 && r.0.dbs == WithDatabases(c, s.dbs, ds) && r.0.checks
  {
    hide AllComplete, WithDatabases, DatabasesDump;
    var off, on := [SetForeignKeyChecks(false)], [SetForeignKeyChecks(true)];
    var body := DatabasesDump(c, ds);
    var s0 := s.(checks := false);
    assert off[1..] == [] && on[1..] == [];
    assert Execute(s, off) == (s0, true);
    DatabasesAreReplaced(c, s0, ds);
    ExecuteTogether(s, off, body + on);
    ExecuteTogether(s0, body, on);
    assert off + (body + on) == Dump(c, ds);
  }
}
