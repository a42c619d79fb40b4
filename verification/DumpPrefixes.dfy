/** A dump that arrives only in part: the master closes the response early and the replica imports what came. */
module DumpPrefixes {
  import opened Options
  import opened DatabaseDump
  import opened DatabaseImport
  import opened DumpLaws

  function TableAt(s: Server, db: string, t: string): Option<Table> {
    if db in s.dbs && t in s.dbs[db] then Some(s.dbs[db][t]) else None
  }

  // ------------------------------------------------------------------ statements about other tables

  function TableOf(x: Stmt): Option<string> {
    match x
    case DropTable(t) => Some(t)
    case CreateTable(t, _) => Some(t)
    case Insert(t, _, _) => Some(t)
    case _ => None
  }

  function Selected(current: Option<string>, x: Stmt): Option<string> {
    if x.Use? then Some(x.db) else current
  }

  function SelectedAfter(current: Option<string>, stmts: seq<Stmt>): Option<string>
    decreases |stmts|
  {
    if stmts == [] then current else SelectedAfter(Selected(current, stmts[0]), stmts[1..])
  }

  /** None of the statements is about table `t` of database `db`. */
  predicate Avoids(current: Option<string>, stmts: seq<Stmt>, db: string, t: string)
    decreases |stmts|
  {
    stmts == [] ||
    (&& !(current == Some(db) && TableOf(stmts[0]) == Some(t))
     && Avoids(Selected(current, stmts[0]), stmts[1..], db, t))
  }

  lemma OneAvoids(s: Server, x: Stmt, db: string, t: string)
    requires !(s.current == Some(db) && TableOf(x) == Some(t))
    ensures TableAt(Exec(s, x).0, db, t) == TableAt(s, db, t)
    ensures Exec(s, x).1 ==> Exec(s, x).0.current == Selected(s.current, x)
  {
  }

  lemma {:induction false} AvoidingLeaves(s: Server, stmts: seq<Stmt>, db: string, t: string)
    requires Avoids(s.current, stmts, db, t)
    ensures TableAt(Execute(s, stmts).0, db, t) == TableAt(s, db, t)
    decreases |stmts|
  {
    hide Exec, TableAt;
    if stmts != [] {
      OneAvoids(s, stmts[0], db, t);
      if Exec(s, stmts[0]).1 {
        AvoidingLeaves(Exec(s, stmts[0]).0, stmts[1..], db, t);
      }
    }
  }

  lemma {:induction false} AvoidTogether(current: Option<string>, a: seq<Stmt>, b: seq<Stmt>, db: string, t: string)
    ensures Avoids(current, a + b, db, t) <==>
            Avoids(current, a, db, t) && Avoids(SelectedAfter(current, a), b, db, t)
    ensures SelectedAfter(current, a + b) == SelectedAfter(SelectedAfter(current, a), b)
    decreases |a|
  {
    if a == [] {
      assert a + b == b;
    } else {
      assert (a + b)[1..] == a[1..] + b;
      AvoidTogether(Selected(current, a[0]), a[1..], b, db, t);
    }
  }

  lemma {:induction false} InsertsAvoid(current: Option<string>, name: string, columns: seq<string>,
                                        bs: seq<seq<Tuple>>,
                                        db: string, t: string)
    requires current != Some(db) || name != t
    ensures Avoids(current, Inserts(name, columns, bs), db, t)
    ensures SelectedAfter(current, Inserts(name, columns, bs)) == current
    decreases |bs|
  {
    if bs != [] {
      InsertsAvoid(current, name, columns, bs[1..], db, t);
      assert Inserts(name, columns, bs)[1..] == Inserts(name, columns, bs[1..]);
    }
  }

  lemma TableDumpAvoids(c: Config, current: Option<string>, own: string, x: NamedTable, db: string, t: string)
    requires current != Some(db) || x.name != t
    ensures Avoids(current, TableDump(c, own, x), db, t) && SelectedAfter(current, TableDump(c, own, x)) == current
  {
    hide IsExcluded, TuplesOf, Batches;
    var columns := x.table.schema.columns;
    var intro := [DropTable(x.name), CreateTable(x.name, x.table.schema)];
    TwoStatements(current, intro[0], intro[1], db, t);
    InsertsAvoid(current, x.name, columns, Batches([], TuplesOf(x.table.rows, columns)), db, t);
    AvoidTogether(current, intro, if IsExcluded(c, own, x.name) then [] else TableRows(x), db, t);
  }

  lemma {:induction false} TablesDumpAvoids(c: Config, current: Option<string>, own: string, ts: seq<NamedTable>,
                                            db: string, t: string)
    requires current != Some(db) || !HasTable(ts, t)
    ensures Avoids(current, TablesDump(c, own, ts), db, t) && SelectedAfter(current, TablesDump(c, own, ts)) == current
    decreases |ts|
  {
    hide TableDump, Avoids;
    if ts == [] {
      NothingAvoids(current, db, t);
    } else {
      assert HasTable(ts[1..], t) ==> HasTable(ts, t) by {
        assert forall i :: 0 <= i < |ts[1..]| ==> ts[1..][i] == ts[i + 1];
      }
      TableDumpAvoids(c, current, own, ts[0], db, t);
      TablesDumpAvoids(c, current, own, ts[1..], db, t);
      AvoidTogether(current, TableDump(c, own, ts[0]), TablesDump(c, own, ts[1..]), db, t);
    }
  }

  lemma NothingAvoids(current: Option<string>, db: string, t: string)
    ensures Avoids(current, [], db, t) && SelectedAfter(current, []) == current
  {
  }

  lemma IntroAvoids(current: Option<string>, own: string, db: string, t: string)
    ensures var intro := [CreateDatabase(own), Use(own)];
            Avoids(current, intro, db, t) && SelectedAfter(current, intro) == Some(own)
  {
    TwoStatements(current, CreateDatabase(own), Use(own), db, t);
  }

  lemma TwoStatements(current: Option<string>, x: Stmt, y: Stmt, db: string, t: string)
    ensures SelectedAfter(current, [x, y]) == Selected(Selected(current, x), y)
    ensures Avoids(current, [x, y], db, t) <==>
            && !(current == Some(db) && TableOf(x) == Some(t))
            && !(Selected(current, x) == Some(db) && TableOf(y) == Some(t))
  {
    assert [x, y][1..] == [y] && [y][1..] == [];
    assert SelectedAfter(Selected(current, x), [y]) == Selected(Selected(current, x), y);
    OneStatementAvoids(Selected(current, x), y, db, t);
  }

  lemma {:induction false} DatabasesDumpAvoids(c: Config, current: Option<string>, ds: seq<Database>, db: string,
                                               t: string)
    requires forall i :: 0 <= i < |ds| && ds[i].name == db ==> !HasTable(ds[i].tables, t)
    ensures Avoids(current, DatabasesDump(c, ds), db, t)
    decreases |ds|
  {
    hide TablesDump, Avoids, SelectedAfter, HasTable, IsSystem;
    if ds == [] {
      NothingAvoids(current, db, t);
    } else if IsSystem(c, ds[0].name) {
      DatabasesDumpAvoids(c, current, ds[1..], db, t);
    } else {
      var d, intro := ds[0], [CreateDatabase(ds[0].name), Use(ds[0].name)];
      IntroAvoids(current, d.name, db, t);
      TablesDumpAvoids(c, Some(d.name), d.name, d.tables, db, t);
      AvoidTogether(current, intro, TablesDump(c, d.name, d.tables), db, t);
      DatabasesDumpAvoids(c, Some(d.name), ds[1..], db, t);
      AvoidTogether(current, intro + TablesDump(c, d.name, d.tables), DatabasesDump(c, ds[1..]), db, t);
    }
  }

  // ------------------------------------------------------------------ what arrives

  /** The first `n` statements, and the first `k` rows of the next one if the line cut there is a shorter INSERT. */
  function Cut(stmts: seq<Stmt>, n: nat, k: nat): seq<Stmt>
    requires n <= |stmts|
  {
    stmts[..n]
    + if n < |stmts| && stmts[n].Insert? && 0 < k < |stmts[n].tuples|
      then [stmts[n].(tuples := stmts[n].tuples[..k])] else []
  }

  lemma CutTogether(a: seq<Stmt>, b: seq<Stmt>, n: nat, k: nat)
    requires n <= |a + b|
    ensures n < |a| ==> Cut(a + b, n, k) == Cut(a, n, k)
    ensures n >= |a| ==> Cut(a + b, n, k) == a + Cut(b, n - |a|, k)
  {
    if n < |a| {
      assert (a + b)[..n] == a[..n];
    } else {
      assert (a + b)[..n] == a + b[..n - |a|];
    }
  }

  lemma CutAvoids(current: Option<string>, stmts: seq<Stmt>, n: nat, k: nat, db: string, t: string)
    requires n <= |stmts| && Avoids(current, stmts, db, t)
    ensures Avoids(current, Cut(stmts, n, k), db, t)
  {
    hide TableOf, SelectedAfter;
    AvoidTogether(current, stmts[..n], stmts[n..], db, t);
    assert stmts[..n] + stmts[n..] == stmts;
    if n < |stmts| && stmts[n].Insert? && 0 < k < |stmts[n].tuples| {
      var short := stmts[n].(tuples := stmts[n].tuples[..k]);
      SameTable(stmts[n], k);
      OneStatementAvoids(SelectedAfter(current, stmts[..n]), short, db, t);
      AvoidTogether(current, stmts[..n], [short], db, t);
    } else {
      assert Cut(stmts, n, k) == stmts[..n];
    }
  }

  lemma SameTable(x: Stmt, k: nat)
    requires x.Insert? && k < |x.tuples|
    ensures TableOf(x.(tuples := x.tuples[..k])) == TableOf(x)
  {
  }

  lemma OneStatementAvoids(current: Option<string>, x: Stmt, db: string, t: string)
    ensures Avoids(current, [x], db, t) <==> !(current == Some(db) && TableOf(x) == Some(t))
  {
    assert [x][1..] == [];
  }

  // ------------------------------------------------------------------ the dump around one table

  /** Everything before the statements of table `j` of database `i`, and everything behind them. */
  function Before(c: Config, ds: seq<Database>, i: nat, j: nat): seq<Stmt>
    requires i < |ds| && j < |ds[i].tables|
  {
    [SetForeignKeyChecks(false)] + DatabasesDump(c, ds[..i])
    + ([CreateDatabase(ds[i].name), Use(ds[i].name)] + TablesDump(c, ds[i].name, ds[i].tables[..j]))
  }

  function Behind(c: Config, ds: seq<Database>, i: nat, j: nat): seq<Stmt>
    requires i < |ds| && j < |ds[i].tables|
  {
    TablesDump(c, ds[i].name, ds[i].tables[j + 1..]) + DatabasesDump(c, ds[i + 1..]) + [SetForeignKeyChecks(true)]
  }

  lemma {:induction false} TablesDumpTogether(c: Config, db: string, a: seq<NamedTable>, b: seq<NamedTable>)
    ensures TablesDump(c, db, a + b) == TablesDump(c, db, a) + TablesDump(c, db, b)
  {
    hide TableDump;
    if a == [] {
      assert a + b == b;
    } else {
      assert (a + b)[1..] == a[1..] + b;
      TablesDumpTogether(c, db, a[1..], b);
    }
  }

  lemma {:induction false} DatabasesDumpTogether(c: Config, a: seq<Database>, b: seq<Database>)
    ensures DatabasesDump(c, a + b) == DatabasesDump(c, a) + DatabasesDump(c, b)
  {
    hide TablesDump, IsSystem;
    if a == [] {
      assert a + b == b;
    } else {
      assert (a + b)[1..] == a[1..] + b;
      DatabasesDumpTogether(c, a[1..], b);
    }
  }

  lemma TablesAround(c: Config, db: string, ts: seq<NamedTable>, j: nat)
    requires j < |ts|
    ensures TablesDump(c, db, ts)
         == TablesDump(c, db, ts[..j]) + TableDump(c, db, ts[j]) + TablesDump(c, db, ts[j + 1..])
  {
    assert ts == ts[..j] + ts[j..] && ts[j..][1..] == ts[j + 1..];
    TablesDumpTogether(c, db, ts[..j], ts[j..]);
  }

  lemma DumpAround(c: Config, ds: seq<Database>, i: nat, j: nat)
    requires i < |ds| && j < |ds[i].tables| && !IsSystem(c, ds[i].name)
    ensures Dump(c, ds) == Before(c, ds, i, j) + (TableDump(c, ds[i].name, ds[i].tables[j]) + Behind(c, ds, i, j))
  {
    hide TableDump, TablesDump, IsSystem;
    var d := ds[i];
    TablesAround(c, d.name, d.tables, j);
    assert ds == ds[..i] + ds[i..] && ds[i..][1..] == ds[i + 1..];
    DatabasesDumpTogether(c, ds[..i], ds[i..]);
  }

  lemma TheRestAvoids(c: Config, ds: seq<Database>, i: nat, j: nat, current: Option<string>)
    requires Distinct(ds) && i < |ds| && j < |ds[i].tables|
    ensures Avoids(current, Before(c, ds, i, j), ds[i].name, ds[i].tables[j].name)
    ensures Avoids(Some(ds[i].name), Behind(c, ds, i, j), ds[i].name, ds[i].tables[j].name)
  {
    hide TablesDump, DatabasesDump, Avoids, SelectedAfter, TableOf;
    var d, t := ds[i], ds[i].tables[j].name;
    var db := d.name;
    DatabasesDumpAvoids(c, current, ds[..i], db, t);
    DatabasesDumpAvoids(c, Some(db), ds[i + 1..], db, t);
    TablesDumpAvoids(c, Some(db), db, d.tables[..j], db, t);
    TablesDumpAvoids(c, Some(db), db, d.tables[j + 1..], db, t);
    SwitchAvoids(current, false, db, t);
    AvoidTogether(current, [SetForeignKeyChecks(false)], DatabasesDump(c, ds[..i]), db, t);
    var off := [SetForeignKeyChecks(false)] + DatabasesDump(c, ds[..i]);
    IntroAvoids(SelectedAfter(current, off), db, db, t);
    AvoidTogether(SelectedAfter(current, off), [CreateDatabase(db), Use(db)], TablesDump(c, db, d.tables[..j]), db, t);
    AvoidTogether(current, off, [CreateDatabase(db), Use(db)] + TablesDump(c, db, d.tables[..j]), db, t);
    var rest := TablesDump(c, db, d.tables[j + 1..]) + DatabasesDump(c, ds[i + 1..]);
    AvoidTogether(Some(db), TablesDump(c, db, d.tables[j + 1..]), DatabasesDump(c, ds[i + 1..]), db, t);
    SwitchAvoids(SelectedAfter(Some(db), rest), true, db, t);
    AvoidTogether(Some(db), rest, [SetForeignKeyChecks(true)], db, t);
  }

  lemma SwitchAvoids(current: Option<string>, on: bool, db: string, t: string)
    ensures Avoids(current, [SetForeignKeyChecks(on)], db, t)
    ensures SelectedAfter(current, [SetForeignKeyChecks(on)]) == current
  {
    assert [SetForeignKeyChecks(on)][1..] == [];
    OneStatementAvoids(current, SetForeignKeyChecks(on), db, t);
  }

  /** When a table's turn comes, its database is selected and foreign keys are not checked. */
  lemma StateBefore(c: Config, s: Server, ds: seq<Database>, i: nat, j: nat)
    requires AllComplete(ds) && i < |ds| && j < |ds[i].tables|
    ensures var (u, ok) := Execute(s, Before(c, ds, i, j));
            ok && !u.checks && u.current == Some(ds[i].name) && ds[i].name in u.dbs
  {
    hide DatabasesDump, TablesDump, WithTables, WithDatabases, Complete;
    var d := ds[i];
    var off := [SetForeignKeyChecks(false)];
    var mine := [CreateDatabase(d.name), Use(d.name)] + TablesDump(c, d.name, d.tables[..j]);
    var s0 := s.(checks := false);
    assert off[1..] == [] && Execute(s, off) == (s0, true);
    DatabasesAreReplaced(c, s0, ds[..i]);
    ExecuteTogether(s, off, DatabasesDump(c, ds[..i]));
    var s1 := Execute(s0, DatabasesDump(c, ds[..i])).0;
    assert CompleteTables(d.tables);
    DatabaseIsReplaced(c, s1, Database(d.name, d.tables[..j]));
    ExecuteTogether(s, off + DatabasesDump(c, ds[..i]), mine);
  }

  // ------------------------------------------------------------------ a table cut in the middle

  function CutBatches(bs: seq<seq<Tuple>>, n: nat, k: nat): seq<seq<Tuple>>
    requires n <= |bs|
  {
    bs[..n] + if n < |bs| && 0 < k < |bs[n]| then [bs[n][..k]] else []
  }

  lemma {:induction false} InsertAt(name: string, columns: seq<string>, bs: seq<seq<Tuple>>)
    ensures |Inserts(name, columns, bs)| == |bs|
    ensures forall i :: 0 <= i < |bs| ==> Inserts(name, columns, bs)[i] == Insert(name, columns, bs[i])
  {
    if bs != [] {
      InsertAt(name, columns, bs[1..]);
    }
  }

  lemma CutInserts(name: string, columns: seq<string>, bs: seq<seq<Tuple>>, n: nat, k: nat)
    requires n <= |bs|
    ensures |Inserts(name, columns, bs)| == |bs|
    ensures Cut(Inserts(name, columns, bs), n, k) == Inserts(name, columns, CutBatches(bs, n, k))
  {
    InsertAt(name, columns, bs);
    InsertAt(name, columns, CutBatches(bs, n, k));
  }

  lemma {:induction false} FlattenedTogether<T>(a: seq<seq<T>>, b: seq<seq<T>>)
    ensures Flattened(a + b) == Flattened(a) + Flattened(b)
  {
    if a == [] {
      assert a + b == b;
    } else {
      assert (a + b)[1..] == a[1..] + b;
      FlattenedTogether(a[1..], b);
    }
  }

  /** Cut batches hold fewer rows, and the same ones as far as they go. */
  lemma CutIsAProperPrefix(bs: seq<seq<Tuple>>, n: nat, k: nat)
    requires n < |bs| && bs[n] != []
    ensures var part, whole := Flattened(CutBatches(bs, n, k)), Flattened(bs);
            |part| < |whole| && part == whole[..|part|]
  {
    hide Flattened;
    var extra := if 0 < k < |bs[n]| then bs[n][..k] else [];
    var tail := bs[n + 1..];
    assert bs == bs[..n] + ([bs[n]] + tail);
    FlattenedTogether(bs[..n], [bs[n]] + tail);
    FlattenedTogether([bs[n]], tail);
    FlattenedOne(bs[n]);
    FlattenedTogether(bs[..n], if 0 < k < |bs[n]| then [bs[n][..k]] else []);
    if 0 < k < |bs[n]| {
      FlattenedOne(bs[n][..k]);
    } else {
      FlattenedNone<Tuple>();
    }
    assert Flattened(CutBatches(bs, n, k)) == Flattened(bs[..n]) + extra;
    assert Flattened(bs) == Flattened(bs[..n]) + (bs[n] + Flattened(tail));
  }

  lemma FlattenedOne<T>(b: seq<T>)
    ensures Flattened([b]) == b
  {
    assert [b][1..] == [] && b + Flattened<T>([]) == b;
  }

  lemma FlattenedNone<T>()
    ensures Flattened<T>([]) == []
  {
  }

  lemma {:induction false} TuplesOfPrefix(rows: seq<Row>, columns: seq<string>, q: nat)
    requires q <= |rows|
    ensures |TuplesOf(rows, columns)| == |rows| && TuplesOf(rows, columns)[..q] == TuplesOf(rows[..q], columns)
  {
    if rows != [] {
      if q > 0 {
        TuplesOfPrefix(rows[1..], columns, q - 1);
        assert rows[1..][..q - 1] == rows[..q][1..];
      } else {
        TuplesOfPrefix(rows[1..], columns, 0);
      }
    }
  }

  /** Some, but not all of the rows of a table. */
  ghost predicate Partial(t: Table, whole: Table) {
    t.schema == whole.schema && |t.rows| < |whole.rows| && t.rows == whole.rows[..|t.rows|]
  }

  /** After a part of its own statements a table is gone, or there with the first of its rows. */
  lemma TableCutInTheMiddle(c: Config, db: string, tables: Tables, x: NamedTable, n: nat, k: nat)
    requires Complete(x.table) && 0 < n < |TableDump(c, db, x)|
    ensures var (r, ok) := ExecuteInDatabase(tables, false, Cut(TableDump(c, db, x), n, k));
            && ok
            && (n == 1 ==> x.name !in r)
            && (n > 1 ==> x.name in r && Partial(r[x.name], Stored(c, db, x)))
  {
    hide IsExcluded, Inserts, Batches, RowsOf, Flattened, TuplesOf, Complete;
    var t, schema := x.name, x.table.schema;
    var intro, rows := [DropTable(t), CreateTable(t, schema)], if IsExcluded(c, db, t) then [] else TableRows(x);
    CutTogether(intro, rows, n, k);
    if n == 1 {
      assert Cut(intro, 1, k) == [DropTable(t)] && [DropTable(t)][1..] == [];
    } else {
      DropThenCreate(tables, t, schema);
      InDatabaseTogether(tables, false, intro, Cut(rows, n - 2, k));
      RowsCutInTheMiddle(tables, x, n - 2, k);
    }
  }

  lemma RowsCutInTheMiddle(tables: Tables, x: NamedTable, n: nat, k: nat)
    requires Complete(x.table) && n < |TableRows(x)|
    ensures var schema := x.table.schema;
            var (r, ok) := ExecuteInDatabase(tables[x.name := Table(schema, [])], false, Cut(TableRows(x), n, k));
            ok && x.name in r && Partial(r[x.name], x.table)
  {
    hide Inserts, Batches, RowsOf, Flattened, TuplesOf, CutBatches, Bounded, ExecuteInDatabase, Cut;
    var schema := x.table.schema;
    var tuples := TuplesOf(x.table.rows, schema.columns);
    var bs := Batches([], tuples);
    BatchesHoldTheRows(tuples);
    InsertAt(x.name, schema.columns, bs);
    assert bs[n] in bs;
    CutInserts(x.name, schema.columns, bs, n, k);
    CutIsAProperPrefix(bs, n, k);
    var part := Flattened(CutBatches(bs, n, k));
    var q := |part|;
    TuplesOfPrefix(x.table.rows, schema.columns, 0);
    TuplesOfPrefix(x.table.rows, schema.columns, q);
    RowsRoundTrip(x.table.rows[..q], schema.columns);
    InsertsAppend(tables, x.name, schema, [], CutBatches(bs, n, k));
    assert [] + x.table.rows[..q] == x.table.rows[..q];
  }

  // ------------------------------------------------------------------ what a part of the dump leaves

  function Start(c: Config, ds: seq<Database>, i: nat, j: nat): nat
    requires i < |ds| && j < |ds[i].tables|
  {
    |Before(c, ds, i, j)|
  }

  function End(c: Config, ds: seq<Database>, i: nat, j: nat): nat
    requires i < |ds| && j < |ds[i].tables|
  {
    Start(c, ds, i, j) + |TableDump(c, ds[i].name, ds[i].tables[j])|
  }

  /** What table `j` of database `i` is once `n` statements, and maybe some rows of the next, were executed. */
  ghost predicate LeftAs(c: Config, s: Server, ds: seq<Database>, i: nat, j: nat, n: nat, r: Option<Table>)
    requires i < |ds| && j < |ds[i].tables|
  {
    var stored := Stored(c, ds[i].name, ds[i].tables[j]);
    if n <= Start(c, ds, i, j) then r == TableAt(s, ds[i].name, ds[i].tables[j].name)
    else if n >= End(c, ds, i, j) then r == Some(stored)
    else if n == Start(c, ds, i, j) + 1 then r == None
    else r.Some? && Partial(r.value, stored)
  }

  /**
   * Of a dump that ends after any statement, or in the middle of an INSERT, each table not yet come to
   * is as it was, each table gone past is the master's, and the one in between is gone or short of rows.
   */
  lemma WhatAPartLeaves(c: Config, s: Server, ds: seq<Database>, i: nat, j: nat, n: nat, k: nat)
    requires AllComplete(ds) && Distinct(ds) && i < |ds| && j < |ds[i].tables| && !IsSystem(c, ds[i].name)
    requires n <= |Dump(c, ds)|
    ensures var r := Execute(s, Cut(Dump(c, ds), n, k)).0;
            LeftAs(c, s, ds, i, j, n, TableAt(r, ds[i].name, ds[i].tables[j].name))
  {
    hide Dump, TableDump, Before, Behind, Cut, Execute, Avoids, IsSystem, Stored, Partial;
    var db, x := ds[i].name, ds[i].tables[j];
    var before, own, behind := Before(c, ds, i, j), TableDump(c, db, x), Behind(c, ds, i, j);
    DumpAround(c, ds, i, j);
    TheRestAvoids(c, ds, i, j, s.current);
    StateBefore(c, s, ds, i, j);
    CutTogether(before, own + behind, n, k);
    if n < |before| {
      CutAvoids(s.current, before, n, k, db, x.name);
      AvoidingLeaves(s, Cut(before, n, k), db, x.name);
    } else {
      var u := Execute(s, before).0;
      AvoidingLeaves(s, before, db, x.name);
      ExecuteTogether(s, before, Cut(own + behind, n - |before|, k));
      assert Complete(x.table) && CompleteTables(ds[i].tables);
      OwnAndBehind(c, u, ds, i, j, n - |before|, k);
    }
  }

  lemma OwnAndBehind(c: Config, u: Server, ds: seq<Database>, i: nat, j: nat, m: nat, k: nat)
    requires Distinct(ds) && i < |ds| && j < |ds[i].tables| && Complete(ds[i].tables[j].table)
    requires !u.checks && u.current == Some(ds[i].name) && ds[i].name in u.dbs
    requires m <= |TableDump(c, ds[i].name, ds[i].tables[j]) + Behind(c, ds, i, j)|
    ensures var db, x := ds[i].name, ds[i].tables[j];
            var own := TableDump(c, db, x);
            var r := TableAt(Execute(u, Cut(own + Behind(c, ds, i, j), m, k)).0, db, x.name);
            && (m == 0 ==> r == TableAt(u, db, x.name))
            && (m >= |own| ==> r == Some(Stored(c, db, x)))
            && (m == 1 && m < |own| ==> r == None)
            && (1 < m < |own| ==> r.Some? && Partial(r.value, Stored(c, db, x)))
  {
    hide Before, Behind, Execute, Avoids, Stored, Partial, Complete, ExecuteInDatabase;
    var db, x := ds[i].name, ds[i].tables[j];
    var own, behind := TableDump(c, db, x), Behind(c, ds, i, j);
    CutTogether(own, behind, m, k);
    TheRestAvoids(c, ds, i, j, u.current);
    if m >= |own| {
      OwnIsWithin(c, db, x, |own|, k);
      InsideOneDatabase(u, own);
      TableIsReplaced(c, db, u.dbs[db], x);
      ExecuteTogether(u, own, Cut(behind, m - |own|, k));
      CutAvoids(Some(db), behind, m - |own|, k, db, x.name);
      AvoidingLeaves(Execute(u, own).0, Cut(behind, m - |own|, k), db, x.name);
    } else if m == 0 {
      NothingCut(c, u, db, x, k);
    } else {
      OwnIsWithin(c, db, x, m, k);
      InsideOneDatabase(u, Cut(own, m, k));
      TableCutInTheMiddle(c, db, u.dbs[db], x, m, k);
    }
  }

  lemma NothingCut(c: Config, u: Server, db: string, x: NamedTable, k: nat)
    ensures Execute(u, Cut(TableDump(c, db, x), 0, k)).0 == u
  {
    assert Cut(TableDump(c, db, x), 0, k) == [];
  }

  lemma OwnIsWithin(c: Config, db: string, x: NamedTable, m: nat, k: nat)
    requires m <= |TableDump(c, db, x)|
    ensures WithinDatabase(TableDump(c, db, x)) && WithinDatabase(Cut(TableDump(c, db, x), m, k))
  {
    TablesDumpIsWithin(c, db, [x]);
    assert [x][1..] == [] && TablesDump(c, db, [x]) == TableDump(c, db, x) + TablesDump(c, db, []);
  }

  /** Every dumped table is the master's. */
  ghost predicate EveryTableStored(c: Config, r: Server, ds: seq<Database>) {
    forall i, j :: 0 <= i < |ds| && 0 <= j < |ds[i].tables| && !IsSystem(c, ds[i].name) ==>
      TableAt(r, ds[i].name, ds[i].tables[j].name) == Some(Stored(c, ds[i].name, ds[i].tables[j]))
  }

  /** The part of the dump has all of the table's statements, or none and the table is the master's already. */
  ghost predicate NotNeeded(c: Config, s: Server, ds: seq<Database>, i: nat, j: nat, n: nat)
    requires i < |ds| && j < |ds[i].tables|
  {
    || n >= End(c, ds, i, j)
    || (n <= Start(c, ds, i, j)
        && TableAt(s, ds[i].name, ds[i].tables[j].name) == Some(Stored(c, ds[i].name, ds[i].tables[j])))
  }

  /** A dump received in part replicates the master exactly when it stops at no table that it still has to replace. */
  lemma APartReplicatesIff(c: Config, s: Server, ds: seq<Database>, n: nat, k: nat)
    requires AllComplete(ds) && Distinct(ds) && n <= |Dump(c, ds)|
    ensures EveryTableStored(c, Execute(s, Cut(Dump(c, ds), n, k)).0, ds) <==>
            forall i, j :: 0 <= i < |ds| && 0 <= j < |ds[i].tables| && !IsSystem(c, ds[i].name) ==>
              NotNeeded(c, s, ds, i, j, n)
  {
    hide Dump, TableDump, Before, Cut, Execute, IsSystem, Stored, AllComplete, Distinct, TableAt;
    forall i, j | 0 <= i < |ds| && 0 <= j < |ds[i].tables| && !IsSystem(c, ds[i].name)
      ensures TableAt(Execute(s, Cut(Dump(c, ds), n, k)).0, ds[i].name, ds[i].tables[j].name)
                == Some(Stored(c, ds[i].name, ds[i].tables[j]))
         <==> NotNeeded(c, s, ds, i, j, n)
    {
      WhatAPartLeaves(c, s, ds, i, j, n, k);
      ATableHasStatements(c, ds, i, j);
    }
  }

  lemma ATableHasStatements(c: Config, ds: seq<Database>, i: nat, j: nat)
    requires i < |ds| && j < |ds[i].tables|
    ensures Start(c, ds, i, j) + 2 <= End(c, ds, i, j)
  {
    hide Before, TableRows, IsExcluded;
  }

  /** The statements of every dumped table are among the first `n`. */
  ghost predicate EveryTableCame(c: Config, ds: seq<Database>, n: nat) {
    forall i, j :: 0 <= i < |ds| && 0 <= j < |ds[i].tables| && !IsSystem(c, ds[i].name) ==> n >= End(c, ds, i, j)
  }

  /** On every server, whatever it holds: exactly when the statements of every dumped table have come. */
  lemma APartAlwaysReplicatesIff(c: Config, ds: seq<Database>, n: nat, k: nat)
    requires AllComplete(ds) && Distinct(ds) && n <= |Dump(c, ds)|
    ensures (forall s :: EveryTableStored(c, Execute(s, Cut(Dump(c, ds), n, k)).0, ds)) <==> EveryTableCame(c, ds, n)
  {
    hide Dump, TableDump, Before, Cut, Execute, IsSystem, Stored, AllComplete, Distinct, EveryTableStored, Start, End;
    if EveryTableCame(c, ds, n) {
      forall s ensures EveryTableStored(c, Execute(s, Cut(Dump(c, ds), n, k)).0, ds) {
        APartReplicatesIff(c, s, ds, n, k);
      }
    } else {
      var empty := Server(map[], None, true);
      APartReplicatesIff(c, empty, ds, n, k);
      var i, j :| 0 <= i < |ds| && 0 <= j < |ds[i].tables| && !IsSystem(c, ds[i].name) && n < End(c, ds, i, j);
      assert !NotNeeded(c, empty, ds, i, j, n);
    }
  }
}
