/** What importing a dump does to every table of the replica's server. */
module DumpLaws {
  import opened DatabaseDump
  import opened DatabaseImport
  import DumpText

  predicate DistinctTables(ts: seq<NamedTable>) {
    forall i, j :: 0 <= i < j < |ts| ==> ts[i].name != ts[j].name
  }

  predicate Distinct(ds: seq<Database>) {
    && (forall i, j :: 0 <= i < j < |ds| ==> ds[i].name != ds[j].name)
    && (forall i :: 0 <= i < |ds| ==> DistinctTables(ds[i].tables))
  }

  predicate HasTable(ts: seq<NamedTable>, name: string) {
    exists i :: 0 <= i < |ts| && ts[i].name == name
  }

  /** `tables` with each of `ts` replaced and nothing else touched. */
  ghost predicate Replaced(c: Config, db: string, tables: Tables, ts: seq<NamedTable>, r: Tables) {
    && (forall i :: 0 <= i < |ts| ==> ts[i].name in r && r[ts[i].name] == Stored(c, db, ts[i]))
    && (forall name :: !HasTable(ts, name) ==>
        (name in r <==> name in tables) && (name in r ==> r[name] == tables[name]))
  }

  lemma {:induction false} WithTablesReplaces(c: Config, db: string, tables: Tables, ts: seq<NamedTable>)
    requires DistinctTables(ts)
    ensures Replaced(c, db, tables, ts, WithTables(c, db, tables, ts))
    decreases |ts|
  {
    hide Stored, Replaced;
    if ts == [] {
      NothingReplaced(c, db, tables);
    } else {
      var rest := ts[1..];
      assert forall i :: 0 <= i < |rest| ==> rest[i] == ts[i + 1];
      WithTablesReplaces(c, db, tables[ts[0].name := Stored(c, db, ts[0])], rest);
      OneTableMore(c, db, tables, ts, WithTables(c, db, tables, ts));
    }
  }

  lemma NothingReplaced(c: Config, db: string, tables: Tables)
    ensures Replaced(c, db, tables, [], tables)
  {
  }

  /** Storing one table first, then the rest. */
  lemma OneTableMore(c: Config, db: string, tables: Tables, ts: seq<NamedTable>, r: Tables)
    requires ts != [] && DistinctTables(ts)
    requires Replaced(c, db, tables[ts[0].name := Stored(c, db, ts[0])], ts[1..], r)
    ensures Replaced(c, db, tables, ts, r)
  {
    hide Stored;
    var rest := ts[1..];
    assert forall i :: 0 <= i < |rest| ==> rest[i] == ts[i + 1];
    assert !HasTable(rest, ts[0].name);
    forall i | 0 < i < |ts| ensures ts[i] == rest[i - 1] {
    }
    forall name | !HasTable(ts, name) ensures !HasTable(rest, name) && name != ts[0].name {
      assert ts[0].name == name ==> HasTable(ts, name);
    }
  }

  /** Two replacements in a row are one. */
  lemma ReplacedTwice(c: Config, db: string, tables: Tables, ts: seq<NamedTable>, r: Tables, rr: Tables)
    requires Replaced(c, db, tables, ts, r) && Replaced(c, db, r, ts, rr)
    ensures r == rr
  {
    hide Stored;
    forall name ensures (name in r <==> name in rr) && (name in r ==> r[name] == rr[name]) {
      if HasTable(ts, name) {
        var i :| 0 <= i < |ts| && ts[i].name == name;
      }
    }
  }

  predicate Dumped(c: Config, ds: seq<Database>, db: string) {
    exists i :: 0 <= i < |ds| && ds[i].name == db && !IsSystem(c, db)
  }

  /** Every dumped database has its tables replaced; the other databases are untouched. */
  ghost predicate Replicated(c: Config, dbs: map<string, Tables>, ds: seq<Database>, r: map<string, Tables>) {
    && (forall i :: 0 <= i < |ds| && !IsSystem(c, ds[i].name) ==>
          ds[i].name in r && Replaced(c, ds[i].name, TablesIn(dbs, ds[i].name), ds[i].tables, r[ds[i].name]))
    && (forall db :: !Dumped(c, ds, db) ==> (db in r <==> db in dbs) && (db in r ==> r[db] == dbs[db]))
  }

  lemma NoDatabase(c: Config, dbs: map<string, Tables>)
    ensures Replicated(c, dbs, [], dbs)
  {
  }

  /** Replacing one database first, then the rest. */
  lemma OneDatabaseMore(c: Config, dbs: map<string, Tables>, next: map<string, Tables>, ds: seq<Database>,
                        r: map<string, Tables>)
    requires ds != [] && Distinct(ds)
    requires if IsSystem(c, ds[0].name) then next == dbs
             else && ds[0].name in next && next == dbs[ds[0].name := next[ds[0].name]]
                  && Replaced(c, ds[0].name, TablesIn(dbs, ds[0].name), ds[0].tables, next[ds[0].name])
    requires Replicated(c, next, ds[1..], r)
    ensures Replicated(c, dbs, ds, r)
  {
    hide Replaced, IsSystem;
    var d, rest := ds[0], ds[1..];
    assert forall i :: 0 < i < |ds| ==> ds[i] == rest[i - 1] && ds[i].name != d.name;
    assert !Dumped(c, rest, d.name);
    forall db | !Dumped(c, ds, db) ensures !Dumped(c, rest, db) && (db == d.name ==> IsSystem(c, db)) {
      assert db == d.name && !IsSystem(c, db) ==> Dumped(c, ds, db);
      assert forall i :: 0 <= i < |rest| ==> rest[i] == ds[i + 1];
    }
  }

  lemma {:induction false} WithDatabasesReplicates(c: Config, dbs: map<string, Tables>, ds: seq<Database>)
    requires Distinct(ds)
    ensures Replicated(c, dbs, ds, WithDatabases(c, dbs, ds))
    decreases |ds|
  {
    hide Replaced, Replicated, WithTables, IsSystem, TablesIn;
    if ds == [] {
      NoDatabase(c, dbs);
    } else {
      var d, rest := ds[0], ds[1..];
      assert forall i :: 0 <= i < |rest| ==> rest[i] == ds[i + 1];
      WithTablesReplaces(c, d.name, TablesIn(dbs, d.name), d.tables);
      var next := if IsSystem(c, d.name) then dbs
          else dbs[d.name := WithTables(c, d.name, TablesIn(dbs, d.name), d.tables)];
      WithDatabasesReplicates(c, next, rest);
      OneDatabaseMore(c, dbs, next, ds, WithDatabases(c, dbs, ds));
    }
  }

  /**
   * On any server, importing a dump runs through and leaves every dumped table with the master's
   * schema and rows (no rows if its data is excluded); tables the master lacks, system schemas and
   * databases not dumped are as they were, and foreign-key checks are back on.
   */
  lemma ImportReplicatesTheMaster(c: Config, s: Server, ds: seq<Database>)
    requires AllComplete(ds) && Distinct(ds)
    ensures var (r, ok) := Execute(s, Dump(c, ds));
            && ok && r.checks
            && (forall i :: 0 <= i < |ds| && !IsSystem(c, ds[i].name) ==>
                  && ds[i].name in r.dbs
                  && forall j :: 0 <= j < |ds[i].tables| ==>
                       && ds[i].tables[j].name in r.dbs[ds[i].name]
                       && r.dbs[ds[i].name][ds[i].tables[j].name] ==
                          (if IsExcluded(c, ds[i].name, ds[i].tables[j].name)
                           then Table(ds[i].tables[j].table.schema, []) else ds[i].tables[j].table))
            && (forall i, t :: 0 <= i < |ds| && !IsSystem(c, ds[i].name) && !HasTable(ds[i].tables, t) ==>
                  (t in TablesIn(r.dbs, ds[i].name) <==> t in TablesIn(s.dbs, ds[i].name))
                  && (t in TablesIn(r.dbs, ds[i].name) ==>
                      TablesIn(r.dbs, ds[i].name)[t] == TablesIn(s.dbs, ds[i].name)[t]))
            && (forall db :: !Dumped(c, ds, db) ==>
                (db in r.dbs <==> db in s.dbs) && (db in r.dbs ==> r.dbs[db] == s.dbs[db]))
  {
    hide AllComplete, Dump, Execute, IsSystem, IsExcluded, WithDatabases;
    DumpExecutes(c, s, ds);
    WithDatabasesReplicates(c, s.dbs, ds);
  }

  /**
   * With the sets the service is built with, the server's own schemas stay as they are however their
   * names are written, every other database of the master arrives with all its tables, and of these the
   * metrics table alone comes without its rows.
   */
  lemma TheDefaultsSpareTheServer(lower: string -> string, s: Server, ds: seq<Database>, i: nat)
    requires AllComplete(ds) && Distinct(ds) && i < |ds|
    ensures var r, db := Execute(s, Dump(Defaults(lower), ds)).0, ds[i].name;
            if lower(db) == "information_schema" || lower(db) == "mysql" || lower(db) == "performance_schema"
               || lower(db) == "sys"
            then (db in r.dbs <==> db in s.dbs) && (db in r.dbs ==> r.dbs[db] == s.dbs[db])
            else db in r.dbs && forall j :: 0 <= j < |ds[i].tables| ==>
                   var t := ds[i].tables[j];
                   && t.name in r.dbs[db]
                   && r.dbs[db][t.name] ==
                      if lower(db + "." + t.name) == "shado_metrics.metric_datapoint" then Table(t.table.schema, [])
                      else t.table
  {
    hide AllComplete, Dump, Execute, HasTable;
    ImportReplicatesTheMaster(Defaults(lower), s, ds);
    assert IsSystem(Defaults(lower), ds[i].name) ==> !Dumped(Defaults(lower), ds, ds[i].name);
  }

  /** Importing the same dump twice is importing it once. */
  lemma ImportTwiceIsOnce(c: Config, s: Server, ds: seq<Database>)
    requires AllComplete(ds) && Distinct(ds)
    ensures var once := Execute(s, Dump(c, ds)).0; Execute(once, Dump(c, ds)).0.dbs == once.dbs
  {
    hide AllComplete, Dump, Execute, IsSystem, IsExcluded, WithDatabases, Replaced;
    var once := Execute(s, Dump(c, ds)).0;
    DumpExecutes(c, s, ds);
    DumpExecutes(c, once, ds);
    WithDatabasesReplicates(c, s.dbs, ds);
    WithDatabasesReplicates(c, once.dbs, ds);
    var twice := Execute(once, Dump(c, ds)).0;
    forall db ensures (db in once.dbs <==> db in twice.dbs) && (db in once.dbs ==> once.dbs[db] == twice.dbs[db]) {
      if Dumped(c, ds, db) {
        var i :| 0 <= i < |ds| && ds[i].name == db && !IsSystem(c, db);
        ReplacedTwice(c, db, TablesIn(s.dbs, db), ds[i].tables, once.dbs[db], twice.dbs[db]);
      }
    }
  }

  function Mapped<T, U>(f: T -> U, xs: seq<T>): (ys: seq<U>)
    ensures |ys| == |xs| && forall i :: 0 <= i < |xs| ==> ys[i] == f(xs[i])
  {
    if xs == [] then [] else [f(xs[0])] + Mapped(f, xs[1..])
  }

  /**
   * The file a dump is written to executes as the dump: the lines that come back are its
   * statements, provided each statement's SQL is on one line.
   */
  lemma TheFileIsTheDump(k: DumpText.Charset, c: Config, ds: seq<Database>, sql: Stmt -> string, parse: string -> Stmt)
    requires DumpText.Sensible(k)
    requires forall x :: x in Dump(c, ds) ==>
             DumpText.Solid(k, sql(x)) && DumpText.OneLine(k, sql(x)) && parse(sql(x)) == x
    ensures Mapped(parse, DumpText.ReadBack(k, DumpText.Written(Mapped(sql, Dump(c, ds))))) == Dump(c, ds)
  {
    hide Dump;
    DumpText.ReadsBackIff(k, Mapped(sql, Dump(c, ds)));
  }
}
