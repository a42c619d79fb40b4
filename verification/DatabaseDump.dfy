/** The SQL dump a master writes and the statements a replica's server executes from it. */
module DatabaseDump {
  /** A value as `escapeValue` renders it. */
  datatype Value = Null | Literal(text: string)

  type Row = map<string, Value>
  type Tuple = seq<Value>

  /** What CREATE TABLE says; `refs` are the tables its foreign keys point at. */
  datatype Schema = Schema(columns: seq<string>, refs: set<string>, text: string)
  datatype Table = Table(schema: Schema, rows: seq<Row>)
  datatype NamedTable = NamedTable(name: string, table: Table)
  datatype Database = Database(name: string, tables: seq<NamedTable>)

  datatype Stmt =
    | SetForeignKeyChecks(on: bool)
    | CreateDatabase(db: string)
    | Use(db: string)
    | DropTable(table: string)
    | CreateTable(table: string, schema: Schema)
    | Insert(table: string, columns: seq<string>, tuples: seq<Tuple>)

  const MAX_INSERT_BYTES := 4 * 1024 * 1024
  const MAX_BATCH_ROWS := 500

  /** Lower-cased names: schemas never dumped, and `db.table`s dumped without their rows. */
  datatype Config = Config(system: set<string>, excluded: set<string>, lower: string -> string)

  /** The sets the service is built with. */
  function Defaults(lower: string -> string): Config {
    Config({"information_schema", "mysql", "performance_schema", "sys"}, {"shado_metrics.metric_datapoint"}, lower)
  }

  predicate IsSystem(c: Config, db: string) {
    c.lower(db) in c.system
  }

  predicate IsExcluded(c: Config, db: string, table: string) {
    c.lower(db + "." + table) in c.excluded
  }

  // ------------------------------------------------------------------ INSERT batches

  function ValueText(v: Value): string {
    if v.Null? then "NULL" else v.text
  }

  function Joined(t: Tuple): string {
    if t == [] then "" else if |t| == 1 then ValueText(t[0]) else ValueText(t[0]) + "," + Joined(t[1..])
  }

  /** `tuple.length`. */
  function Width(t: Tuple): nat {
    |"(" + Joined(t) + ")"|
  }

  /** `batchBytes`: each tuple with its separator. */
  function Size(batch: seq<Tuple>): nat {
    if batch == [] then 0 else Size(batch[..|batch| - 1]) + Width(batch[|batch| - 1]) + 1
  }

  predicate Full(batch: seq<Tuple>, next: Tuple) {
    batch != [] && (Size(batch) + Width(next) + 1 > MAX_INSERT_BYTES || |batch| >= MAX_BATCH_ROWS)
  }

  /** The batches flushed from here on, with `pending` not flushed yet. */
  function Batches(pending: seq<Tuple>, tuples: seq<Tuple>): seq<seq<Tuple>>
    decreases |tuples|
  {
    if tuples == [] then if pending == [] then [] else [pending]
    else if Full(pending, tuples[0]) then [pending] + Batches([tuples[0]], tuples[1..])
    else Batches(pending + [tuples[0]], tuples[1..])
  }

  function Flattened<T>(ss: seq<seq<T>>): seq<T> {
    if ss == [] then [] else ss[0] + Flattened(ss[1..])
  }

  predicate Bounded(batch: seq<Tuple>) {
    && 0 < |batch| <= MAX_BATCH_ROWS
    && (Size(batch) <= MAX_INSERT_BYTES || |batch| == 1)
  }

  lemma SizeOfOne(t: Tuple)
    ensures Size([t]) == Width(t) + 1
  {
    assert [t][..0] == [];
  }

  lemma SizeOfMore(batch: seq<Tuple>, t: Tuple)
    ensures Size(batch + [t]) == Size(batch) + Width(t) + 1
  {
    assert (batch + [t])[..|batch|] == batch;
  }

  // What stands behind VALUES in the statement, as text.

  function Shown(v: Value): string {
    match v
    case Null => "NULL"
    case Literal(text) => text
  }

  function MoreValues(t: Tuple): string {
    if t == [] then "" else "," + Shown(t[0]) + MoreValues(t[1..])
  }

  function TupleText(t: Tuple): string {
    "(" + (if t == [] then "" else Shown(t[0]) + MoreValues(t[1..])) + ")"
  }

  function ValuesText(batch: seq<Tuple>): string {
    if batch == [] then ""
    else if |batch| == 1 then TupleText(batch[0])
    else ValuesText(batch[..|batch| - 1]) + "," + TupleText(batch[|batch| - 1])
  }

  lemma {:induction false} JoinedIsTheList(t: Tuple)
    ensures Joined(t) == if t == [] then "" else Shown(t[0]) + MoreValues(t[1..])
  {
    if |t| > 1 {
      JoinedIsTheList(t[1..]);
    }
  }

  /** What is counted for a batch is the length of its VALUES list and one more. */
  lemma {:induction false} SizeIsTheLength(batch: seq<Tuple>)
    ensures Size(batch) == if batch == [] then 0 else |ValuesText(batch)| + 1
  {
    if batch != [] {
      var n := |batch| - 1;
      SizeIsTheLength(batch[..n]);
      JoinedIsTheList(batch[n]);
      assert Width(batch[n]) == |TupleText(batch[n])|;
    }
  }

  /** The batches hold exactly the rows, in order, and each fits one statement. */
  lemma BatchesHoldTheRows(tuples: seq<Tuple>)
    ensures Flattened(Batches([], tuples)) == tuples
    ensures forall b :: b in Batches([], tuples) ==>
              0 < |b| <= 500 && (|ValuesText(b)| < 4194304 || |b| == 1)
  {
    hide Batches, Flattened, Bounded, ValuesText;
    BatchesAreBounded([], tuples);
    assert [] + tuples == tuples;
    forall b | b in Batches([], tuples) ensures 0 < |b| <= 500 && (|ValuesText(b)| < 4194304 || |b| == 1) {
      BoundedMeans(b);
    }
  }

  lemma BoundedMeans(batch: seq<Tuple>)
    requires Bounded(batch)
    ensures 0 < |batch| <= 500 && (|ValuesText(batch)| < 4194304 || |batch| == 1)
  {
    SizeIsTheLength(batch);
  }

  lemma {:induction false} BatchesAreBounded(pending: seq<Tuple>, tuples: seq<Tuple>)
    requires pending == [] || Bounded(pending)
    ensures Flattened(Batches(pending, tuples)) == pending + tuples
    ensures forall b :: b in Batches(pending, tuples) ==> Bounded(b)
    decreases |tuples|
  {
    hide Width;
    if tuples == [] {
      assert pending != [] ==> Flattened([pending]) == pending + Flattened([]);
    } else {
      var t := tuples[0];
      SizeOfOne(t);
      SizeOfMore(pending, t);
      if Full(pending, t) {
        BatchesAreBounded([t], tuples[1..]);
        var rest := Batches([t], tuples[1..]);
        assert ([pending] + rest)[1..] == rest;
        assert pending + ([t] + tuples[1..]) == pending + tuples;
      } else {
        BatchesAreBounded(pending + [t], tuples[1..]);
        assert pending + [t] + tuples[1..] == pending + tuples;
      }
    }
  }

  /** No batch is cut short: the first tuple of the next one would have made it too long, or it has 500 rows. */
  lemma BatchesAreGreedy(tuples: seq<Tuple>)
    ensures var bs := Batches([], tuples);
            forall i :: 0 < i < |bs| ==>
              && bs[i] != []
              && (|ValuesText(bs[i - 1] + [bs[i][0]])| >= 4194304 || |bs[i - 1]| == 500)
  {
    hide Batches, ValuesText, Full, Bounded;
    var bs := Batches([], tuples);
    EachWasFull([], tuples);
    BatchesAreBounded([], tuples);
    forall i | 0 < i < |bs|
      ensures |ValuesText(bs[i - 1] + [bs[i][0]])| >= 4194304 || |bs[i - 1]| == 500
    {
      assert bs[i - 1] in bs;
      BoundedMeans(bs[i - 1]);
      FullMeansTooLong(bs[i - 1], bs[i][0]);
    }
  }

  lemma FullMeansTooLong(batch: seq<Tuple>, t: Tuple)
    requires Full(batch, t)
    ensures |ValuesText(batch + [t])| >= 4194304 || |batch| >= 500
  {
    SizeIsTheLength(batch + [t]);
    SizeOfMore(batch, t);
  }

  lemma {:induction false} EachWasFull(pending: seq<Tuple>, tuples: seq<Tuple>)
    ensures var bs := Batches(pending, tuples);
            && (forall i :: 0 < i < |bs| ==> bs[i] != [] && Full(bs[i - 1], bs[i][0]))
            && (pending != [] ==> bs != [] && bs[0] != [] && bs[0][0] == pending[0])
    decreases |tuples|
  {
    hide Width, Size;
    if tuples != [] {
      var t := tuples[0];
      if Full(pending, t) {
        EachWasFull([t], tuples[1..]);
        var bs, rest := Batches(pending, tuples), Batches([t], tuples[1..]);
        forall i | 0 < i < |bs| ensures bs[i] != [] && Full(bs[i - 1], bs[i][0]) {
          assert bs[i] == rest[i - 1];
          if i > 1 {
            assert bs[i - 1] == rest[i - 2];
          }
        }
      } else {
        EachWasFull(pending + [t], tuples[1..]);
      }
    }
  }

  // ------------------------------------------------------------------ the dump

  /** `columns.map(c => row[c])`, a missing member being NULL. */
  function TupleOf(row: Row, columns: seq<string>): Tuple {
    seq(|columns|, i requires 0 <= i < |columns| => if columns[i] in row then row[columns[i]] else Null)
  }

  function TuplesOf(rows: seq<Row>, columns: seq<string>): seq<Tuple> {
    if rows == [] then [] else [TupleOf(rows[0], columns)] + TuplesOf(rows[1..], columns)
  }

  function Inserts(table: string, columns: seq<string>, batches: seq<seq<Tuple>>): seq<Stmt> {
    if batches == [] then [] else [Insert(table, columns, batches[0])] + Inserts(table, columns, batches[1..])
  }

  function TableRows(t: NamedTable): seq<Stmt> {
    Inserts(t.name, t.table.schema.columns, Batches([], TuplesOf(t.table.rows, t.table.schema.columns)))
  }

  function TableDump(c: Config, db: string, t: NamedTable): seq<Stmt> {
    [DropTable(t.name), CreateTable(t.name, t.table.schema)] + (if IsExcluded(c, db, t.name) then [] else TableRows(t))
  }

  function TablesDump(c: Config, db: string, ts: seq<NamedTable>): seq<Stmt> {
    if ts == [] then [] else TableDump(c, db, ts[0]) + TablesDump(c, db, ts[1..])
  }

  function DatabasesDump(c: Config, ds: seq<Database>): seq<Stmt> {
    if ds == [] then []
    else if IsSystem(c, ds[0].name) then DatabasesDump(c, ds[1..])
    else
      [CreateDatabase(ds[0].name), Use(ds[0].name)] + TablesDump(c, ds[0].name, ds[0].tables)
      + DatabasesDump(c, ds[1..])
  }

  function Dump(c: Config, ds: seq<Database>): seq<Stmt> {
    [SetForeignKeyChecks(false)] + DatabasesDump(c, ds) + [SetForeignKeyChecks(true)]
  }

  // ------------------------------------------------------------------ the loops that write it

  /** The row loop of writeDumpToFile, with its growing batch. */
  method WriteRows(t: NamedTable) returns (out: seq<Stmt>)
    ensures out == TableRows(t)
  {
    hide Width, Size, Full;
    var columns := t.table.schema.columns;
    var batch: seq<Tuple> := [];
    var batchBytes := 0;
    out := [];
    ghost var tuples := TuplesOf(t.table.rows, columns);
    var i := 0;
    SizeOfNone();
    while i < |t.table.rows|
      invariant 0 <= i <= |t.table.rows|
      invariant batchBytes == Size(batch)
      invariant out + Inserts(t.name, columns, Batches(batch, TuplesOf(t.table.rows[i..], columns))) == TableRows(t)
    {
      var tuple := TupleOf(t.table.rows[i], columns);
      ghost var rest := TuplesOf(t.table.rows[i + 1..], columns);
      assert t.table.rows[i..][1..] == t.table.rows[i + 1..];
      assert TuplesOf(t.table.rows[i..], columns) == [tuple] + rest;
      SizeOfOne(tuple);
      SizeOfMore(batch, tuple);
      FullMeans(batch, tuple);
      BatchesStep(t.name, columns, batch, tuple, rest);
      if |batch| > 0 && (batchBytes + Width(tuple) + 1 > MAX_INSERT_BYTES || |batch| >= MAX_BATCH_ROWS) {
        out := out + [Insert(t.name, columns, batch)];
        batch, batchBytes := [], 0;
        assert [] + [tuple] == [tuple];
      }
      batch := batch + [tuple];
      batchBytes := batchBytes + Width(tuple) + 1;
      i := i + 1;
    }
    assert t.table.rows[i..] == [];
    LastFlush(t.name, columns, batch);
    if |batch| > 0 {
      out := out + [Insert(t.name, columns, batch)];
    }
  }

  lemma SizeOfNone()
    ensures Size([]) == 0
  {
  }

  lemma FullMeans(batch: seq<Tuple>, t: Tuple)
    ensures Full(batch, t) <==>
            |batch| > 0 && (Size(batch) + Width(t) + 1 > MAX_INSERT_BYTES || |batch| >= MAX_BATCH_ROWS)
  {
  }

  lemma BatchesStep(table: string, columns: seq<string>, batch: seq<Tuple>, t: Tuple, rest: seq<Tuple>)
    ensures Inserts(table, columns, Batches(batch, [t] + rest)) ==
            if Full(batch, t) then [Insert(table, columns, batch)] + Inserts(table, columns, Batches([t], rest))
            else Inserts(table, columns, Batches(batch + [t], rest))
  {
    hide Full;
    assert ([t] + rest)[1..] == rest;
    assert ([batch] + Batches([t], rest))[1..] == Batches([t], rest);
  }

  lemma LastFlush(table: string, columns: seq<string>, batch: seq<Tuple>)
    ensures Inserts(table, columns, Batches(batch, TuplesOf([], columns))) ==
            if batch == [] then [] else [Insert(table, columns, batch)]
  {
    assert [batch][1..] == [];
    assert Inserts(table, columns, [batch]) == [Insert(table, columns, batch)] + Inserts(table, columns, []);
  }

  method WriteTables(c: Config, db: string, ts: seq<NamedTable>) returns (out: seq<Stmt>)
    ensures out == TablesDump(c, db, ts)
  {
    hide TableRows, IsExcluded, TablesDump;
    out := [];
    assert ts[0..] == ts;
    var i := 0;
    while i < |ts|
      invariant 0 <= i <= |ts|
      invariant out + TablesDump(c, db, ts[i..]) == TablesDump(c, db, ts)
    {
      TablesDumpStep(c, db, ts, i);
      ghost var before := out;
      out := out + [DropTable(ts[i].name), CreateTable(ts[i].name, ts[i].table.schema)];
      if !IsExcluded(c, db, ts[i].name) {
        var rows := WriteRows(ts[i]);
        out := out + rows;
      }
      assert out == before + TableDump(c, db, ts[i]);
      i := i + 1;
    }
    TablesDumpStep(c, db, ts, |ts|);
  }

  lemma TablesDumpStep(c: Config, db: string, ts: seq<NamedTable>, i: nat)
    requires i <= |ts|
    ensures TablesDump(c, db, ts[i..])
         == if i == |ts| then [] else TableDump(c, db, ts[i]) + TablesDump(c, db, ts[i + 1..])
  {
    if i < |ts| {
      assert ts[i..][1..] == ts[i + 1..];
    }
  }

  lemma DatabasesDumpStep(c: Config, ds: seq<Database>, i: nat)
    requires i <= |ds|
    ensures DatabasesDump(c, ds[i..]) ==
            if i == |ds| then []
            else if IsSystem(c, ds[i].name) then DatabasesDump(c, ds[i + 1..])
            else [CreateDatabase(ds[i].name), Use(ds[i].name)] + TablesDump(c, ds[i].name, ds[i].tables)
                 + DatabasesDump(c, ds[i + 1..])
  {
    hide TablesDump, IsSystem;
    if i < |ds| {
      assert ds[i..][1..] == ds[i + 1..];
    }
  }

  /** writeDumpToFile() */
  method WriteDump(c: Config, ds: seq<Database>) returns (out: seq<Stmt>)
    ensures out == Dump(c, ds)
  {
    hide IsSystem, DatabasesDump, TablesDump;
    out := [SetForeignKeyChecks(false)];
    var i := 0;
    assert ds[0..] == ds;
    while i < |ds|
      invariant 0 <= i <= |ds|
      invariant out + DatabasesDump(c, ds[i..]) == [SetForeignKeyChecks(false)] + DatabasesDump(c, ds)
    {
      DatabasesDumpStep(c, ds, i);
      if !IsSystem(c, ds[i].name) {
        ghost var before := out;
        out := out + [CreateDatabase(ds[i].name), Use(ds[i].name)];
        var tables := WriteTables(c, ds[i].name, ds[i].tables);
        out := out + tables;
        assert out == before + ([CreateDatabase(ds[i].name), Use(ds[i].name)] + tables);
      }
      i := i + 1;
    }
    DatabasesDumpStep(c, ds, i);
    assert out == [SetForeignKeyChecks(false)] + DatabasesDump(c, ds);
    out := out + [SetForeignKeyChecks(true)];
  }
}
