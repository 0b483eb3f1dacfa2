/** The statements the query builder writes, and what a database does with them.
    A query is its shape, the operands that stand in its text from left to right, and a separate
    bind list. */
module Sql {
  import opened Wrappers

  // ColValue: SQL NULL, an unchanged toast the source did not carry, or a value
  datatype Value = Null | Unavailable | Val(text: string)

  // What the database stores: None is NULL
  type Cell = Option<string>

  datatype DbType = Mysql | Pg | GaussDBPg | GaussDBMySQL | GaussDBOracle

  datatype Operand = Dollar(index: nat) | Question | Literal(cell: Cell)

  datatype Verb = InsertInto | ReplaceInto

  datatype Clause =
    | NoClause
    | DoNothing(target: seq<string>)
    | DoUpdate(target: seq<string>, cols: seq<string>)    // one further operand per column
    | DoExcluded(target: seq<string>, cols: seq<string>)  // col = EXCLUDED.col

  datatype Cond = IsNull(col: string) | Equals(col: string)

  datatype Shape =
    | Insert(verb: Verb, into: seq<string>, rowCount: nat, clause: Clause)
    | Update(sets: seq<string>, conds: seq<Cond>, limitOne: bool)
    | Delete(conds: seq<Cond>, limitOne: bool)
    | Select(conds: seq<Cond>, limitOne: bool)
    | DeleteIn(keys: seq<string>, rowCount: nat)

  datatype Query = Query(shape: Shape, slots: seq<Operand>, cols: seq<string>, binds: seq<Option<Value>>)

  datatype TableMeta = TableMeta(cols: seq<string>, idCols: seq<string>, hasKeys: bool)

  /******* Binding *******/

  function BindCell(v: Option<Value>): Cell {
    if v.Some? && v.value.Val? then Some(v.value.text) else None
  }

  // The bind an operand reads: `$k` the k-th, the i-th `?` of the text the i-th.
  function BindIndex(o: Operand, position: nat): int {
    match o
    case Dollar(k) => k - 1
    case Question => position
    case Literal(_) => -1
  }

  function Denote(o: Operand, position: nat, binds: seq<Option<Value>>): Option<Cell> {
    if o.Literal? then Some(o.cell)
    else
      var k := BindIndex(o, position);
      if 0 <= k < |binds| then Some(BindCell(binds[k])) else None
  }

  predicate AllBound(q: Query) {
    forall i :: 0 <= i < |q.slots| ==> Denote(q.slots[i], i, q.binds).Some?
  }

  // The operands' values in text order. An operand without a bind makes the database refuse the query.
  function Cells(q: Query): seq<Cell>
    requires AllBound(q)
  {
    seq(|q.slots|, i requires 0 <= i < |q.slots| => Denote(q.slots[i], i, q.binds).value)
  }

  /******* Rows *******/

  function Flatten<T>(rows: seq<seq<T>>): seq<T> {
    if rows == [] then [] else Flatten(rows[..|rows| - 1]) + rows[|rows| - 1]
  }

  ghost predicate Rectangular<T>(rows: seq<seq<T>>, n: nat) {
    forall r :: 0 <= r < |rows| ==> |rows[r]| == n
  }

  lemma {:induction false} FlattenLength<T>(rows: seq<seq<T>>, n: nat)
    requires Rectangular(rows, n)
    ensures |Flatten(rows)| == |rows| * n
  {
    if rows == [] {
    } else {
      FlattenLength(rows[..|rows| - 1], n);
      assert (|rows| - 1) * n + n == |rows| * n;
    }
  }

  lemma {:induction false} FlattenAt<T>(rows: seq<seq<T>>, n: nat, r: nat, c: nat)
    requires Rectangular(rows, n) && r < |rows| && c < n
    ensures 0 <= r * n + c < |Flatten(rows)| && Flatten(rows)[r * n + c] == rows[r][c]
  {
    var last := |rows| - 1;
    FlattenLength(rows[..last], n);
    if r < last {
      FlattenAt(rows[..last], n, r, c);
    }
  }

  // Row-wise reading of a flat cell list: row r is cells[r*n .. r*n+n].
  function Chunks<T>(cells: seq<T>, n: nat, count: nat): seq<seq<T>>
    requires |cells| == count * n
    decreases count
  {
    if count == 0 then []
    else
      var cut := (count - 1) * n;
      Chunks(cells[..cut], n, count - 1) + [cells[cut..]]
  }

  lemma {:induction false} ChunksOfFlatten<T>(rows: seq<seq<T>>, n: nat)
    requires Rectangular(rows, n)
    ensures |Flatten(rows)| == |rows| * n && Chunks(Flatten(rows), n, |rows|) == rows
  {
    FlattenLength(rows, n);
    if rows == [] {
    } else {
      var last := |rows| - 1;
      var cut := (|rows| - 1) * n;
      ChunksOfFlatten(rows[..last], n);
      assert Flatten(rows)[..cut] == Flatten(rows[..last]);
      assert Flatten(rows)[cut..] == rows[last];
    }
  }

  /******* Tables: the id columns are the only unique key *******/

  type Key = seq<Cell>
  type Row = map<string, Cell>
  type Table = map<Key, Row>

  function Get(row: Row, col: string): Cell {
    if col in row then row[col] else None
  }

  function KeyOf(meta: TableMeta, row: Row): Key {
    seq(|meta.idCols|, i requires 0 <= i < |meta.idCols| => Get(row, meta.idCols[i]))
  }

  predicate HasNull(key: Key) {
    exists i :: 0 <= i < |key| && key[i].None?
  }

  function RowOf(cols: seq<string>, cells: seq<Cell>): Row
    requires |cols| == |cells|
  {
    if cols == [] then map[]
    else
      var n := |cols| - 1;
      RowOf(cols[..n], cells[..n])[cols[n] := cells[n]]
  }

  // The stored row after `DO UPDATE SET`: each listed column takes its new value.
  function SetCols(stored: Row, cols: seq<string>, values: Row): Row {
    map c | c in stored.Keys + (set c | c in cols) :: if c in cols then Get(values, c) else stored[c]
  }

  datatype Written = Written(table: Table, touched: set<Key>)

  // One incoming row. Postgres refuses a second update of a row the same statement already touched.
  function WriteRow(meta: TableMeta, verb: Verb, clause: Clause, row: Row, extra: seq<Cell>, w: Written): Option<Written> {
    var key := KeyOf(meta, row);
    var put := Written(w.table[key := row], w.touched + {key});
    if HasNull(key) then None
    else if key !in w.table || verb.ReplaceInto? then Some(put)
    else
      match clause
      case NoClause => None
      case DoNothing(target) => if target == meta.idCols && target != [] then Some(w) else None
      case DoUpdate(target, cols) =>
        if target == meta.idCols && target != [] && key !in w.touched && |cols| == |extra|
        then Some(Written(w.table[key := SetCols(w.table[key], cols, RowOf(cols, extra))], w.touched + {key})) else None
      case DoExcluded(target, cols) =>
        if target == meta.idCols && target != [] && key !in w.touched
        then Some(Written(w.table[key := SetCols(w.table[key], cols, row)], w.touched + {key})) else None
  }

  function WriteRows(meta: TableMeta, verb: Verb, clause: Clause, rows: seq<Row>, extra: seq<Cell>, table: Table): Option<Written> {
    if rows == [] then Some(Written(table, {}))
    else
      var n := |rows| - 1;
      match WriteRows(meta, verb, clause, rows[..n], extra, table)
      case None => None
      case Some(w) => WriteRow(meta, verb, clause, rows[n], extra, w)
  }

  function ExtraCols(clause: Clause): seq<string> {
    if clause.DoUpdate? then clause.cols else []
  }

  function ExecInsert(meta: TableMeta, s: Shape, cells: seq<Cell>, table: Table): Option<Table>
    requires s.Insert?
  {
    var n, size := |s.into|, s.rowCount * |s.into|;
    if |cells| != size + |ExtraCols(s.clause)| || (s.clause != NoClause && s.clause.target == []) then None
    else
      var chunks := Chunks(cells[..size], n, s.rowCount);
      var rows := RowsOf(s.into, chunks);
      match WriteRows(meta, s.verb, s.clause, rows, cells[size..], table)
      case None => None
      case Some(w) => Some(w.table)
  }

  function RowsOf(cols: seq<string>, chunks: seq<seq<Cell>>): seq<Row> {
    seq(|chunks|, r requires 0 <= r < |chunks| => if |chunks[r]| == |cols| then RowOf(cols, chunks[r]) else map[])
  }

  // WHERE over AND-ed conditions, reading the operands from left to right. `= NULL` is never true.
  predicate Holds(conds: seq<Cond>, cells: seq<Cell>, row: Row) {
    conds == [] ||
    var n := |conds| - 1;
    match conds[n]
    case IsNull(col) => Holds(conds[..n], cells, row) && Get(row, col).None?
    case Equals(col) =>
      && cells != []
      && cells[|cells| - 1].Some?
      && Get(row, col) == cells[|cells| - 1]
      && Holds(conds[..n], cells[..|cells| - 1], row)
  }

  function ExecDelete(conds: seq<Cond>, cells: seq<Cell>, table: Table): Table {
    table - (set k | k in table && Holds(conds, cells, table[k]))
  }

  function ExecDeleteIn(meta: TableMeta, s: Shape, cells: seq<Cell>, table: Table): Option<Table>
    requires s.DeleteIn?
  {
    if |cells| != s.rowCount * |s.keys| || s.keys != meta.idCols then None
    else
      var keys := Chunks(cells, |s.keys|, s.rowCount);
      Some(table - (set k | k in table && k in keys && !HasNull(k)))
  }

  // The changed rows, put back under the keys they now have. A NULL key or one that is taken is refused.
  function Rekey(meta: TableMeta, rest: Table, rows: Table): Option<Table> {
    if !DistinctNow(meta, rows) || exists k :: k in rows && (KeyOf(meta, rows[k]) in rest || HasNull(KeyOf(meta, rows[k])))
    then None
    else Some(rest + Moved(meta, rows))
  }

  predicate DistinctNow(meta: TableMeta, rows: Table) {
    forall k, j :: k in rows && j in rows && KeyOf(meta, rows[k]) == KeyOf(meta, rows[j]) ==> k == j
  }

  function Moved(meta: TableMeta, rows: Table): Table
    requires DistinctNow(meta, rows)
  {
    map k | k in rows :: KeyOf(meta, rows[k]) := rows[k]
  }

  // UPDATE ... SET: the leading operands are the new values, the rest are the condition's.
  function ExecUpdate(meta: TableMeta, sets: seq<string>, conds: seq<Cond>, cells: seq<Cell>, table: Table): Option<Table> {
    if |cells| < |sets| then None
    else
      var values := RowOf(sets, cells[..|sets|]);
      var hit := set k | k in table && Holds(conds, cells[|sets|..], table[k]);
      Rekey(meta, table - hit, map k | k in hit :: SetCols(table[k], sets, values))
  }

  function Exec(meta: TableMeta, q: Query, table: Table): Option<Table>
    requires !q.shape.Select?
  {
    if !AllBound(q) then None
    else
      match q.shape
      case Insert(_, _, _, _) => ExecInsert(meta, q.shape, Cells(q), table)
      case Update(sets, conds, _) => ExecUpdate(meta, sets, conds, Cells(q), table)
      case DeleteIn(_, _) => ExecDeleteIn(meta, q.shape, Cells(q), table)
      case Delete(conds, _) => Some(ExecDelete(conds, Cells(q), table))
  }
}
