/** Every way of writing a batch with replace leaves the same table. */
module WriteStrategies {
  import opened Wrappers
  import opened Strings
  import opened Sql
  import opened QueryBuilder
  import opened BindAlignment

  // The id columns are columns of the table, and there is at least one.
  ghost predicate MetaOk(meta: TableMeta) {
    && Distinct(meta.cols)
    && meta.idCols != []
    && forall i :: 0 <= i < |meta.idCols| ==> meta.idCols[i] in meta.cols
  }

  ghost predicate Writable(meta: TableMeta, image: Image) {
    Carried(image, meta.cols) && FullKey(image, meta.idCols)
  }

  ghost predicate AllWritable(meta: TableMeta, images: seq<Image>) {
    forall r :: 0 <= r < |images| ==> Writable(meta, images[r])
  }

  function CellsOf(image: Image, cols: seq<string>): seq<Cell> {
    seq(|cols|, i requires 0 <= i < |cols| => BindCell(Lookup(image, cols[i])))
  }

  // The row an image describes, and its key.
  function RowFrom(meta: TableMeta, image: Image): Row {
    RowOf(meta.cols, CellsOf(image, meta.cols))
  }

  function KeyFrom(meta: TableMeta, image: Image): Key {
    CellsOf(image, meta.idCols)
  }

  ghost predicate DistinctKeys(meta: TableMeta, images: seq<Image>) {
    forall r, s :: 0 <= r < s < |images| ==> KeyFrom(meta, images[r]) != KeyFrom(meta, images[s])
  }

  ghost predicate RowOk(meta: TableMeta, row: Row) {
    forall c :: c in row <==> c in meta.cols
  }

  ghost predicate TableOk(meta: TableMeta, table: Table) {
    forall k :: k in table ==> KeyOf(meta, table[k]) == k && !HasNull(k) && RowOk(meta, table[k])
  }

  // The reference: each image's row stored under its key, later images winning.
  function Overlay(meta: TableMeta, table: Table, images: seq<Image>): Table {
    if images == [] then table
    else
      var n := |images| - 1;
      Overlay(meta, table, images[..n])[KeyFrom(meta, images[n]) := RowFrom(meta, images[n])]
  }

  /******* Rows *******/

  lemma {:induction false} RowOfAt(cols: seq<string>, cells: seq<Cell>, i: nat)
    requires |cols| == |cells| && Distinct(cols) && i < |cols|
    ensures cols[i] in RowOf(cols, cells) && RowOf(cols, cells)[cols[i]] == cells[i]
  {
    var n := |cols| - 1;
    if i < n {
      RowOfAt(cols[..n], cells[..n], i);
    }
  }

  lemma {:induction false} RowOfKeys(cols: seq<string>, cells: seq<Cell>)
    requires |cols| == |cells|
    ensures forall c :: c in RowOf(cols, cells) <==> c in cols
  {
    if cols == [] {
    } else {
      var n := |cols| - 1;
      RowOfKeys(cols[..n], cells[..n]);
      assert cols == cols[..n] + [cols[n]];
    }
  }

  lemma RowGet(meta: TableMeta, image: Image, c: string)
    requires Distinct(meta.cols) && c in meta.cols
    ensures Get(RowFrom(meta, image), c) == BindCell(Lookup(image, c))
  {
    var i :| 0 <= i < |meta.cols| && meta.cols[i] == c;
    RowOfAt(meta.cols, CellsOf(image, meta.cols), i);
  }

  lemma RowFits(meta: TableMeta, image: Image)
    requires MetaOk(meta) && Writable(meta, image)
    ensures KeyOf(meta, RowFrom(meta, image)) == KeyFrom(meta, image)
    ensures !HasNull(KeyFrom(meta, image))
    ensures RowOk(meta, RowFrom(meta, image))
  {
    RowOfKeys(meta.cols, CellsOf(image, meta.cols));
    forall i | 0 <= i < |meta.idCols|
      ensures KeyOf(meta, RowFrom(meta, image))[i] == KeyFrom(meta, image)[i]
      ensures KeyFrom(meta, image)[i].Some?
    {
      RowGet(meta, image, meta.idCols[i]);
      assert !IsNullId(image, meta.idCols[i]) && Lookup(image, meta.idCols[i]) != Some(Unavailable);
    }
  }

  lemma {:induction false} OverlayOk(meta: TableMeta, table: Table, images: seq<Image>)
    requires MetaOk(meta) && TableOk(meta, table) && AllWritable(meta, images)
    ensures TableOk(meta, Overlay(meta, table, images))
  {
    hide RowFrom, KeyFrom, KeyOf, HasNull, Lookup, RowOk;
    if images == [] {
    } else {
      var n := |images| - 1;
      OverlayOk(meta, table, images[..n]);
      RowFits(meta, images[n]);
    }
  }

  lemma {:induction false} NonKeyMembers(cols: seq<string>, idCols: seq<string>, c: string)
    ensures c in NonKey(cols, idCols) <==> c in cols && c !in idCols
  {
    if cols == [] {
    } else {
      var n := |cols| - 1;
      NonKeyMembers(cols[..n], idCols, c);
      assert cols == cols[..n] + [cols[n]];
    }
  }

  // Setting the non-key columns of the stored row with the same key makes it the incoming row.
  lemma SetIsReplace(meta: TableMeta, stored: Row, row: Row, values: Row)
    requires MetaOk(meta) && RowOk(meta, stored) && RowOk(meta, row)
    requires KeyOf(meta, stored) == KeyOf(meta, row)
    requires forall c :: c in NonKey(meta.cols, meta.idCols) ==> Get(values, c) == Get(row, c)
    ensures SetCols(stored, NonKey(meta.cols, meta.idCols), values) == row
  {
    var rest := NonKey(meta.cols, meta.idCols);
    var result := SetCols(stored, rest, values);
    forall c
      ensures c in result <==> c in row
      ensures c in row ==> result[c] == row[c]
    {
      NonKeyMembers(meta.cols, meta.idCols, c);
      if c in row && c !in rest {
        var i :| 0 <= i < |meta.idCols| && meta.idCols[i] == c;
        assert KeyOf(meta, stored)[i] == KeyOf(meta, row)[i];
      }
    }
  }

  /******* One incoming row *******/

  function UpsertClause(meta: TableMeta): Clause {
    var rest := NonKey(meta.cols, meta.idCols);
    if rest == [] then DoNothing(meta.idCols) else DoExcluded(meta.idCols, rest)
  }

  // A table with only key columns already holds the incoming row when it holds its key.
  lemma AllKeyRow(meta: TableMeta, stored: Row, row: Row)
    requires MetaOk(meta) && RowOk(meta, stored) && RowOk(meta, row)
    requires KeyOf(meta, stored) == KeyOf(meta, row) && NonKey(meta.cols, meta.idCols) == []
    ensures stored == row
  {
    SetIsReplace(meta, stored, row, row);
  }

  lemma UpsertRow(meta: TableMeta, image: Image, w: Written)
    requires MetaOk(meta) && TableOk(meta, w.table) && Writable(meta, image)
    requires KeyFrom(meta, image) !in w.touched || NonKey(meta.cols, meta.idCols) == []
    ensures var r := WriteRow(meta, InsertInto, UpsertClause(meta), RowFrom(meta, image), [], w);
            && r.Some? && r.value.table == w.table[KeyFrom(meta, image) := RowFrom(meta, image)]
            && r.value.touched <= w.touched + {KeyFrom(meta, image)}
  {
    hide RowFrom, KeyFrom, KeyOf, HasNull, SetCols, Lookup, RowOf, NonKey, Distinct, RowOk, Carried, FullKey;
    var key, row, rest := KeyFrom(meta, image), RowFrom(meta, image), NonKey(meta.cols, meta.idCols);
    RowFits(meta, image);
    if key in w.table {
      SetIsReplace(meta, w.table[key], row, row);
      if rest == [] {
        AllKeyRow(meta, w.table[key], row);
        assert w.table == w.table[key := row];
      }
    }
  }

  lemma {:induction false} RowValues(rest: seq<string>, image: Image, c: string)
    requires c in rest
    ensures Get(RowOf(rest, CellsOf(image, rest)), c) == BindCell(Lookup(image, c))
  {
    var n := |rest| - 1;
    RowOfKeys(rest, CellsOf(image, rest));
    if c != rest[n] {
      assert c in rest[..n];
      RowValues(rest[..n], image, c);
      assert CellsOf(image, rest)[..n] == CellsOf(image, rest[..n]);
    }
  }

  // The single-row form binds the new values a second time instead of naming EXCLUDED.
  lemma UpsertRowByBinds(meta: TableMeta, image: Image, table: Table)
    requires MetaOk(meta) && TableOk(meta, table) && Writable(meta, image)
    ensures var rest := NonKey(meta.cols, meta.idCols);
            var r := WriteRow(meta, InsertInto, DoUpdate(meta.idCols, rest), RowFrom(meta, image),
                              CellsOf(image, rest), Written(table, {}));
            r.Some? && r.value.table == table[KeyFrom(meta, image) := RowFrom(meta, image)]
  {
    hide RowFrom, KeyFrom, KeyOf, HasNull, SetCols, Lookup, RowOf, NonKey, Distinct, RowOk;
    var rest := NonKey(meta.cols, meta.idCols);
    var key, row, values := KeyFrom(meta, image), RowFrom(meta, image), RowOf(rest, CellsOf(image, rest));
    RowFits(meta, image);
    forall c | c in rest ensures Get(values, c) == Get(row, c) {
      RowValues(rest, image, c);
      NonKeyMembers(meta.cols, meta.idCols, c);
      RowGet(meta, image, c);
    }
    if key in table {
      SetIsReplace(meta, table[key], row, values);
    }
  }

  /******* Batches *******/

  function RowsFrom(meta: TableMeta, images: seq<Image>): seq<Row> {
    seq(|images|, r requires 0 <= r < |images| => RowFrom(meta, images[r]))
  }

  function KeysFrom(meta: TableMeta, images: seq<Image>): set<Key> {
    set r | 0 <= r < |images| :: KeyFrom(meta, images[r])
  }

  lemma RowsInit(meta: TableMeta, images: seq<Image>)
    requires images != []
    ensures var n := |images| - 1;
            && |RowsFrom(meta, images)| == |images|
            && RowsFrom(meta, images)[..n] == RowsFrom(meta, images[..n])
            && RowsFrom(meta, images)[n] == RowFrom(meta, images[n])
            && KeysFrom(meta, images) == KeysFrom(meta, images[..n]) + {KeyFrom(meta, images[n])}
  {
    hide RowFrom, KeyFrom, Lookup;
    var n := |images| - 1;
    forall k ensures k in KeysFrom(meta, images) <==> k in KeysFrom(meta, images[..n]) + {KeyFrom(meta, images[n])} {
      if k in KeysFrom(meta, images[..n]) {
        var r :| 0 <= r < n && k == KeyFrom(meta, images[..n][r]);
        assert images[r] == images[..n][r];
      }
      if k in KeysFrom(meta, images) {
        var r :| 0 <= r <= n && k == KeyFrom(meta, images[r]);
        assert r < n ==> images[..n][r] == images[r];
      }
    }
  }

  lemma {:induction false} ReplaceRows(meta: TableMeta, images: seq<Image>, table: Table)
    requires MetaOk(meta) && AllWritable(meta, images)
    ensures var r := WriteRows(meta, ReplaceInto, NoClause, RowsFrom(meta, images), [], table);
            r.Some? && r.value.table == Overlay(meta, table, images)
  {
    hide RowFrom, KeyFrom, KeyOf, HasNull, SetCols, Lookup;
    if images == [] {
    } else {
      var n := |images| - 1;
      RowsInit(meta, images);
      ReplaceRows(meta, images[..n], table);
      RowFits(meta, images[n]);
    }
  }

  lemma {:induction false} UpsertRows(meta: TableMeta, images: seq<Image>, table: Table)
    requires MetaOk(meta) && TableOk(meta, table) && AllWritable(meta, images)
    requires DistinctKeys(meta, images) || NonKey(meta.cols, meta.idCols) == []
    ensures var r := WriteRows(meta, InsertInto, UpsertClause(meta), RowsFrom(meta, images), [], table);
            && r.Some? && r.value.table == Overlay(meta, table, images)
            && r.value.touched <= KeysFrom(meta, images)
  {
    hide RowFrom, KeyFrom, KeyOf, HasNull, SetCols, Lookup, WriteRow;
    if images == [] {
    } else {
      var n := |images| - 1;
      RowsInit(meta, images);
      UpsertRows(meta, images[..n], table);
      OverlayOk(meta, table, images[..n]);
      var w := WriteRows(meta, InsertInto, UpsertClause(meta), RowsFrom(meta, images[..n]), [], table).value;
      if DistinctKeys(meta, images) {
        LastKeyDistinct(meta, images);
      }
      hide NonKey, DistinctKeys, KeysFrom;
      UpsertRow(meta, images[n], w);
      RowFits(meta, images[n]);
    }
  }

  // Postgres refuses a batch that would update one row twice, so with a column to set the batch upsert
  // goes through exactly when its keys are distinct.
  lemma {:induction false} UpsertNeedsDistinctKeys(meta: TableMeta, images: seq<Image>, table: Table)
    requires MetaOk(meta) && AllWritable(meta, images) && NonKey(meta.cols, meta.idCols) != []
    ensures var r := WriteRows(meta, InsertInto, UpsertClause(meta), RowsFrom(meta, images), [], table);
            && (r.Some? <==> DistinctKeys(meta, images))
            && (r.Some? ==> r.value.touched == KeysFrom(meta, images) <= r.value.table.Keys)
  {
    hide RowFrom, KeyFrom, KeyOf, HasNull, SetCols, Lookup, DistinctKeys, KeysFrom, RowsFrom, Distinct;
    if images != [] {
      var n := |images| - 1;
      RowsInit(meta, images);
      UpsertNeedsDistinctKeys(meta, images[..n], table);
      RowFits(meta, images[n]);
      LastKeyDistinct(meta, images);
    } else {
      NothingDistinct(meta);
    }
  }

  lemma NothingDistinct(meta: TableMeta)
    ensures DistinctKeys(meta, []) && KeysFrom(meta, []) == {} && RowsFrom(meta, []) == []
  {
  }

  lemma LastKeyDistinct(meta: TableMeta, images: seq<Image>)
    requires images != []
    ensures var n := |images| - 1;
            DistinctKeys(meta, images) <==>
            DistinctKeys(meta, images[..n]) && KeyFrom(meta, images[n]) !in KeysFrom(meta, images[..n])
  {
    hide RowFrom, KeyFrom, Lookup;
    var n := |images| - 1;
    var init := images[..n];
    assert forall r :: 0 <= r < n ==> init[r] == images[r];
    if DistinctKeys(meta, images) {
      forall r | 0 <= r < n ensures KeyFrom(meta, init[r]) != KeyFrom(meta, images[n]) {
        assert KeyFrom(meta, images[r]) != KeyFrom(meta, images[n]);
      }
    }
    if DistinctKeys(meta, init) && KeyFrom(meta, images[n]) !in KeysFrom(meta, init) {
      forall r, s | 0 <= r < s < |images| ensures KeyFrom(meta, images[r]) != KeyFrom(meta, images[s]) {
        assert KeyFrom(meta, init[r]) in KeysFrom(meta, init);
        if s < n {
          assert KeyFrom(meta, init[r]) != KeyFrom(meta, init[s]);
        }
      }
    }
  }

  // A plain INSERT goes through exactly when no incoming key is taken, by the table or within the batch.
  lemma {:induction false} PlainRows(meta: TableMeta, images: seq<Image>, table: Table)
    requires MetaOk(meta) && AllWritable(meta, images)
    ensures var r := WriteRows(meta, InsertInto, NoClause, RowsFrom(meta, images), [], table);
            && (r.Some? <==> DistinctKeys(meta, images) && KeysFrom(meta, images) !! table.Keys)
            && (r.Some? ==> r.value.table == Overlay(meta, table, images) &&
                            r.value.table.Keys == table.Keys + KeysFrom(meta, images))
  {
    hide RowFrom, KeyFrom, KeyOf, HasNull, SetCols, Lookup, DistinctKeys, KeysFrom, RowsFrom, Distinct;
    if images != [] {
      var n := |images| - 1;
      RowsInit(meta, images);
      PlainRows(meta, images[..n], table);
      RowFits(meta, images[n]);
      LastKeyDistinct(meta, images);
    } else {
      NothingDistinct(meta);
    }
  }

  /******* From the builder's query to rows *******/

  lemma CellsOfAligned(q: Query)
    requires Aligned(q) && forall i :: 0 <= i < |q.slots| ==> !q.slots[i].Literal?
    ensures AllBound(q) && |Cells(q)| == |q.binds|
    ensures forall i :: 0 <= i < |q.binds| ==> Cells(q)[i] == BindCell(q.binds[i])
  {
  }

  function CellRows(images: seq<Image>, cols: seq<string>): seq<seq<Cell>> {
    seq(|images|, r requires 0 <= r < |images| => CellsOf(images[r], cols))
  }

  lemma {:induction false} FlattenCells(images: seq<Image>, cols: seq<string>)
    ensures var picked, cells := Flatten(PickedRows(images, cols)), Flatten(CellRows(images, cols));
            |picked| == |cells| && forall i :: 0 <= i < |cells| ==> cells[i] == BindCell(picked[i])
  {
    hide Lookup;
    if images == [] {
    } else {
      var n := |images| - 1;
      FlattenCells(images[..n], cols);
      assert PickedRows(images, cols)[..n] == PickedRows(images[..n], cols);
      assert CellRows(images, cols)[..n] == CellRows(images[..n], cols);
      assert forall i :: 0 <= i < |cols| ==> CellsOf(images[n], cols)[i] == BindCell(Picked(images[n], cols)[i]);
    }
  }

  lemma BatchCells(meta: TableMeta, db: DbType, images: seq<Image>, replace: bool)
    requires meta.cols != []
    ensures var q := BatchInsertSpec(meta, db, images, |images|, replace);
            AllBound(q) && Cells(q) == Flatten(CellRows(images, meta.cols))
  {
    var q := BatchInsertSpec(meta, db, images, |images|, replace);
    BatchAligned(meta, db, images, |images|, replace);
    CellsOfAligned(q);
    FlattenCells(images, meta.cols);
  }

  lemma KeyBatchCells(meta: TableMeta, db: DbType, images: seq<Image>)
    requires meta.idCols != []
    ensures var q := KeyBatchSpec(meta, db, images, |images|);
            AllBound(q) && Cells(q) == Flatten(CellRows(images, meta.idCols))
  {
    var q := KeyBatchSpec(meta, db, images, |images|);
    KeyBatchAligned(meta, db, images, |images|);
    CellsOfAligned(q);
    FlattenCells(images, meta.idCols);
  }

  // Executing a batch insert is writing the images' rows under its verb and clause.
  lemma BatchInsertRuns(meta: TableMeta, db: DbType, images: seq<Image>, replace: bool, table: Table)
    requires meta.cols != [] && meta.idCols != []
    ensures var q := BatchInsertSpec(meta, db, images, |images|, replace);
            var r := WriteRows(meta, q.shape.verb, q.shape.clause, RowsFrom(meta, images), [], table);
            Exec(meta, q, table) == if r.None? then None else Some(r.value.table)
  {
    var q := BatchInsertSpec(meta, db, images, |images|, replace);
    var rows := CellRows(images, meta.cols);
    var cells := Flatten(rows);
    BatchCells(meta, db, images, replace);
    ChunksOfFlatten(rows, |meta.cols|);
    assert cells[..|images| * |meta.cols|] == cells && cells[|images| * |meta.cols|..] == [];
    assert RowsOf(meta.cols, rows) == RowsFrom(meta, images);
  }

  lemma SingleCells(meta: TableMeta, db: DbType, image: Image)
    ensures var q, rest := ReplaceSpec(meta, db, image, true), NonKey(meta.cols, meta.idCols);
            && AllBound(q)
            && Cells(q) == CellsOf(image, meta.cols) + if q.shape.clause.DoUpdate? then CellsOf(image, rest) else []
  {
    hide Lookup, NonKey, Aligned, AllBound, Cells;
    var q := ReplaceSpec(meta, db, image, true);
    ReplaceAligned(meta, db, image);
    CellsOfAligned(q);
  }

  lemma OneChunk<T>(cells: seq<T>, n: nat)
    requires |cells| == n
    ensures 1 * n == n && Chunks(cells, n, 1) == [cells]
  {
    assert Chunks(cells[..0], n, 0) == [];
    assert cells[0..] == cells;
  }

  lemma SingleRuns(meta: TableMeta, db: DbType, image: Image, table: Table)
    requires meta.idCols != []
    ensures var q, rest := ReplaceSpec(meta, db, image, true), NonKey(meta.cols, meta.idCols);
            var extra := if q.shape.clause.DoUpdate? then CellsOf(image, rest) else [];
            var r := WriteRow(meta, q.shape.verb, q.shape.clause, RowFrom(meta, image), extra, Written(table, {}));
            Exec(meta, q, table) == if r.None? then None else Some(r.value.table)
  {
    var q, rest, n := ReplaceSpec(meta, db, image, true), NonKey(meta.cols, meta.idCols), |meta.cols|;
    var values := CellsOf(image, meta.cols);
    var extra := if q.shape.clause.DoUpdate? then CellsOf(image, rest) else [];
    SingleCells(meta, db, image);
    assert Cells(q)[..n] == values && Cells(q)[n..] == extra;
    OneChunk(values, n);
    var rows := RowsOf(meta.cols, [values]);
    assert rows == [RowFrom(meta, image)] && rows[..0] == [];
    assert WriteRows(meta, q.shape.verb, q.shape.clause, rows, extra, table) ==
           WriteRow(meta, q.shape.verb, q.shape.clause, rows[0], extra, Written(table, {}));
  }

  /******* Deleting first *******/

  lemma {:induction false} HoldsIsKey(idCols: seq<string>, image: Image, row: Row)
    requires FullKey(image, idCols)
    ensures Holds(WhereConds(idCols, image), CellsOf(image, idCols), row) <==>
            forall i :: 0 <= i < |idCols| ==> Get(row, idCols[i]) == CellsOf(image, idCols)[i]
  {
    if idCols == [] {
    } else {
      var n := |idCols| - 1;
      var conds, cells := WhereConds(idCols, image), CellsOf(image, idCols);
      HoldsIsKey(idCols[..n], image, row);
      assert conds[..n] == WhereConds(idCols[..n], image) && cells[..n] == CellsOf(image, idCols[..n]);
      assert !IsNullId(image, idCols[n]) && Lookup(image, idCols[n]) != Some(Unavailable);
      assert forall i :: 0 <= i < n ==> idCols[..n][i] == idCols[i] && cells[..n][i] == cells[i];
    }
  }

  lemma FullKeyCols(idCols: seq<string>, image: Image)
    requires FullKey(image, idCols)
    ensures NotNullCols(idCols, image) == idCols && NullsLast(idCols, image)
  {
    NoNullKeepsAll(idCols, image);
  }

  // GaussDBOracle's single-row delete removes exactly the row stored under the incoming key.
  lemma ReplaceDeleteRuns(meta: TableMeta, db: DbType, image: Image, table: Table)
    requires MetaOk(meta) && TableOk(meta, table) && Writable(meta, image)
    ensures Exec(meta, ReplaceDeleteSpec(meta, db, image), table) == Some(table - {KeyFrom(meta, image)})
  {
    hide Lookup, AllBound, Cells, WhereConds, WhereSlots, NotNullCols, CellsOf, FullKey, Carried, Holds, TableOk, MetaOk;
    var q, key := ReplaceDeleteSpec(meta, db, image), KeyFrom(meta, image);
    ReplaceDeleteCells(meta, db, image);
    forall k | k in table ensures Holds(q.shape.conds, key, table[k]) <==> k == key {
      HoldsAtKey(meta, image, table, k);
    }
    assert table - (set k | k in table && Holds(q.shape.conds, key, table[k])) == table - {key};
  }

  lemma HoldsAtKey(meta: TableMeta, image: Image, table: Table, k: Key)
    requires TableOk(meta, table) && FullKey(image, meta.idCols) && k in table
    ensures Holds(WhereConds(meta.idCols, image), KeyFrom(meta, image), table[k]) <==> k == KeyFrom(meta, image)
  {
    hide Lookup, WhereConds, FullKey, Holds, KeyOf, RowOk;
    HoldsIsKey(meta.idCols, image, table[k]);
    assert KeyOf(meta, table[k]) == k;
    KeyByColumns(meta, table[k], KeyFrom(meta, image));
  }

  lemma KeyByColumns(meta: TableMeta, row: Row, key: Key)
    requires |key| == |meta.idCols|
    ensures KeyOf(meta, row) == key <==> forall i :: 0 <= i < |meta.idCols| ==> Get(row, meta.idCols[i]) == key[i]
  {
    if forall i :: 0 <= i < |meta.idCols| ==> Get(row, meta.idCols[i]) == key[i] {
      assert forall i :: 0 <= i < |key| ==> KeyOf(meta, row)[i] == key[i];
    }
  }

  lemma ReplaceDeleteCells(meta: TableMeta, db: DbType, image: Image)
    requires FullKey(image, meta.idCols)
    ensures var q := ReplaceDeleteSpec(meta, db, image); AllBound(q) && Cells(q) == KeyFrom(meta, image)
  {
    var q := ReplaceDeleteSpec(meta, db, image);
    FullKeyCols(meta.idCols, image);
    WhereAligned(q.shape, db, meta, image);
    WhereNumbered(db, meta.idCols, 1, image);
    CellsOfAligned(q);
  }

  lemma KeyNotNull(idCols: seq<string>, image: Image)
    requires FullKey(image, idCols)
    ensures !HasNull(CellsOf(image, idCols))
  {
    forall i | 0 <= i < |idCols| ensures CellsOf(image, idCols)[i].Some? {
      assert !IsNullId(image, idCols[i]) && Lookup(image, idCols[i]) != Some(Unavailable);
    }
  }

  lemma KeyBatchRuns(meta: TableMeta, db: DbType, images: seq<Image>, table: Table)
    requires meta.idCols != [] && forall r :: 0 <= r < |images| ==> FullKey(images[r], meta.idCols)
    ensures Exec(meta, KeyBatchSpec(meta, db, images, |images|), table) == Some(table - KeysFrom(meta, images))
  {
    var rows := CellRows(images, meta.idCols);
    KeyBatchCells(meta, db, images);
    ChunksOfFlatten(rows, |meta.idCols|);
    forall k ensures k in rows <==> k in KeysFrom(meta, images) {
      if k in rows {
        var r :| 0 <= r < |rows| && rows[r] == k;
        assert k == KeyFrom(meta, images[r]);
      }
      if k in KeysFrom(meta, images) {
        var r :| 0 <= r < |images| && k == KeyFrom(meta, images[r]);
        assert rows[r] == k;
      }
    }
    forall k | k in KeysFrom(meta, images) ensures !HasNull(k) {
      var r :| 0 <= r < |images| && k == KeyFrom(meta, images[r]);
      KeyNotNull(meta.idCols, images[r]);
    }
    assert table - (set k | k in table && k in rows && !HasNull(k)) == table - KeysFrom(meta, images);
  }

  /******* Overlay laws *******/

  lemma {:induction false} OverlayIsUnion(meta: TableMeta, table: Table, images: seq<Image>)
    ensures Overlay(meta, table, images) == table + Overlay(meta, map[], images)
    ensures Overlay(meta, map[], images).Keys == KeysFrom(meta, images)
  {
    hide RowFrom, KeyFrom, Lookup, KeysFrom, RowsFrom;
    if images == [] {
      NothingDistinct(meta);
    } else {
      var n := |images| - 1;
      OverlayIsUnion(meta, table, images[..n]);
      RowsInit(meta, images);
      var key, row, before := KeyFrom(meta, images[n]), RowFrom(meta, images[n]), Overlay(meta, map[], images[..n]);
      assert (table + before)[key := row] == table + before[key := row];
    }
  }

  lemma OverlayTwice(meta: TableMeta, table: Table, images: seq<Image>)
    ensures Overlay(meta, Overlay(meta, table, images), images) == Overlay(meta, table, images)
  {
    OverlayIsUnion(meta, table, images);
    OverlayIsUnion(meta, Overlay(meta, table, images), images);
  }

  lemma OverlayAfterDelete(meta: TableMeta, table: Table, images: seq<Image>)
    ensures Overlay(meta, table - KeysFrom(meta, images), images) == Overlay(meta, table, images)
  {
    OverlayIsUnion(meta, table, images);
    OverlayIsUnion(meta, table - KeysFrom(meta, images), images);
  }

  /******* The strategies *******/

  // Row by row: the single-row replace, preceded by a delete on GaussDBOracle.
  function WriteOne(meta: TableMeta, db: DbType, image: Image, table: Table): Option<Table> {
    var cleared := if db.GaussDBOracle? then Exec(meta, ReplaceDeleteSpec(meta, db, image), table) else Some(table);
    if cleared.None? then None else Exec(meta, ReplaceSpec(meta, db, image, true), cleared.value)
  }

  function WriteSerially(meta: TableMeta, db: DbType, images: seq<Image>, table: Table): Option<Table> {
    if images == [] then Some(table)
    else
      var n := |images| - 1;
      var before := WriteSerially(meta, db, images[..n], table);
      if before.None? then None else WriteOne(meta, db, images[n], before.value)
  }

  // The whole batch at once, preceded by a batch delete on GaussDBOracle.
  function WriteBatch(meta: TableMeta, db: DbType, images: seq<Image>, table: Table): Option<Table> {
    var cleared := if db.GaussDBOracle? then Exec(meta, KeyBatchSpec(meta, db, images, |images|), table) else Some(table);
    if cleared.None? then None else Exec(meta, BatchInsertSpec(meta, db, images, |images|, true), cleared.value)
  }

  lemma OneRowAgrees(meta: TableMeta, db: DbType, image: Image, table: Table)
    requires MetaOk(meta) && TableOk(meta, table) && Writable(meta, image)
    ensures WriteOne(meta, db, image, table) == Some(table[KeyFrom(meta, image) := RowFrom(meta, image)])
  {
    hide Exec, RowFrom, KeyFrom, KeyOf, HasNull, SetCols, Lookup, RowOf, CellsOf, TableOk;
    var key, row := KeyFrom(meta, image), RowFrom(meta, image);
    RowFits(meta, image);
    SingleRuns(meta, db, image, table);
    if HasOnConflict(db) {
      if NonKey(meta.cols, meta.idCols) == [] {
        UpsertRow(meta, image, Written(table, {}));
      } else {
        UpsertRowByBinds(meta, image, table);
      }
    } else if db.GaussDBOracle? {
      ReplaceDeleteRuns(meta, db, image, table);
      SingleRuns(meta, db, image, table - {key});
      assert (table - {key})[key := row] == table[key := row];
    }
  }

  // Row by row, every database ends with the reference table, whatever keys repeat.
  lemma {:induction false} SerialAgrees(meta: TableMeta, db: DbType, images: seq<Image>, table: Table)
    requires MetaOk(meta) && TableOk(meta, table) && AllWritable(meta, images)
    ensures WriteSerially(meta, db, images, table) == Some(Overlay(meta, table, images))
  {
    hide WriteOne;
    if images == [] {
    } else {
      var n := |images| - 1;
      SerialAgrees(meta, db, images[..n], table);
      OverlayOk(meta, table, images[..n]);
      OneRowAgrees(meta, db, images[n], Overlay(meta, table, images[..n]));
    }
  }

  // Which batches each database takes.
  ghost predicate BatchGoes(meta: TableMeta, db: DbType, images: seq<Image>, table: Table) {
    match db
    case Mysql => true
    case Pg => DistinctKeys(meta, images) || NonKey(meta.cols, meta.idCols) == []
    case GaussDBPg => DistinctKeys(meta, images) || NonKey(meta.cols, meta.idCols) == []
    case GaussDBOracle => DistinctKeys(meta, images)
    case GaussDBMySQL => DistinctKeys(meta, images) && KeysFrom(meta, images) !! table.Keys
  }

  // Any batch, on any database, leaves the reference table or is refused, and this says which.
  lemma BatchExact(meta: TableMeta, db: DbType, images: seq<Image>, table: Table)
    requires MetaOk(meta) && TableOk(meta, table) && AllWritable(meta, images)
    ensures WriteBatch(meta, db, images, table) ==
            if BatchGoes(meta, db, images, table) then Some(Overlay(meta, table, images)) else None
  {
    hide Exec, WriteRows, Overlay, KeysFrom, Lookup, DistinctKeys, TableOk, NonKey;
    assert meta.cols != [] by { assert meta.idCols[0] in meta.cols; }
    BatchInsertRuns(meta, db, images, true, table);
    if HasOnConflict(db) {
      if BatchGoes(meta, db, images, table) {
        UpsertRows(meta, images, table);
      } else {
        UpsertNeedsDistinctKeys(meta, images, table);
      }
    } else if db.Mysql? {
      ReplaceRows(meta, images, table);
    } else if db.GaussDBMySQL? {
      PlainRows(meta, images, table);
    } else {
      var keys := KeysFrom(meta, images);
      KeyBatchRuns(meta, db, images, table);
      BatchInsertRuns(meta, db, images, true, table - keys);
      PlainRows(meta, images, table - keys);
      OverlayAfterDelete(meta, table, images);
    }
  }

  // In one batch with distinct keys, Postgres, GaussDB-PG, MySQL and GaussDBOracle end there too.
  lemma BatchAgrees(meta: TableMeta, db: DbType, images: seq<Image>, table: Table)
    requires MetaOk(meta) && TableOk(meta, table) && AllWritable(meta, images) && DistinctKeys(meta, images)
    requires !db.GaussDBMySQL?
    ensures WriteBatch(meta, db, images, table) == Some(Overlay(meta, table, images))
  {
    hide WriteBatch, Overlay, DistinctKeys, TableOk, NonKey;
    BatchExact(meta, db, images, table);
  }

  // What the sinker does with a refused batch: it writes the rows one by one.
  function WriteOrFallBack(meta: TableMeta, db: DbType, images: seq<Image>, table: Table): Option<Table> {
    var batch := WriteBatch(meta, db, images, table);
    if batch.Some? then batch else WriteSerially(meta, db, images, table)
  }

  // So every batch ends in the reference table, repeated and stored keys included, and again when sent again.
  lemma FallbackAgrees(meta: TableMeta, db: DbType, images: seq<Image>, table: Table)
    requires MetaOk(meta) && TableOk(meta, table) && AllWritable(meta, images)
    ensures WriteOrFallBack(meta, db, images, table) == Some(Overlay(meta, table, images))
    ensures WriteOrFallBack(meta, db, images, Overlay(meta, table, images)) == Some(Overlay(meta, table, images))
  {
    hide WriteBatch, WriteSerially, Overlay, TableOk, BatchGoes;
    BatchExact(meta, db, images, table);
    SerialAgrees(meta, db, images, table);
    OverlayOk(meta, table, images);
    BatchExact(meta, db, images, Overlay(meta, table, images));
    SerialAgrees(meta, db, images, Overlay(meta, table, images));
    OverlayTwice(meta, table, images);
  }

  // GaussDB in MySQL mode gets neither REPLACE nor ON CONFLICT in a batch: it agrees with the others
  // exactly when no incoming key is stored yet, and is refused otherwise.
  lemma GaussMySqlBatch(meta: TableMeta, images: seq<Image>, table: Table)
    requires MetaOk(meta) && TableOk(meta, table) && AllWritable(meta, images) && DistinctKeys(meta, images)
    ensures WriteBatch(meta, GaussDBMySQL, images, table) ==
            if KeysFrom(meta, images) !! table.Keys then Some(Overlay(meta, table, images)) else None
  {
    hide WriteBatch, Overlay, KeysFrom, DistinctKeys, TableOk;
    BatchExact(meta, GaussDBMySQL, images, table);
  }

  // So the batch that went through once is refused when it is sent again.
  lemma GaussMySqlRetryFails(meta: TableMeta, images: seq<Image>, table: Table)
    requires MetaOk(meta) && TableOk(meta, table) && AllWritable(meta, images) && DistinctKeys(meta, images)
    requires images != [] && KeysFrom(meta, images) !! table.Keys
    ensures var once := WriteBatch(meta, GaussDBMySQL, images, table);
            once.Some? && WriteBatch(meta, GaussDBMySQL, images, once.value).None?
  {
    hide WriteBatch, TableOk;
    var n := |images| - 1;
    var key, after := KeyFrom(meta, images[n]), Overlay(meta, table, images);
    GaussMySqlBatch(meta, images, table);
    OverlayOk(meta, table, images);
    GaussMySqlBatch(meta, images, after);
    assert key in after && key in KeysFrom(meta, images);
  }

  // With a column to set, a Postgres batch goes through exactly when its keys are distinct.
  lemma PgBatchNeedsDistinctKeys(meta: TableMeta, db: DbType, images: seq<Image>, table: Table)
    requires MetaOk(meta) && AllWritable(meta, images) && HasOnConflict(db) && NonKey(meta.cols, meta.idCols) != []
    ensures WriteBatch(meta, db, images, table).Some? <==> DistinctKeys(meta, images)
  {
    hide Exec, WriteRows, Overlay, KeysFrom, Lookup;
    assert meta.cols != [] by { assert meta.idCols[0] in meta.cols; }
    BatchInsertRuns(meta, db, images, true, table);
    UpsertNeedsDistinctKeys(meta, images, table);
  }

  // All strategies on all databases give one table, and writing the batch again changes nothing.
  lemma StrategiesAgree(meta: TableMeta, db: DbType, other: DbType, images: seq<Image>, table: Table)
    requires MetaOk(meta) && TableOk(meta, table) && AllWritable(meta, images) && DistinctKeys(meta, images)
    requires !db.GaussDBMySQL?
    ensures WriteBatch(meta, db, images, table) == WriteSerially(meta, other, images, table)
    ensures var once := WriteBatch(meta, db, images, table);
            once.Some? && WriteBatch(meta, db, images, once.value) == once
  {
    hide WriteBatch, WriteSerially, Overlay, TableOk;
    BatchAgrees(meta, db, images, table);
    SerialAgrees(meta, other, images, table);
    OverlayOk(meta, table, images);
    BatchAgrees(meta, db, images, Overlay(meta, table, images));
    OverlayTwice(meta, table, images);
  }
}
