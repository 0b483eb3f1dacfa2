/** Which bind each placeholder reads. */
module BindAlignment {
  import opened Wrappers
  import opened Strings
  import opened Sql
  import opened QueryBuilder

  function CondCols(conds: seq<Cond>): seq<string> {
    if conds == [] then []
    else
      var n := |conds| - 1;
      CondCols(conds[..n]) + if conds[n].Equals? then [conds[n].col] else []
  }

  // The column each operand of the text stands for, from left to right.
  function SlotCols(s: Shape): seq<string> {
    match s
    case Insert(_, into, rowCount, clause) => Repeat(into, rowCount) + ExtraCols(clause)
    case Update(sets, conds, _) => sets + CondCols(conds)
    case Delete(conds, _) => CondCols(conds)
    case Select(conds, _) => CondCols(conds)
    case DeleteIn(keys, rowCount) => Repeat(keys, rowCount)
  }

  // The i-th operand reads the i-th bind, and that bind is for the column the operand stands at.
  ghost predicate Aligned(q: Query) {
    && |q.slots| == |q.binds|
    && SlotCols(q.shape) == q.cols
    && Reads(q.slots, 0)
  }

  // A run of operands starting at text position `from` reads the binds at its own positions.
  ghost predicate Reads(slots: seq<Operand>, from: nat) {
    forall i :: 0 <= i < |slots| ==> BindIndex(slots[i], from + i) == from + i
  }

  // Some operand of the run reads past the last bind.
  ghost predicate Overruns(slots: seq<Operand>, from: nat) {
    exists i :: 0 <= i < |slots| && slots[i].Dollar? && BindIndex(slots[i], from + i) >= from + |slots|
  }

  lemma ReadsConcat(head: seq<Operand>, tail: seq<Operand>)
    requires Reads(head, 0)
    ensures Reads(head + tail, 0) <==> Reads(tail, |head|)
    ensures Overruns(tail, |head|) ==> Overruns(head + tail, 0)
  {
    var all := head + tail;
    assert forall i :: 0 <= i < |tail| ==> all[|head| + i] == tail[i];
    if Reads(all, 0) {
      forall i | 0 <= i < |tail| ensures BindIndex(tail[i], |head| + i) == |head| + i {
        assert BindIndex(all[|head| + i], 0 + (|head| + i)) == |head| + i;
      }
    }
    if Overruns(tail, |head|) {
      var i :| 0 <= i < |tail| && tail[i].Dollar? && BindIndex(tail[i], |head| + i) >= |head| + |tail|;
      assert all[|head| + i] == tail[i];
    }
  }

  lemma OverrunRefused(q: Query)
    requires |q.slots| == |q.binds| && Overruns(q.slots, 0)
    ensures !AllBound(q) && !Reads(q.slots, 0)
  {
    var i :| 0 <= i < |q.slots| && q.slots[i].Dollar? && BindIndex(q.slots[i], 0 + i) >= |q.slots|;
    assert Denote(q.slots[i], i, q.binds).None?;
  }

  /******* Single rows *******/

  lemma OneRowCols(cols: seq<string>)
    ensures Repeat(cols, 1) == cols
  {
    RepeatMore(cols, 0);
  }

  lemma InsertAligned(meta: TableMeta, db: DbType, after: Image)
    ensures Aligned(InsertSpec(meta, db, after, true))
  {
    OneRowCols(meta.cols);
  }

  // The single-row upsert numbers its SET operands after the VALUES operands, so `$k` is always bind k.
  lemma ReplaceAligned(meta: TableMeta, db: DbType, after: Image)
    ensures Aligned(ReplaceSpec(meta, db, after, true))
  {
    hide Lookup, Repeat;
    var rest := NonKey(meta.cols, meta.idCols);
    OneRowCols(meta.cols);
    OperandsRead(db, 0, after, meta.cols);
    OperandsRead(db, |meta.cols|, after, rest);
    ReadsConcat(Operands(db, 1, after, meta.cols, true), Operands(db, |meta.cols| + 1, after, rest, true));
    assert rest == [] ==> meta.cols + rest == meta.cols;
  }

  lemma OperandsRead(db: DbType, from: nat, values: Image, cols: seq<string>)
    ensures Reads(Operands(db, from + 1, values, cols, true), from)
  {
  }

  /******* WHERE by id columns *******/

  ghost predicate NullsLast(idCols: seq<string>, values: Image) {
    forall i, j :: 0 <= i < j < |idCols| && IsNullId(values, idCols[i]) ==> IsNullId(values, idCols[j])
  }

  ghost predicate SomeNull(idCols: seq<string>, values: Image) {
    exists i :: 0 <= i < |idCols| && IsNullId(values, idCols[i])
  }

  lemma {:induction false} WhereShape(db: DbType, idCols: seq<string>, index: nat, values: Image, placeholder: bool)
    ensures |WhereSlots(db, idCols, index, values, placeholder)| == |NotNullCols(idCols, values)| <= |idCols|
    ensures CondCols(WhereConds(idCols, values)) == NotNullCols(idCols, values)
    ensures SomeNull(idCols, values) ==> |NotNullCols(idCols, values)| < |idCols|
  {
    hide IsNullId, Lookup, SqlValue;
    if idCols == [] {
    } else {
      var n := |idCols| - 1;
      WhereShape(db, idCols[..n], index, values, placeholder);
      assert WhereConds(idCols, values)[..n] == WhereConds(idCols[..n], values);
      if SomeNull(idCols, values) && !IsNullId(values, idCols[n]) {
        var i :| 0 <= i < |idCols| && IsNullId(values, idCols[i]);
        assert idCols[..n][i] == idCols[i];
      }
    }
  }

  lemma InitNulls(idCols: seq<string>, values: Image)
    requires idCols != []
    ensures var n := |idCols| - 1;
            && (IsNullId(values, idCols[n]) ==> (NullsLast(idCols, values) <==> NullsLast(idCols[..n], values)))
            && (!IsNullId(values, idCols[n]) ==> (NullsLast(idCols, values) <==> !SomeNull(idCols[..n], values)))
            && (NullsLast(idCols, values) ==> NullsLast(idCols[..n], values))
  {
    hide IsNullId;
    var n := |idCols| - 1;
    assert forall i :: 0 <= i < n ==> idCols[..n][i] == idCols[i];
    if SomeNull(idCols[..n], values) {
      var i :| 0 <= i < n && IsNullId(values, idCols[..n][i]);
      assert IsNullId(values, idCols[i]);
    }
  }

  // NULLs at the end: the numbers are consecutive.
  lemma {:induction false} WhereInOrder(db: DbType, idCols: seq<string>, from: nat, values: Image)
    requires !db.Mysql? && NullsLast(idCols, values)
    ensures Reads(WhereSlots(db, idCols, from + 1, values, true), from)
  {
    hide IsNullId, Lookup, NullsLast, SomeNull, NotNullCols;
    if idCols == [] {
    } else {
      var n := |idCols| - 1;
      var before := WhereSlots(db, idCols[..n], from + 1, values, true);
      InitNulls(idCols, values);
      WhereInOrder(db, idCols[..n], from, values);
      if IsNullId(values, idCols[n]) {
        assert WhereSlots(db, idCols, from + 1, values, true) == before;
      } else {
        NoNullKeepsAll(idCols[..n], values);
        WhereShape(db, idCols[..n], from + 1, values, true);
        assert WhereSlots(db, idCols, from + 1, values, true) == before + [Dollar(from + 1 + n)];
        assert |before| == n;
      }
    }
  }

  // A NULL before a value: some number runs past the binds.
  lemma {:induction false} WhereOverruns(db: DbType, idCols: seq<string>, from: nat, values: Image)
    requires !db.Mysql? && !NullsLast(idCols, values)
    ensures Overruns(WhereSlots(db, idCols, from + 1, values, true), from)
  {
    hide IsNullId, Lookup;
    var n := |idCols| - 1;
    var slots, before := WhereSlots(db, idCols, from + 1, values, true), WhereSlots(db, idCols[..n], from + 1, values, true);
    InitNulls(idCols, values);
    if IsNullId(values, idCols[n]) {
      WhereOverruns(db, idCols[..n], from, values);
      assert slots == before;
    } else {
      WhereShape(db, idCols[..n], from + 1, values, true);
      assert slots[|before|] == Dollar(from + 1 + n);
    }
  }

  lemma {:induction false} NoNullKeepsAll(idCols: seq<string>, values: Image)
    requires !SomeNull(idCols, values)
    ensures NotNullCols(idCols, values) == idCols
  {
    hide IsNullId;
    if idCols == [] {
    } else {
      var n := |idCols| - 1;
      assert forall i :: 0 <= i < n ==> idCols[..n][i] == idCols[i];
      assert !IsNullId(values, idCols[n]);
      NoNullKeepsAll(idCols[..n], values);
      assert idCols == idCols[..n] + [idCols[n]];
    }
  }

  lemma {:induction false} MysqlWhere(db: DbType, idCols: seq<string>, index: nat, values: Image, from: nat)
    requires db.Mysql?
    ensures Reads(WhereSlots(db, idCols, index, values, true), from)
  {
    hide IsNullId, Lookup;
    if idCols == [] {
    } else {
      MysqlWhere(db, idCols[..|idCols| - 1], index, values, from);
    }
  }

  lemma WhereReads(db: DbType, idCols: seq<string>, from: nat, values: Image)
    ensures var slots := WhereSlots(db, idCols, from + 1, values, true);
            if db.Mysql? || NullsLast(idCols, values) then Reads(slots, from) else Overruns(slots, from)
  {
    hide WhereSlots, NullsLast, Reads, Overruns;
    if db.Mysql? {
      MysqlWhere(db, idCols, from + 1, values, from);
    } else if NullsLast(idCols, values) {
      WhereInOrder(db, idCols, from, values);
    } else {
      WhereOverruns(db, idCols, from, values);
    }
  }

  // Numbered placeholders line up exactly when the NULL id values come last; `?` always does. A query
  // that does not line up also names a parameter that was never bound, so the database refuses it.
  lemma WhereAligned(shape: Shape, db: DbType, meta: TableMeta, values: Image)
    requires shape.Delete? || shape.Select?
    requires shape.conds == WhereConds(meta.idCols, values)
    ensures var q := WhereQuery(shape, db, meta, values, true);
            && (Aligned(q) <==> db.Mysql? || NullsLast(meta.idCols, values))
            && (Aligned(q) <==> AllBound(q))
  {
    hide IsNullId, Lookup, WhereSlots, NotNullCols, NullsLast;
    var q := WhereQuery(shape, db, meta, values, true);
    WhereShape(db, meta.idCols, 1, values, true);
    WhereReads(db, meta.idCols, 0, values);
    if !(db.Mysql? || NullsLast(meta.idCols, values)) {
      OverrunRefused(q);
    }
  }

  // A NULL in front of a value: the one bind is asked for as the second.
  lemma NullFirstMisses()
    ensures var meta := TableMeta(["a", "b"], ["a", "b"], true);
            !AllBound(DeleteSpec(meta, Pg, map["b" := Val("1")], true))
  {
    var meta, values: Image := TableMeta(["a", "b"], ["a", "b"], true), map["b" := Val("1")];
    assert LowerChar("b"[0]) != LowerChar("a"[0]);
    assert CaseMatches(values, "a") == {};
    assert IsNullId(values, meta.idCols[0]) && !IsNullId(values, meta.idCols[1]);
    WhereAligned(Delete(WhereConds(meta.idCols, values), false), Pg, meta, values);
  }

  lemma UpdateAligned(meta: TableMeta, db: DbType, before: Image, after: Image)
    ensures var q := UpdateSpec(meta, db, before, after, true);
            && (Aligned(q) <==> db.Mysql? || NullsLast(meta.idCols, before))
            && (Aligned(q) <==> AllBound(q))
  {
    hide IsNullId, Lookup, WhereSlots, NotNullCols, NullsLast, MatchedCols;
    var q := UpdateSpec(meta, db, before, after, true);
    var sets := MatchedCols(meta.cols, after);
    var head, tail := Operands(db, 1, after, sets, true), WhereSlots(db, meta.idCols, |sets| + 1, before, true);
    WhereShape(db, meta.idCols, |sets| + 1, before, true);
    WhereReads(db, meta.idCols, |sets|, before);
    ReadsConcat(head, tail);
    if !(db.Mysql? || NullsLast(meta.idCols, before)) {
      OverrunRefused(q);
    }
  }

  /******* Batches *******/

  lemma {:induction false} RepeatLength<T>(xs: seq<T>, count: nat)
    ensures |Repeat(xs, count)| == count * |xs|
  {
    FlattenLength(seq(count, _ => xs), |xs|);
  }

  lemma BatchSizes(images: seq<Image>, cols: seq<string>)
    ensures |Flatten(PickedRows(images, cols))| == |images| * |cols|
  {
    FlattenLength(PickedRows(images, cols), |cols|);
  }

  lemma FewerRows(a: nat, b: nat, n: nat)
    requires a < b && n > 0
    ensures a * n < b * n
  {
  }

  // The batch builders number placeholders for the whole batch size. They line up exactly when that
  // many rows are left, or there is nothing to number.
  lemma BatchAligned(meta: TableMeta, db: DbType, images: seq<Image>, batch: nat, replace: bool)
    requires |images| <= batch
    ensures var q := BatchInsertSpec(meta, db, images, batch, replace);
            && (Aligned(q) <==> |images| == batch || meta.cols == [])
            && (Aligned(q) <==> AllBound(q))
  {
    var q := BatchInsertSpec(meta, db, images, batch, replace);
    BatchSizes(images, meta.cols);
    RepeatLength(meta.cols, batch);
    RepeatLength(meta.cols, |images|);
    if |images| < batch && meta.cols != [] {
      FewerRows(|images|, batch, |meta.cols|);
      var last := |q.slots| - 1;
      assert q.slots[last] == Placeholder(db, last + 1);
      assert Denote(q.slots[last], last, q.binds).None?;
    } else {
      assert SlotCols(q.shape) == Repeat(meta.cols, batch) + [];
    }
  }

  lemma KeyBatchAligned(meta: TableMeta, db: DbType, images: seq<Image>, batch: nat)
    requires |images| <= batch
    ensures var q := KeyBatchSpec(meta, db, images, batch);
            && (Aligned(q) <==> |images| == batch || meta.idCols == [])
            && (Aligned(q) <==> AllBound(q))
  {
    var q := KeyBatchSpec(meta, db, images, batch);
    BatchSizes(images, meta.idCols);
    RepeatLength(meta.idCols, batch);
    RepeatLength(meta.idCols, |images|);
    if |images| < batch && meta.idCols != [] {
      FewerRows(|images|, batch, |meta.idCols|);
      var last := |q.slots| - 1;
      assert q.slots[last] == Placeholder(db, last + 1);
      assert Denote(q.slots[last], last, q.binds).None?;
    }
  }

  // One row where two were to be written.
  lemma ShortBatchMisses()
    ensures var meta := TableMeta(["a"], ["a"], true);
            && !AllBound(BatchInsertSpec(meta, Pg, [map["a" := Val("1")]], 2, true))
            && !AllBound(KeyBatchSpec(meta, Pg, [map["a" := Val("1")]], 2))
  {
    var meta := TableMeta(["a"], ["a"], true);
    BatchAligned(meta, Pg, [map["a" := Val("1")]], 2, true);
    KeyBatchAligned(meta, Pg, [map["a" := Val("1")]], 2);
  }

  // Every placeholder number of a batch is the number of exactly one row and column.
  lemma RowColumn(k: nat, n: nat, batch: nat) returns (r: nat, c: nat)
    requires 1 <= k <= batch * n
    ensures r < batch && c < n && k == r * n + c + 1 && r == (k - 1) / n && c == (k - 1) % n
  {
    r, c := (k - 1) / n, (k - 1) % n;
    assert r >= batch ==> r * n >= batch * n;
  }

  // Row `r` and column `c` of a full batch.
  lemma GridAt(images: seq<Image>, cols: seq<string>, r: nat, c: nat)
    requires r < |images| && c < |cols|
    ensures var i := r * |cols| + c;
            && i < |images| * |cols|
            && i < |Repeat(cols, |images|)| && Repeat(cols, |images|)[i] == cols[c]
            && i < |Flatten(PickedRows(images, cols))|
            && Flatten(PickedRows(images, cols))[i] == Lookup(images[r], cols[c])
  {
    hide Lookup, Flatten;
    var grid := seq(|images|, _ => cols);
    FlattenAt(PickedRows(images, cols), |cols|, r, c);
    FlattenAt(grid, |cols|, r, c);
    FlattenLength(grid, |cols|);
  }

  lemma BatchInsertAt(meta: TableMeta, db: DbType, images: seq<Image>, replace: bool, r: nat, c: nat)
    requires r < |images| && c < |meta.cols|
    ensures var q, i := BatchInsertSpec(meta, db, images, |images|, replace), r * |meta.cols| + c;
            && i < |q.slots| && i < |q.binds| && i < |SlotCols(q.shape)|
            && q.slots[i] == Placeholder(db, i + 1)
            && SlotCols(q.shape)[i] == meta.cols[c]
            && q.binds[i] == Lookup(images[r], meta.cols[c])
  {
    hide Lookup, Flatten, Repeat, PickedRows, BatchClause;
    GridAt(images, meta.cols, r, c);
  }

  lemma KeyBatchAt(meta: TableMeta, db: DbType, images: seq<Image>, r: nat, c: nat)
    requires r < |images| && c < |meta.idCols|
    ensures var q, i := KeyBatchSpec(meta, db, images, |images|), r * |meta.idCols| + c;
            && i < |q.slots| && i < |q.binds| && i < |SlotCols(q.shape)|
            && q.slots[i] == Placeholder(db, i + 1)
            && SlotCols(q.shape)[i] == meta.idCols[c]
            && q.binds[i] == Lookup(images[r], meta.idCols[c])
  {
    hide Lookup, Flatten, Repeat, PickedRows;
    GridAt(images, meta.idCols, r, c);
  }

  lemma WindowAt(data: seq<RowData>, start: nat, batch: nat)
    requires start + batch <= |data|
    ensures |Window(data, start, batch)| == batch
    ensures forall r :: 0 <= r < batch ==> Window(data, start, batch)[r] == data[start + r]
  {
  }

  // With enough rows left, `$k` stands for its row and column, and is bound to that row's value.
  lemma BatchInsertDenotes(meta: TableMeta, db: DbType, data: seq<RowData>, start: nat, batch: nat, replace: bool, k: nat)
    returns (r: nat, c: nat)
    requires start + batch <= |data| && 1 <= k <= batch * |meta.cols|
    requires AllCarried(data[start..start + batch], meta.cols)
    ensures r < batch && c < |meta.cols| && r == (k - 1) / |meta.cols| && c == (k - 1) % |meta.cols|
    ensures data[start + r].after.Some?
    ensures var q := BatchInsertSpec(meta, db, Afters(Window(data, start, batch)), batch, replace);
            && k <= |q.slots| && k <= |q.binds| && k <= |SlotCols(q.shape)|
            && q.slots[k - 1] == Placeholder(db, k)
            && SlotCols(q.shape)[k - 1] == meta.cols[c]
            && q.binds[k - 1] == Lookup(data[start + r].after.value, meta.cols[c])
  {
    r, c := RowColumn(k, |meta.cols|, batch);
    assert data[start..start + batch][r] == data[start + r];
    WindowAt(data, start, batch);
    hide Window, BatchInsertSpec, SlotCols, Lookup, Placeholder, Carried;
    BatchInsertAt(meta, db, Afters(Window(data, start, batch)), replace, r, c);
  }

  lemma BatchDeleteDenotes(meta: TableMeta, db: DbType, data: seq<RowData>, start: nat, batch: nat, k: nat)
    returns (r: nat, c: nat)
    requires start + batch <= |data| && 1 <= k <= batch * |meta.idCols|
    requires AllKeyed(data[start..start + batch], meta.idCols)
    ensures r < batch && c < |meta.idCols| && r == (k - 1) / |meta.idCols| && c == (k - 1) % |meta.idCols|
    ensures data[start + r].before.Some?
    ensures var q := KeyBatchSpec(meta, db, Befores(Window(data, start, batch)), batch);
            && k <= |q.slots| && k <= |q.binds| && k <= |SlotCols(q.shape)|
            && q.slots[k - 1] == Placeholder(db, k)
            && SlotCols(q.shape)[k - 1] == meta.idCols[c]
            && q.binds[k - 1] == Lookup(data[start + r].before.value, meta.idCols[c])
  {
    r, c := RowColumn(k, |meta.idCols|, batch);
    assert data[start..start + batch][r] == data[start + r];
    WindowAt(data, start, batch);
    hide Window, KeyBatchSpec, SlotCols, Lookup, Placeholder, FullKey;
    KeyBatchAt(meta, db, Befores(Window(data, start, batch)), r, c);
  }

  /******* The two renderings agree *******/

  // Reading aligned binds back into the text gives the values the literal rendering would have written.
  lemma AlignedIsLiteral(q: Query, literal: Query)
    requires Aligned(q) && |literal.slots| == |q.binds|
    requires forall i :: 0 <= i < |q.binds| ==> literal.slots[i] == Literal(BindCell(q.binds[i]))
    requires forall i :: 0 <= i < |q.slots| ==> !q.slots[i].Literal?
    ensures AllBound(q) && AllBound(literal) && Cells(q) == Cells(literal)
  {
  }

  lemma {:induction false} WhereLiterals(db: DbType, idCols: seq<string>, index: nat, values: Image)
    ensures var slots := WhereSlots(db, idCols, index, values, false);
            var cols := NotNullCols(idCols, values);
            |slots| == |cols| && forall i :: 0 <= i < |slots| ==> slots[i] == Literal(BindCell(Lookup(values, cols[i])))
  {
    if idCols == [] {
    } else {
      WhereLiterals(db, idCols[..|idCols| - 1], index, values);
    }
  }

  // Insert and single-row upsert: the bound form and the literal form always mean the same.
  lemma InsertFormsAgree(meta: TableMeta, db: DbType, after: Image)
    ensures var q, literal := InsertSpec(meta, db, after, true), InsertSpec(meta, db, after, false);
            AllBound(q) && AllBound(literal) && Cells(q) == Cells(literal)
    ensures var q, literal := ReplaceSpec(meta, db, after, true), ReplaceSpec(meta, db, after, false);
            AllBound(q) && AllBound(literal) && Cells(q) == Cells(literal)
  {
    hide Lookup, NonKey, Aligned, AllBound, Cells;
    InsertAligned(meta, db, after);
    ReplaceAligned(meta, db, after);
    AlignedIsLiteral(InsertSpec(meta, db, after, true), InsertSpec(meta, db, after, false));
    AlignedIsLiteral(ReplaceSpec(meta, db, after, true), ReplaceSpec(meta, db, after, false));
  }

  lemma {:induction false} WhereNumbered(db: DbType, idCols: seq<string>, index: nat, values: Image)
    ensures forall i :: 0 <= i < |WhereSlots(db, idCols, index, values, true)| ==>
                          !WhereSlots(db, idCols, index, values, true)[i].Literal?
  {
    hide IsNullId, Lookup;
    if idCols == [] {
    } else {
      WhereNumbered(db, idCols[..|idCols| - 1], index, values);
    }
  }

  lemma WhereFormsAgree(shape: Shape, db: DbType, meta: TableMeta, values: Image)
    requires shape.Delete? || shape.Select?
    requires shape.conds == WhereConds(meta.idCols, values)
    ensures var q, literal := WhereQuery(shape, db, meta, values, true), WhereQuery(shape, db, meta, values, false);
            && AllBound(literal)
            && (AllBound(q) <==> db.Mysql? || NullsLast(meta.idCols, values))
            && (AllBound(q) ==> Cells(q) == Cells(literal))
  {
    hide IsNullId, Lookup, WhereSlots, WhereConds, NotNullCols, NullsLast, Aligned;
    var q, literal := WhereQuery(shape, db, meta, values, true), WhereQuery(shape, db, meta, values, false);
    WhereAligned(shape, db, meta, values);
    WhereLiterals(db, meta.idCols, 1, values);
    WhereNumbered(db, meta.idCols, 1, values);
    if AllBound(q) {
      hide AllBound, Cells;
      AlignedIsLiteral(q, literal);
    }
  }

  // Delete and select: they mean the same, for every row when operands are `?` and exactly up to NULLs-last
  // when they are numbered.
  lemma DeleteSelectFormsAgree(meta: TableMeta, db: DbType, values: Image)
    ensures var q, literal := DeleteSpec(meta, db, values, true), DeleteSpec(meta, db, values, false);
            && AllBound(literal)
            && (AllBound(q) <==> db.Mysql? || NullsLast(meta.idCols, values))
            && (AllBound(q) ==> Cells(q) == Cells(literal))
    ensures var q, literal := SelectSpec(meta, db, values, true), SelectSpec(meta, db, values, false);
            && AllBound(literal)
            && (AllBound(q) <==> db.Mysql? || NullsLast(meta.idCols, values))
            && (AllBound(q) ==> Cells(q) == Cells(literal))
  {
    hide AllBound, Cells, WhereQuery, WhereConds, NullsLast;
    WhereFormsAgree(Delete(WhereConds(meta.idCols, values), !meta.hasKeys), db, meta, values);
    WhereFormsAgree(Select(WhereConds(meta.idCols, values), !meta.hasKeys), db, meta, values);
  }

  // `get_query_info` and `get_query_sql` of an update mean the same, for every row when operands are `?`
  // and exactly up to NULLs-last when they are numbered.
  lemma UpdateFormsAgree(meta: TableMeta, db: DbType, before: Image, after: Image)
    ensures var q, literal := UpdateSpec(meta, db, before, after, true), UpdateSpec(meta, db, before, after, false);
            && AllBound(literal)
            && (AllBound(q) <==> db.Mysql? || NullsLast(meta.idCols, before))
            && (AllBound(q) ==> Cells(q) == Cells(literal))
  {
    var q, literal := UpdateSpec(meta, db, before, after, true), UpdateSpec(meta, db, before, after, false);
    var k := |MatchedCols(meta.cols, after)|;
    UpdateAligned(meta, db, before, after);
    WhereLiterals(db, meta.idCols, k + 1, before);
    forall i | 0 <= i < |literal.slots|
      ensures literal.slots[i] == Literal(BindCell(literal.binds[i]))
    {
      if i >= k {
        assert literal.slots[i] == WhereSlots(db, meta.idCols, k + 1, before, false)[i - k];
      }
    }
    if AllBound(q) {
      AlignedIsLiteral(q, literal);
    }
  }
}
