/** What the single-row statements do to a table, with every value written out. */
module RowStatements {
  import opened Wrappers
  import opened Strings
  import opened Sql
  import opened QueryBuilder
  import opened BindAlignment
  import opened WriteStrategies

  /******* Reading a column of an image *******/

  // The column itself.
  lemma LookupExact(values: Image, col: string)
    requires col in values
    ensures Lookup(values, col) == Some(values[col]) && !Ambiguous(values, col)
  {
  }

  // Else the only one that differs from it in ASCII case.
  lemma LookupOtherCase(values: Image, col: string, k: string)
    requires col !in values && k in values && EqIgnoreCase(k, col)
    requires forall j :: j in values && EqIgnoreCase(j, col) ==> j == k
    ensures Lookup(values, col) == Some(values[k]) && !Ambiguous(values, col)
  {
    hide EqIgnoreCase;
    assert CaseMatches(values, col) == {k};
  }

  lemma LookupMissing(values: Image, col: string)
    requires forall k :: k in values ==> !EqIgnoreCase(k, col)
    requires col !in values
    ensures Lookup(values, col) == None && !Ambiguous(values, col)
  {
    hide EqIgnoreCase;
    assert CaseMatches(values, col) == {};
  }

  // Two such columns are one too many.
  lemma LookupAmbiguous(values: Image, col: string, j: string, k: string)
    requires col !in values && j in values && k in values && j != k && EqIgnoreCase(j, col) && EqIgnoreCase(k, col)
    ensures Ambiguous(values, col)
  {
    hide EqIgnoreCase;
    var ms := CaseMatches(values, col);
    assert {j, k} <= ms;
    assert ms == {j, k} + (ms - {j, k});
    assert |ms| == |{j, k}| + |ms - {j, k}|;
  }

  // ASCII letters match in either case, everything else only itself.
  lemma CaseIgnored(a: string, b: string)
    ensures EqIgnoreCase(a, b) <==>
            |a| == |b| &&
            forall i :: 0 <= i < |a| ==>
              || a[i] == b[i]
              || ('A' <= a[i] <= 'Z' && a[i] as int + 32 == b[i] as int)
              || ('A' <= b[i] <= 'Z' && b[i] as int + 32 == a[i] as int)
  {
  }

  // The text a column is stored as: NULL unless the image holds a value.
  function CellText(image: Image, col: string): Cell {
    match Lookup(image, col)
    case Some(Val(t)) => Some(t)
    case _ => None
  }

  lemma CellIs(image: Image, cols: seq<string>, i: nat)
    requires i < |cols|
    ensures CellsOf(image, cols)[i] == CellText(image, cols[i])
  {
    hide Lookup;
  }

  // The reference row of an image holds each column's text, under the texts of the id columns.
  lemma StoredRowIs(meta: TableMeta, image: Image)
    requires MetaOk(meta)
    ensures RowFrom(meta, image).Keys == set c | c in meta.cols
    ensures forall c :: c in meta.cols ==> RowFrom(meta, image)[c] == CellText(image, c)
    ensures KeyFrom(meta, image) == seq(|meta.idCols|, i requires 0 <= i < |meta.idCols| => CellText(image, meta.idCols[i]))
  {
    hide Lookup;
    RowOfKeys(meta.cols, CellsOf(image, meta.cols));
    forall c | c in meta.cols ensures RowFrom(meta, image)[c] == CellText(image, c) {
      RowGet(meta, image, c);
    }
  }

  /******* Insert, delete, select *******/

  lemma InsertCells(meta: TableMeta, db: DbType, image: Image)
    ensures var q := InsertSpec(meta, db, image, true); AllBound(q) && Cells(q) == CellsOf(image, meta.cols)
  {
    hide Lookup, Aligned, AllBound, Cells;
    var q := InsertSpec(meta, db, image, true);
    InsertAligned(meta, db, image);
    CellsOfAligned(q);
  }

  // A plain insert adds the image's row, and is refused when its key is taken.
  lemma InsertRuns(meta: TableMeta, db: DbType, image: Image, table: Table)
    requires MetaOk(meta) && Writable(meta, image)
    ensures Exec(meta, InsertSpec(meta, db, image, true), table) ==
            if KeyFrom(meta, image) in table then None else Some(table[KeyFrom(meta, image) := RowFrom(meta, image)])
  {
    hide Lookup, AllBound, Cells, Carried, FullKey, CellsOf, KeyOf, HasNull;
    var q, n := InsertSpec(meta, db, image, true), |meta.cols|;
    var values := CellsOf(image, meta.cols);
    InsertCells(meta, db, image);
    RowFits(meta, image);
    assert |values| == n by { CellCount(image, meta.cols); }
    assert values[..n] == values && values[n..] == [];
    OneChunk(values, n);
    var rows := RowsOf(meta.cols, [values]);
    assert rows == [RowFrom(meta, image)] && rows[..0] == [];
    assert WriteRows(meta, InsertInto, NoClause, rows, [], table) ==
           WriteRow(meta, InsertInto, NoClause, rows[0], [], Written(table, {}));
  }

  lemma CellCount(image: Image, cols: seq<string>)
    ensures |CellsOf(image, cols)| == |cols|
  {
  }

  lemma WhereCells(shape: Shape, meta: TableMeta, db: DbType, image: Image)
    requires shape.Delete? || shape.Select?
    requires shape.conds == WhereConds(meta.idCols, image) && FullKey(image, meta.idCols)
    ensures var q := WhereQuery(shape, db, meta, image, true); AllBound(q) && Cells(q) == KeyFrom(meta, image)
  {
    hide IsNullId, Lookup, WhereSlots, WhereConds, NullsLast, Aligned, AllBound, Cells, FullKey;
    var q := WhereQuery(shape, db, meta, image, true);
    FullKeyCols(meta.idCols, image);
    WhereAligned(shape, db, meta, image);
    WhereNumbered(db, meta.idCols, 1, image);
    CellsOfAligned(q);
  }

  // A delete removes the row of the before key and no other; without keys of its own the table gets a LIMIT.
  lemma DeleteRuns(meta: TableMeta, db: DbType, before: Image, table: Table)
    requires MetaOk(meta) && TableOk(meta, table) && FullKey(before, meta.idCols)
    ensures Exec(meta, DeleteSpec(meta, db, before, true), table) == Some(table - {KeyFrom(meta, before)})
    ensures DeleteSpec(meta, db, before, true).shape.limitOne <==> !meta.hasKeys
  {
    hide Lookup, AllBound, Cells, WhereConds, WhereSlots, NotNullCols, CellsOf, FullKey, Holds, TableOk, MetaOk;
    var q, key := DeleteSpec(meta, db, before, true), KeyFrom(meta, before);
    WhereCells(q.shape, meta, db, before);
    forall k | k in table ensures Holds(q.shape.conds, key, table[k]) <==> k == key {
      HoldsAtKey(meta, before, table, k);
    }
    assert table - (set k | k in table && Holds(q.shape.conds, key, table[k])) == table - {key};
  }

  // A select reads the row of the after key and no other.
  lemma SelectFinds(meta: TableMeta, db: DbType, after: Image, table: Table)
    requires MetaOk(meta) && TableOk(meta, table) && FullKey(after, meta.idCols)
    ensures var q := SelectSpec(meta, db, after, true);
            && AllBound(q)
            && (q.shape.limitOne <==> !meta.hasKeys)
            && forall k :: k in table ==> (Holds(q.shape.conds, Cells(q), table[k]) <==> k == KeyFrom(meta, after))
  {
    hide Lookup, AllBound, Cells, WhereConds, WhereSlots, NotNullCols, CellsOf, FullKey, Holds, TableOk, MetaOk;
    var q := SelectSpec(meta, db, after, true);
    WhereCells(q.shape, meta, db, after);
    forall k | k in table ensures Holds(q.shape.conds, KeyFrom(meta, after), table[k]) <==> k == KeyFrom(meta, after) {
      HoldsAtKey(meta, after, table, k);
    }
  }

  /******* Update *******/

  // The stored row with each column the after image carries set to that image's value.
  function Patched(stored: Row, after: Image): Row {
    map c | c in stored ::
      match Lookup(after, c)
      case Some(Val(t)) => Some(t)
      case Some(Null) => None
      case _ => stored[c]
  }

  lemma {:induction false} MatchedMembers(cols: seq<string>, after: Image, c: string)
    ensures c in MatchedCols(cols, after) <==> c in cols && Lookup(after, c).Some? && !Lookup(after, c).value.Unavailable?
  {
    hide Lookup;
    if cols == [] {
    } else {
      var n := |cols| - 1;
      MatchedMembers(cols[..n], after, c);
      assert cols == cols[..n] + [cols[n]];
    }
  }

  lemma SetIsPatch(meta: TableMeta, stored: Row, after: Image)
    requires MetaOk(meta) && RowOk(meta, stored)
    ensures var sets := MatchedCols(meta.cols, after);
            SetCols(stored, sets, RowOf(sets, CellsOf(after, sets))) == Patched(stored, after)
  {
    hide Lookup, MatchedCols, RowOf, CellsOf, MetaOk;
    var sets := MatchedCols(meta.cols, after);
    var values := RowOf(sets, CellsOf(after, sets)) by { CellCount(after, sets); }
    var result, patched := SetCols(stored, sets, values), Patched(stored, after);
    forall c
      ensures c in result <==> c in patched
      ensures c in patched ==> result[c] == patched[c]
    {
      MatchedMembers(meta.cols, after, c);
      if c in sets {
        RowValues(sets, after, c);
      }
    }
  }

  lemma UpdateNumbered(meta: TableMeta, db: DbType, before: Image, after: Image)
    ensures var q := UpdateSpec(meta, db, before, after, true);
            forall i :: 0 <= i < |q.slots| ==> !q.slots[i].Literal?
  {
    hide IsNullId, Lookup, WhereSlots, NotNullCols, MatchedCols;
    var sets := MatchedCols(meta.cols, after);
    WhereNumbered(db, meta.idCols, |sets| + 1, before);
  }

  lemma UpdateBinds(meta: TableMeta, db: DbType, before: Image, after: Image)
    requires FullKey(before, meta.idCols)
    ensures UpdateSpec(meta, db, before, after, true).binds ==
            Picked(after, MatchedCols(meta.cols, after)) + Picked(before, meta.idCols)
    ensures NullsLast(meta.idCols, before)
  {
    hide IsNullId, Lookup, WhereSlots, MatchedCols, NotNullCols, FullKey, NullsLast;
    FullKeyCols(meta.idCols, before);
  }

  lemma CellsOfPicked(image: Image, cols: seq<string>)
    ensures |Picked(image, cols)| == |CellsOf(image, cols)| == |cols|
    ensures forall i :: 0 <= i < |cols| ==> BindCell(Picked(image, cols)[i]) == CellsOf(image, cols)[i]
  {
    hide Lookup;
  }

  lemma UpdateCells(meta: TableMeta, db: DbType, before: Image, after: Image)
    requires FullKey(before, meta.idCols)
    ensures var q := UpdateSpec(meta, db, before, after, true);
            AllBound(q) && Cells(q) == CellsOf(after, MatchedCols(meta.cols, after)) + KeyFrom(meta, before)
  {
    hide Lookup, NullsLast, Aligned, AllBound, Cells, FullKey, MatchedCols, UpdateSpec, Picked, CellsOf;
    var q := UpdateSpec(meta, db, before, after, true);
    var sets := MatchedCols(meta.cols, after);
    UpdateBinds(meta, db, before, after);
    UpdateAligned(meta, db, before, after);
    UpdateNumbered(meta, db, before, after);
    CellsOfAligned(q);
    CellsOfPicked(after, sets);
    CellsOfPicked(before, meta.idCols);
  }

  /** An update finds the row of the before key, sets the columns the after image carries and stores the row under the
      key it then has. It touches no other row, and is refused when that key is NULL or another row's. */
  lemma UpdateRuns(meta: TableMeta, db: DbType, before: Image, after: Image, table: Table)
    requires MetaOk(meta) && TableOk(meta, table) && FullKey(before, meta.idCols)
    ensures var key, done := KeyFrom(meta, before), Exec(meta, UpdateSpec(meta, db, before, after, true), table);
            if key !in table then done == Some(table)
            else
              var row := Patched(table[key], after);
              var now := KeyOf(meta, row);
              done == if HasNull(now) || (now != key && now in table) then None else Some((table - {key})[now := row])
  {
    hide Lookup, AllBound, Cells, WhereConds, WhereSlots, NotNullCols, CellsOf, FullKey, Holds, TableOk, MetaOk, SetCols,
         Patched, RowOf, MatchedCols, KeyOf, HasNull, Rekey;
    var q, key := UpdateSpec(meta, db, before, after, true), KeyFrom(meta, before);
    var sets := MatchedCols(meta.cols, after);
    var news := CellsOf(after, sets);
    UpdateCells(meta, db, before, after);
    CellCount(after, sets);
    assert (news + key)[..|sets|] == news && (news + key)[|sets|..] == key;
    forall k | k in table ensures Holds(q.shape.conds, key, table[k]) <==> k == key {
      HoldsAtKey(meta, before, table, k);
    }
    var hit := set k | k in table && Holds(q.shape.conds, key, table[k]);
    var changed := map k | k in hit :: SetCols(table[k], sets, RowOf(sets, news));
    assert Exec(meta, q, table) == Rekey(meta, table - hit, changed);
    if key in table {
      assert hit == {key};
      StoredOk(meta, table, key);
      SetIsPatch(meta, table[key], after);
      var row := Patched(table[key], after);
      assert changed == map[key := row];
      RekeyOne(meta, table, key, row);
    } else {
      assert hit == {};
      assert changed == map[] && table - hit == table;
      RekeyNone(meta, table, changed);
    }
  }

  lemma StoredOk(meta: TableMeta, table: Table, key: Key)
    requires TableOk(meta, table) && key in table
    ensures RowOk(meta, table[key])
  {
  }

  lemma MovedNone(meta: TableMeta, none: Table)
    requires none == map[]
    ensures DistinctNow(meta, none) && Moved(meta, none) == none
  {
    hide KeyOf;
    assert Moved(meta, none).Keys == {};
  }

  lemma AddNone(table: Table, none: Table)
    requires none == map[]
    ensures table + none == table
  {
  }

  lemma RekeyNone(meta: TableMeta, table: Table, none: Table)
    requires none == map[]
    ensures Rekey(meta, table, none) == Some(table)
  {
    hide KeyOf, HasNull, Moved, DistinctNow;
    MovedNone(meta, none);
    AddNone(table, none);
  }

  lemma MovedOne(meta: TableMeta, key: Key, row: Row)
    ensures var rows: Table := map[key := row];
            DistinctNow(meta, rows) && Moved(meta, rows) == map[KeyOf(meta, row) := row]
  {
    hide KeyOf;
    var rows: Table := map[key := row];
    assert rows[key] == row;
  }

  lemma RekeyOne(meta: TableMeta, table: Table, key: Key, row: Row)
    requires key in table
    ensures var now := KeyOf(meta, row);
            Rekey(meta, table - {key}, map[key := row]) ==
            if HasNull(now) || (now != key && now in table) then None else Some((table - {key})[now := row])
  {
    hide KeyOf, HasNull, Moved, DistinctNow;
    var now, rest := KeyOf(meta, row), table - {key};
    var rows: Table := map[key := row];
    MovedOne(meta, key, row);
    assert key in rows && rows[key] == row;
    assert now in rest <==> now != key && now in table;
    assert rest + map[now := row] == rest[now := row];
  }

  // When the after image does not move the key, the row is replaced where it stands.
  lemma UpdateInPlace(meta: TableMeta, db: DbType, before: Image, after: Image, table: Table)
    requires MetaOk(meta) && TableOk(meta, table) && FullKey(before, meta.idCols) && KeyFrom(meta, before) in table
    requires forall i :: 0 <= i < |meta.idCols| ==>
               Lookup(after, meta.idCols[i]) in {None, Some(Unavailable), Lookup(before, meta.idCols[i])}
    ensures var key := KeyFrom(meta, before);
            Exec(meta, UpdateSpec(meta, db, before, after, true), table) == Some(table[key := Patched(table[key], after)])
  {
    hide Exec, UpdateSpec, Lookup, FullKey, TableOk, MetaOk, Patched, KeyOf, HasNull, CellsOf;
    KeyStays(meta, before, after, table);
    KeyNotNull(meta.idCols, before);
    var key := KeyFrom(meta, before);
    UpdateRuns(meta, db, before, after, table);
    assert (table - {key})[key := Patched(table[key], after)] == table[key := Patched(table[key], after)];
  }

  lemma KeyStays(meta: TableMeta, before: Image, after: Image, table: Table)
    requires TableOk(meta, table) && FullKey(before, meta.idCols) && KeyFrom(meta, before) in table && MetaOk(meta)
    requires forall i :: 0 <= i < |meta.idCols| ==>
               Lookup(after, meta.idCols[i]) in {None, Some(Unavailable), Lookup(before, meta.idCols[i])}
    ensures KeyOf(meta, Patched(table[KeyFrom(meta, before)], after)) == KeyFrom(meta, before)
  {
    hide Lookup;
    var key := KeyFrom(meta, before);
    var stored := table[key];
    assert KeyOf(meta, stored) == key && RowOk(meta, stored);
    forall i | 0 <= i < |meta.idCols| ensures Get(Patched(stored, after), meta.idCols[i]) == key[i] {
      var c := meta.idCols[i];
      assert c in stored && Get(stored, c) == KeyOf(meta, stored)[i];
      assert !IsNullId(before, c) && Lookup(before, c) != Some(Unavailable);
    }
  }
}
