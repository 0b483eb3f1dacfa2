/** Routing rows to their destination tables, and back through the reversed router. */
module Router {
  import opened Wrappers

  type Tb = (string, string)  // schema, table
  type ColMap = map<string, string>
  type Values<V> = map<string, V>

  datatype Maps = Maps(schemaMap: map<string, string>, tbMap: map<Tb, Tb>, colMap: map<Tb, ColMap>)

  datatype Row<V> = Row(tb: Tb, before: Option<Values<V>>, after: Option<Values<V>>)

  /******* Lookups *******/

  function GetTb(m: Maps, tb: Tb): Tb {
    if tb in m.tbMap then m.tbMap[tb]
    else if tb.0 in m.schemaMap then (m.schemaMap[tb.0], tb.1)
    else tb
  }

  function ColsOf(m: Maps, tb: Tb): ColMap {
    if tb in m.colMap then m.colMap[tb] else map[]
  }

  function RouteCol(cols: ColMap, c: string): string {
    if c in cols then cols[c] else c
  }

  /******* Reversal *******/

  ghost predicate Injective<K, V>(m: map<K, V>) {
    forall x, y :: x in m && y in m && m[x] == m[y] ==> x == y
  }

  // `r` holds exactly the pairs of `m`, turned around.
  ghost predicate IsInverse<K, V>(m: map<K, V>, r: map<V, K>) {
    && (forall x :: x in m ==> m[x] in r && r[m[x]] == x)
    && (forall y :: y in r ==> r[y] in m && m[r[y]] == y)
  }

  // What a reversible router needs: nothing maps twice onto one destination, and every column map
  // belongs to a mapped table.
  ghost predicate Reversible(m: Maps) {
    && Injective(m.schemaMap)
    && Injective(m.tbMap)
    && (forall tb :: tb in m.colMap ==> tb in m.tbMap && Injective(m.colMap[tb]))
  }

  ghost predicate IsReverse(m: Maps, r: Maps) {
    && IsInverse(m.schemaMap, r.schemaMap)
    && IsInverse(m.tbMap, r.tbMap)
    && (forall tb :: tb in m.colMap ==>
          tb in m.tbMap && m.tbMap[tb] in r.colMap && IsInverse(m.colMap[tb], r.colMap[m.tbMap[tb]]))
    && (forall tb :: tb in r.colMap ==> tb in r.tbMap && r.tbMap[tb] in m.colMap)
  }

  // What inserting the turned pairs of `m` one by one always gives: one of them for each destination.
  ghost predicate IsTurned<K, V>(m: map<K, V>, r: map<V, K>) {
    && (forall x :: x in m ==> m[x] in r)
    && (forall y :: y in r ==> r[y] in m && m[r[y]] == y)
  }

  lemma TurnedIsInverse<K, V>(m: map<K, V>, r: map<V, K>)
    requires IsTurned(m, r)
    ensures IsInverse(m, r) <==> Injective(m)
    ensures Injective(r)
  {
  }

  // The loop `for (k, v) in m { r.insert(v, k) }`, in no fixed order.
  method Invert<K(==), V(==)>(m: map<K, V>) returns (r: map<V, K>)
    ensures IsTurned(m, r)
  {
    r := map[];
    var todo := m.Keys;
    while todo != {}
      invariant todo <= m.Keys
      invariant forall x :: x in m.Keys - todo ==> m[x] in r
      invariant forall y :: y in r ==> r[y] in m.Keys - todo && m[r[y]] == y
      decreases todo
    {
      var x :| x in todo;
      r := r[m[x] := x];
      todo := todo - {x};
    }
  }

  // A reversed column map comes from some table routed to its own.
  ghost predicate TurnedCols(m: Maps, tbs: set<Tb>, d: Tb, cols: ColMap) {
    exists tb :: tb in tbs && tb in m.colMap && tb in m.tbMap && m.tbMap[tb] == d && IsTurned(m.colMap[tb], cols)
  }

  // None: the `unwrap` on a column map whose table is not mapped.
  method Reverse(m: Maps) returns (r: Option<Maps>)
    ensures r.Some? <==> m.colMap.Keys <= m.tbMap.Keys
    ensures r.Some? ==> IsTurned(m.schemaMap, r.value.schemaMap) && IsTurned(m.tbMap, r.value.tbMap)
    ensures r.Some? ==> forall tb :: tb in m.colMap ==> m.tbMap[tb] in r.value.colMap
    ensures r.Some? ==> forall d :: d in r.value.colMap ==> TurnedCols(m, m.colMap.Keys, d, r.value.colMap[d])
    ensures r.Some? && Reversible(m) ==> IsReverse(m, r.value) && Reversible(r.value)
  {
    var cols: map<Tb, ColMap> := map[];
    var todo := m.colMap.Keys;
    while todo != {}
      invariant todo <= m.colMap.Keys && m.colMap.Keys - todo <= m.tbMap.Keys
      invariant forall tb :: tb in m.colMap.Keys - todo ==> m.tbMap[tb] in cols
      invariant forall d :: d in cols ==> TurnedCols(m, m.colMap.Keys - todo, d, cols[d])
      decreases todo
    {
      var tb :| tb in todo;
      var reversed := Invert(m.colMap[tb]);
      if tb !in m.tbMap { return None; }
      var done, next := m.colMap.Keys - (todo - {tb}), cols[m.tbMap[tb] := reversed];
      forall d | d in next
        ensures TurnedCols(m, done, d, next[d])
      {
        if d == m.tbMap[tb] {
          assert tb in done;
        } else {
          var t :| t in m.colMap.Keys - todo && t in m.tbMap && m.tbMap[t] == d && IsTurned(m.colMap[t], cols[d]);
          assert t in done;
        }
      }
      cols := next;
      todo := todo - {tb};
    }
    var tbs := Invert(m.tbMap);
    var schemas := Invert(m.schemaMap);
    r := Some(Maps(schemas, tbs, cols));
    assert m.colMap.Keys - {} == m.colMap.Keys;
    if Reversible(m) {
      TurnedIsReverse(m, r.value);
    }
  }

  lemma TurnedIsReverse(m: Maps, r: Maps)
    requires Reversible(m)
    requires IsTurned(m.schemaMap, r.schemaMap) && IsTurned(m.tbMap, r.tbMap)
    requires forall tb :: tb in m.colMap ==> m.tbMap[tb] in r.colMap
    requires forall d :: d in r.colMap ==> TurnedCols(m, m.colMap.Keys, d, r.colMap[d])
    ensures IsReverse(m, r) && Reversible(r)
  {
    TurnedIsInverse(m.schemaMap, r.schemaMap);
    TurnedIsInverse(m.tbMap, r.tbMap);
    forall d | d in r.colMap
      ensures d in r.tbMap && r.tbMap[d] in m.colMap
      ensures IsInverse(m.colMap[r.tbMap[d]], r.colMap[d]) && Injective(r.colMap[d])
    {
      var tb :| tb in m.colMap && m.tbMap[tb] == d && IsTurned(m.colMap[tb], r.colMap[d]);
      assert r.tbMap[d] == tb;
      TurnedIsInverse(m.colMap[tb], r.colMap[d]);
    }
    forall tb | tb in m.colMap
      ensures IsInverse(m.colMap[tb], r.colMap[m.tbMap[tb]])
    {
      assert r.tbMap[m.tbMap[tb]] == tb;
    }
  }

  // Two maps with the same inverse are equal, so reversing twice gives the router back.
  lemma InverseUnique<K, V>(a: map<K, V>, b: map<K, V>, r: map<V, K>)
    requires IsInverse(a, r) && IsInverse(r, b)
    ensures a == b
  {
    forall x ensures x in a <==> x in b {
      if x in a { assert b[r[a[x]]] == a[x]; }
      if x in b { assert r[b[x]] == x; }
    }
  }

  lemma ReverseTwiceIsIdentity(m: Maps, r: Maps, rr: Maps)
    requires IsReverse(m, r) && IsReverse(r, rr)
    ensures rr == m
  {
    InverseUnique(m.schemaMap, rr.schemaMap, r.schemaMap);
    InverseUnique(m.tbMap, rr.tbMap, r.tbMap);
    forall tb
      ensures tb in m.colMap <==> tb in rr.colMap
      ensures tb in m.colMap ==> m.colMap[tb] == rr.colMap[tb]
    {
      if tb in m.colMap {
        var d := m.tbMap[tb];
        assert r.tbMap[d] == tb;
        InverseUnique(m.colMap[tb], rr.colMap[tb], r.colMap[d]);
      }
      if tb in rr.colMap {
        var d := rr.tbMap[tb];
        assert r.tbMap[d] == tb;
      }
    }
    assert m.colMap == rr.colMap;
  }

  /******* Routing column values *******/

  // The source rebuilds the map entry by entry in no fixed order, so when two columns land on one name
  // either value may stay.
  ghost predicate IsRouted<V>(cols: ColMap, values: Values<V>, routed: Values<V>) {
    && (forall c :: c in values ==> RouteCol(cols, c) in routed)
    && (forall d :: d in routed ==> exists c :: c in values && RouteCol(cols, c) == d && routed[d] == values[c])
  }

  method RouteValues<V>(cols: ColMap, values: Values<V>) returns (routed: Values<V>)
    ensures IsRouted(cols, values, routed)
  {
    routed := map[];
    var todo := values.Keys;
    while todo != {}
      invariant todo <= values.Keys
      invariant forall c :: c in values.Keys - todo ==> RouteCol(cols, c) in routed
      invariant forall d :: d in routed ==>
                  exists c :: c in values.Keys - todo && RouteCol(cols, c) == d && routed[d] == values[c]
      decreases todo
    {
      var c :| c in todo;
      var next := routed[RouteCol(cols, c) := values[c]];
      forall d | d in next
        ensures exists k :: k in values.Keys - (todo - {c}) && RouteCol(cols, k) == d && next[d] == values[k]
      {
        if d == RouteCol(cols, c) {
          assert c in values.Keys - (todo - {c});
        } else {
          var k :| k in values.Keys - todo && RouteCol(cols, k) == d && routed[d] == values[k];
        }
      }
      routed := next;
      todo := todo - {c};
    }
  }

  // No unmapped column of the row bears the name of a mapped destination.
  ghost predicate ColsClear<V>(cols: ColMap, values: Values<V>) {
    forall c :: c in values && c !in cols ==> c !in cols.Values
  }

  lemma InverseDomain<K, V>(m: map<K, V>, r: map<V, K>, y: V)
    requires IsInverse(m, r)
    ensures y in r <==> y in m.Values
  {
    if y in m.Values {
      var x :| x in m && m[x] == y;
    }
  }

  lemma BackAndForth(cols: ColMap, back: ColMap, c: string)
    requires IsInverse(cols, back)
    ensures RouteCol(back, RouteCol(cols, c)) == c <==> c in cols || c !in cols.Values
  {
    InverseDomain(cols, back, c);
  }

  lemma ReturnedIsOld<V>(cols: ColMap, back: ColMap, values: Values<V>, routed: Values<V>, returned: Values<V>, d: string)
    requires IsInverse(cols, back) && ColsClear(cols, values)
    requires IsRouted(cols, values, routed) && IsRouted(back, routed, returned)
    requires d in returned
    ensures d in values && returned[d] == values[d]
  {
    var e :| e in routed && RouteCol(back, e) == d && returned[d] == routed[e];
    var c :| c in values && RouteCol(cols, c) == e && routed[e] == values[c];
    BackAndForth(cols, back, c);
  }

  lemma OldIsReturned<V>(cols: ColMap, back: ColMap, values: Values<V>, routed: Values<V>, returned: Values<V>, c: string)
    requires IsInverse(cols, back) && ColsClear(cols, values)
    requires IsRouted(cols, values, routed) && IsRouted(back, routed, returned)
    requires c in values
    ensures c in returned
  {
    BackAndForth(cols, back, c);
    assert RouteCol(cols, c) in routed;
    assert RouteCol(back, RouteCol(cols, c)) in returned;
  }

  lemma ValuesReturn<V>(cols: ColMap, back: ColMap, values: Values<V>, routed: Values<V>, returned: Values<V>)
    requires IsInverse(cols, back) && ColsClear(cols, values)
    requires IsRouted(cols, values, routed) && IsRouted(back, routed, returned)
    ensures returned == values
  {
    hide IsRouted, IsInverse, ColsClear;
    forall d | d in returned
      ensures d in values && returned[d] == values[d]
    {
      ReturnedIsOld(cols, back, values, routed, returned, d);
    }
    forall c | c in values
      ensures c in returned
    {
      OldIsReturned(cols, back, values, routed, returned, c);
    }
  }

  // A column that does land on a mapped destination never comes back.
  lemma ValuesLost<V>(cols: ColMap, back: ColMap, values: Values<V>, routed: Values<V>, returned: Values<V>)
    requires IsInverse(cols, back) && !ColsClear(cols, values)
    requires IsRouted(back, routed, returned)
    ensures returned != values
  {
    var c :| c in values && c !in cols && c in cols.Values;
    InverseDomain(cols, back, c);
    assert forall e :: RouteCol(back, e) != c;
    assert c !in returned;
  }

  /******* Routing rows *******/

  ghost predicate IsRoutedOption<V>(cols: ColMap, values: Option<Values<V>>, routed: Option<Values<V>>) {
    match values
    case None => routed.None?
    case Some(v) => routed.Some? && IsRouted(cols, v, routed.value)
  }

  ghost predicate IsRoutedRow<V>(m: Maps, row: Row<V>, routed: Row<V>) {
    && routed.tb == GetTb(m, row.tb)
    && IsRoutedOption(ColsOf(m, row.tb), row.before, routed.before)
    && IsRoutedOption(ColsOf(m, row.tb), row.after, routed.after)
  }

  lemma NoMapKeepsValues<V>(values: Values<V>)
    ensures IsRouted(map[], values, values)
  {
  }

  method RouteRow<V>(m: Maps, row: Row<V>) returns (routed: Row<V>)
    ensures IsRoutedRow(m, row, routed)
  {
    var tb := GetTb(m, row.tb);
    if row.tb !in m.colMap {
      if row.before.Some? { NoMapKeepsValues(row.before.value); }
      if row.after.Some? { NoMapKeepsValues(row.after.value); }
      return Row(tb, row.before, row.after);
    }
    var cols := m.colMap[row.tb];
    var before, after := row.before, row.after;
    if before.Some? {
      var v := RouteValues(cols, before.value);
      before := Some(v);
    }
    if after.Some? {
      var v := RouteValues(cols, after.value);
      after := Some(v);
    }
    routed := Row(tb, before, after);
  }

  /******* The same, column by column *******/

  // `c` of the image is put under `d`.
  ghost predicate Lands(cols: ColMap, c: string, d: string) {
    if c in cols then cols[c] == d else c == d
  }

  // No other column of the image lands under `d`.
  ghost predicate Alone<V>(cols: ColMap, values: Values<V>, c: string, d: string) {
    forall k :: k in values && k != c ==> !Lands(cols, k, d)
  }

  // A mapped column is found under its destination and an unmapped one under its own name, unless another column of the
  // image lands there; and nothing else is in the result.
  ghost predicate Renamed<V>(cols: ColMap, values: Values<V>, routed: Values<V>) {
    && (forall c :: c in values && c in cols && Alone(cols, values, c, cols[c]) ==>
          cols[c] in routed && routed[cols[c]] == values[c])
    && (forall c :: c in values && c !in cols && Alone(cols, values, c, c) ==> c in routed && routed[c] == values[c])
    && (forall d :: d in routed ==> exists c :: c in values && Lands(cols, c, d) && routed[d] == values[c])
  }

  lemma FromColumn<V>(cols: ColMap, values: Values<V>, routed: Values<V>, d: string) returns (c: string)
    requires IsRouted(cols, values, routed) && d in routed
    ensures c in values && Lands(cols, c, d) && routed[d] == values[c]
  {
    c :| c in values && RouteCol(cols, c) == d && routed[d] == values[c];
  }

  lemma AloneIsThere<V>(cols: ColMap, values: Values<V>, routed: Values<V>, c: string, d: string)
    requires IsRouted(cols, values, routed)
    requires c in values && Lands(cols, c, d) && Alone(cols, values, c, d)
    ensures d in routed && routed[d] == values[c]
  {
    assert RouteCol(cols, c) in routed;
    hide IsRouted;
    var from := FromColumn(cols, values, routed, d);
  }

  lemma RoutedIsRenamed<V>(cols: ColMap, values: Values<V>, routed: Values<V>)
    requires IsRouted(cols, values, routed)
    ensures Renamed(cols, values, routed)
  {
    hide IsRouted, Alone;
    forall c | c in values && c in cols && Alone(cols, values, c, cols[c])
      ensures cols[c] in routed && routed[cols[c]] == values[c]
    {
      AloneIsThere(cols, values, routed, c, cols[c]);
    }
    forall c | c in values && c !in cols && Alone(cols, values, c, c) ensures c in routed && routed[c] == values[c] {
      AloneIsThere(cols, values, routed, c, c);
    }
    forall d | d in routed ensures exists c :: c in values && Lands(cols, c, d) && routed[d] == values[c] {
      var c := FromColumn(cols, values, routed, d);
    }
  }

  lemma UnmappedIsKept<V>(values: Values<V>, routed: Values<V>)
    requires IsRouted(map[], values, routed)
    ensures routed == values
  {
    forall c | c in values ensures c in routed && routed[c] == values[c] {
      assert RouteCol(map[], c) in routed;
    }
  }

  // Where a routed row is, and what its two images hold.
  lemma RoutedRowIs<V>(m: Maps, row: Row<V>, routed: Row<V>)
    requires IsRoutedRow(m, row, routed)
    ensures row.tb in m.tbMap ==> routed.tb == m.tbMap[row.tb]
    ensures row.tb !in m.tbMap && row.tb.0 in m.schemaMap ==> routed.tb == (m.schemaMap[row.tb.0], row.tb.1)
    ensures row.tb !in m.tbMap && row.tb.0 !in m.schemaMap ==> routed.tb == row.tb
    ensures row.tb !in m.colMap ==> routed.before == row.before && routed.after == row.after
    ensures row.before.Some? <==> routed.before.Some?
    ensures row.after.Some? <==> routed.after.Some?
    ensures row.tb in m.colMap && row.before.Some? ==> Renamed(m.colMap[row.tb], row.before.value, routed.before.value)
    ensures row.tb in m.colMap && row.after.Some? ==> Renamed(m.colMap[row.tb], row.after.value, routed.after.value)
  {
    hide IsRouted, Renamed;
    var cols := ColsOf(m, row.tb);
    if row.before.Some? {
      RoutedIsRenamed(cols, row.before.value, routed.before.value);
      if row.tb !in m.colMap {
        UnmappedIsKept(row.before.value, routed.before.value);
      }
    }
    if row.after.Some? {
      RoutedIsRenamed(cols, row.after.value, routed.after.value);
      if row.tb !in m.colMap {
        UnmappedIsKept(row.after.value, routed.after.value);
      }
    }
  }

  // A table routed by its schema or not at all must not land on a mapped destination.
  ghost predicate TableClear(m: Maps, tb: Tb) {
    || tb in m.tbMap
    || (GetTb(m, tb) !in m.tbMap.Values && (tb.0 in m.schemaMap || tb.0 !in m.schemaMap.Values))
  }

  lemma TableReturns(m: Maps, r: Maps, tb: Tb)
    requires IsReverse(m, r)
    ensures GetTb(r, GetTb(m, tb)) == tb <==> TableClear(m, tb)
  {
    InverseDomain(m.tbMap, r.tbMap, GetTb(m, tb));
    InverseDomain(m.schemaMap, r.schemaMap, GetTb(m, tb).0);
  }

  lemma ColsReverse(m: Maps, r: Maps, tb: Tb)
    requires IsReverse(m, r) && TableClear(m, tb)
    ensures IsInverse(ColsOf(m, tb), ColsOf(r, GetTb(m, tb)))
  {
    TableReturns(m, r, tb);
    var d := GetTb(m, tb);
    if d in r.colMap {
      assert r.tbMap[d] in m.colMap;
    }
  }

  ghost predicate ImageClear<V>(cols: ColMap, values: Option<Values<V>>) {
    values.Some? ==> ColsClear(cols, values.value)
  }

  ghost predicate RowClear<V>(m: Maps, row: Row<V>) {
    && TableClear(m, row.tb)
    && ImageClear(ColsOf(m, row.tb), row.before)
    && ImageClear(ColsOf(m, row.tb), row.after)
  }

  lemma OptionReturns<V>(cols: ColMap, back: ColMap, values: Option<Values<V>>, routed: Option<Values<V>>, returned: Option<Values<V>>)
    requires IsInverse(cols, back)
    requires IsRoutedOption(cols, values, routed) && IsRoutedOption(back, routed, returned)
    ensures returned == values <==> ImageClear(cols, values)
  {
    hide IsRouted, IsInverse, ColsClear;
    if values.Some? {
      if ColsClear(cols, values.value) {
        ValuesReturn(cols, back, values.value, routed.value, returned.value);
      } else {
        ValuesLost(cols, back, values.value, routed.value, returned.value);
      }
    }
  }

  // Routing a row and routing the result by the reversed router gives the row back exactly when nothing
  // in it lands on a mapped destination.
  lemma RoutingReturns<V>(m: Maps, r: Maps, row: Row<V>, routed: Row<V>, returned: Row<V>)
    requires IsReverse(m, r)
    requires IsRoutedRow(m, row, routed) && IsRoutedRow(r, routed, returned)
    ensures returned == row <==> RowClear(m, row)
  {
    TableReturns(m, r, row.tb);
    if TableClear(m, row.tb) {
      ColsReverse(m, r, row.tb);
      OptionReturns(ColsOf(m, row.tb), ColsOf(r, routed.tb), row.before, routed.before, returned.before);
      OptionReturns(ColsOf(m, row.tb), ColsOf(r, routed.tb), row.after, routed.after, returned.after);
    }
  }
}
