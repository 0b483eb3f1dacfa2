/** The row-change to SQL compiler. Each builder method runs the source's loops and is proved to
    produce its specification query; the theorems about those queries are in `BindAlignment` and
    `WriteStrategies`. */
module QueryBuilder {
  import opened Wrappers
  import opened Strings
  import opened Sql

  // One image of a row: column name to value
  type Image = map<string, Value>

  datatype RowData = RowData(before: Option<Image>, after: Option<Image>)

  datatype Error = MissingImage | AmbiguousColumn(col: string) | UnavailableValue(col: string) | NullKey(col: string) | NothingToSet

  /******* Column lookup *******/

  predicate EqIgnoreCase(a: string, b: string) {
    |a| == |b| && forall i :: 0 <= i < |a| ==> LowerChar(a[i]) == LowerChar(b[i])
  }

  function CaseMatches(values: Image, col: string): set<string> {
    set k | k in values && EqIgnoreCase(k, col)
  }

  predicate Ambiguous(values: Image, col: string) {
    col !in values && |CaseMatches(values, col)| > 1
  }

  lemma SingletonMember<T>(s: set<T>, x: T, y: T)
    requires |s| == 1 && x in s && y in s
    ensures x == y
  {
    assert |s - {x}| == 0;
    assert s == {x} + (s - {x});
  }

  // The exact name first, else the only name that differs in ASCII case.
  function Lookup(values: Image, col: string): (r: Option<Value>)
    ensures r.Some? ==> exists k :: k in values && EqIgnoreCase(k, col) && r == Some(values[k])
  {
    var ms := CaseMatches(values, col);
    if col in values then Some(values[col])
    else if |ms| != 1 then None
    else
      assert ms != {};
      assert forall x, y | x in ms && y in ms :: x == y by {
        forall x, y | x in ms && y in ms ensures x == y { SingletonMember(ms, x, y); }
      }
      var k :| k in ms;
      Some(values[k])
  }

  function GetColValue(values: Image, col: string): Result<Option<Value>, Error> {
    if Ambiguous(values, col) then Failure(AmbiguousColumn(col)) else Success(Lookup(values, col))
  }

  predicate Readable(values: Image, cols: seq<string>) {
    forall i :: 0 <= i < |cols| ==> !Ambiguous(values, cols[i])
  }

  // No listed column is ambiguous or an unchanged toast.
  predicate Carried(values: Image, cols: seq<string>) {
    forall i :: 0 <= i < |cols| ==> !Ambiguous(values, cols[i]) && Lookup(values, cols[i]) != Some(Unavailable)
  }

  predicate IsNullId(values: Image, col: string) {
    Lookup(values, col).None? || Lookup(values, col) == Some(Null)
  }

  function Picked(values: Image, cols: seq<string>): seq<Option<Value>> {
    seq(|cols|, i requires 0 <= i < |cols| => Lookup(values, cols[i]))
  }

  /******* Operands *******/

  function Placeholder(db: DbType, index: nat): Operand {
    if db.Mysql? then Question else Dollar(index)
  }

  function SqlValue(db: DbType, index: nat, v: Option<Value>, placeholder: bool): Operand {
    if placeholder then Placeholder(db, index) else Literal(BindCell(v))
  }

  function Numbered(db: DbType, count: nat): seq<Operand> {
    seq(count, i requires 0 <= i < count => Placeholder(db, i + 1))
  }

  // Operands for a run of columns, numbered from `index`.
  function Operands(db: DbType, index: nat, values: Image, cols: seq<string>, placeholder: bool): seq<Operand> {
    seq(|cols|, i requires 0 <= i < |cols| => SqlValue(db, index + i, Lookup(values, cols[i]), placeholder))
  }

  /******* Specification queries *******/

  function WhereConds(idCols: seq<string>, values: Image): seq<Cond> {
    seq(|idCols|, i requires 0 <= i < |idCols| =>
      if IsNullId(values, idCols[i]) then IsNull(idCols[i]) else Equals(idCols[i]))
  }

  // The index advances on NULL id columns too.
  function WhereSlots(db: DbType, idCols: seq<string>, index: nat, values: Image, placeholder: bool): seq<Operand> {
    if idCols == [] then []
    else
      var n := |idCols| - 1;
      WhereSlots(db, idCols[..n], index, values, placeholder) +
      if IsNullId(values, idCols[n]) then [] else [SqlValue(db, index + n, Lookup(values, idCols[n]), placeholder)]
  }

  function NotNullCols(idCols: seq<string>, values: Image): seq<string> {
    if idCols == [] then []
    else
      var n := |idCols| - 1;
      NotNullCols(idCols[..n], values) + if IsNullId(values, idCols[n]) then [] else [idCols[n]]
  }

  function NonKey(cols: seq<string>, idCols: seq<string>): seq<string> {
    if cols == [] then []
    else
      var n := |cols| - 1;
      NonKey(cols[..n], idCols) + if cols[n] in idCols then [] else [cols[n]]
  }

  // The columns an update sets: present and available.
  function MatchedCols(cols: seq<string>, values: Image): seq<string> {
    if cols == [] then []
    else
      var n := |cols| - 1;
      var v := Lookup(values, cols[n]);
      MatchedCols(cols[..n], values) + if v.None? || v.value.Unavailable? then [] else [cols[n]]
  }

  function InsertSpec(meta: TableMeta, db: DbType, after: Image, placeholder: bool): Query {
    Query(Insert(InsertInto, meta.cols, 1, NoClause), Operands(db, 1, after, meta.cols, placeholder),
          meta.cols, Picked(after, meta.cols))
  }

  predicate HasOnConflict(db: DbType) {
    db.Pg? || db.GaussDBPg?
  }

  function ReplaceSpec(meta: TableMeta, db: DbType, after: Image, placeholder: bool): Query {
    var insert := InsertSpec(meta, db, after, placeholder);
    var rest := NonKey(meta.cols, meta.idCols);
    if HasOnConflict(db) then
      var clause := if rest == [] then DoNothing(meta.idCols) else DoUpdate(meta.idCols, rest);
      Query(insert.shape.(clause := clause),
            insert.slots + Operands(db, |meta.cols| + 1, after, rest, placeholder),
            insert.cols + rest, insert.binds + Picked(after, rest))
    else if db.GaussDBOracle? then insert
    else insert.(shape := insert.shape.(verb := ReplaceInto))
  }

  function WhereQuery(shape: Shape, db: DbType, meta: TableMeta, values: Image, placeholder: bool): Query {
    var notNull := NotNullCols(meta.idCols, values);
    Query(shape, WhereSlots(db, meta.idCols, 1, values, placeholder), notNull, Picked(values, notNull))
  }

  function ReplaceDeleteSpec(meta: TableMeta, db: DbType, after: Image): Query {
    WhereQuery(Delete(WhereConds(meta.idCols, after), false), db, meta, after, true)
  }

  function DeleteSpec(meta: TableMeta, db: DbType, before: Image, placeholder: bool): Query {
    WhereQuery(Delete(WhereConds(meta.idCols, before), !meta.hasKeys), db, meta, before, placeholder)
  }

  function SelectSpec(meta: TableMeta, db: DbType, after: Image, placeholder: bool): Query {
    WhereQuery(Select(WhereConds(meta.idCols, after), !meta.hasKeys), db, meta, after, placeholder)
  }

  function UpdateSpec(meta: TableMeta, db: DbType, before: Image, after: Image, placeholder: bool): Query {
    var sets := MatchedCols(meta.cols, after);
    var notNull := NotNullCols(meta.idCols, before);
    Query(Update(sets, WhereConds(meta.idCols, before), !meta.hasKeys),
          Operands(db, 1, after, sets, placeholder) + WhereSlots(db, meta.idCols, |sets| + 1, before, placeholder),
          sets + notNull, Picked(after, sets) + Picked(before, notNull))
  }

  // data.iter().skip(start).take(batch)
  function Window<T>(data: seq<T>, start: nat, batch: nat): seq<T> {
    if start >= |data| then []
    else if start + batch <= |data| then data[start..start + batch]
    else data[start..]
  }

  function PickedRows(images: seq<Image>, cols: seq<string>): seq<seq<Option<Value>>> {
    seq(|images|, r requires 0 <= r < |images| => Picked(images[r], cols))
  }

  function Repeat<T>(xs: seq<T>, count: nat): seq<T> {
    Flatten(seq(count, _ => xs))
  }

  function BatchClause(meta: TableMeta, db: DbType): Clause {
    var rest := NonKey(meta.cols, meta.idCols);
    if !HasOnConflict(db) || meta.idCols == [] then NoClause
    else if rest == [] then DoNothing(meta.idCols)
    else DoExcluded(meta.idCols, rest)
  }

  function BatchInsertSpec(meta: TableMeta, db: DbType, images: seq<Image>, batch: nat, replace: bool): Query {
    var verb := if replace && db.Mysql? then ReplaceInto else InsertInto;
    var clause := if replace && !db.Mysql? then BatchClause(meta, db) else NoClause;
    Query(Insert(verb, meta.cols, batch, clause), Numbered(db, batch * |meta.cols|),
          Repeat(meta.cols, |images|), Flatten(PickedRows(images, meta.cols)))
  }

  function KeyBatchSpec(meta: TableMeta, db: DbType, images: seq<Image>, batch: nat): Query {
    Query(DeleteIn(meta.idCols, batch), Numbered(db, batch * |meta.idCols|),
          Repeat(meta.idCols, |images|), Flatten(PickedRows(images, meta.idCols)))
  }

  /******* Builders *******/

  lemma WhereSnoc(db: DbType, idCols: seq<string>, i: nat, start: nat, values: Image, placeholder: bool)
    requires i < |idCols|
    ensures var col, before := idCols[i], idCols[..i];
            var after := idCols[..i + 1];
            && (Carried(values, after) <==>
                Carried(values, before) && !Ambiguous(values, col) && Lookup(values, col) != Some(Unavailable))
            && WhereConds(after, values) ==
               WhereConds(before, values) + [if IsNullId(values, col) then IsNull(col) else Equals(col)]
            && WhereSlots(db, after, start, values, placeholder) ==
               WhereSlots(db, before, start, values, placeholder) +
               (if IsNullId(values, col) then [] else [SqlValue(db, start + i, Lookup(values, col), placeholder)])
            && NotNullCols(after, values) == NotNullCols(before, values) + if IsNullId(values, col) then [] else [col]
  {
    hide Lookup, Ambiguous, SqlValue, IsNullId;
    assert idCols[..i + 1][..i] == idCols[..i];
    assert idCols[..i + 1] == idCols[..i] + [idCols[i]];
  }

  lemma WhereNone(db: DbType, start: nat, values: Image, placeholder: bool)
    ensures Carried(values, []) && WhereConds([], values) == []
    ensures WhereSlots(db, [], start, values, placeholder) == [] && NotNullCols([], values) == []
  {
  }

  lemma CarriedPrefix(values: Image, cols: seq<string>, i: nat)
    requires i <= |cols|
    ensures Carried(values, cols) ==> Carried(values, cols[..i])
  {
    hide Lookup, Ambiguous;
  }

  method GetWhereInfo(db: DbType, meta: TableMeta, start: nat, values: Image, placeholder: bool)
    returns (r: Result<(seq<Cond>, seq<Operand>, seq<string>), Error>)
    ensures r.Success? <==> Carried(values, meta.idCols)
    ensures r.Success? ==> r.value == (WhereConds(meta.idCols, values),
                                       WhereSlots(db, meta.idCols, start, values, placeholder),
                                       NotNullCols(meta.idCols, values))
  {
    hide Lookup, Ambiguous, SqlValue, Carried, WhereConds, WhereSlots, NotNullCols;
    var conds, slots, notNull, index := [], [], [], start;
    WhereNone(db, start, values, placeholder);
    for i := 0 to |meta.idCols|
      invariant index == start + i
      invariant Carried(values, meta.idCols[..i])
      invariant conds == WhereConds(meta.idCols[..i], values)
      invariant slots == WhereSlots(db, meta.idCols[..i], start, values, placeholder)
      invariant notNull == NotNullCols(meta.idCols[..i], values)
    {
      var col := meta.idCols[i];
      WhereSnoc(db, meta.idCols, i, start, values, placeholder);
      CarriedPrefix(values, meta.idCols, i + 1);
      var value := GetColValue(values, col);
      if value.Failure? { return Failure(value.error); }
      if value.value == Some(Unavailable) { return Failure(UnavailableValue(col)); }
      if value.value.None? || value.value.value.Null? {
        conds := conds + [IsNull(col)];
      } else {
        conds := conds + [Equals(col)];
        slots := slots + [SqlValue(db, index, value.value, placeholder)];
        notNull := notNull + [col];
      }
      index := index + 1;
    }
    assert meta.idCols[..|meta.idCols|] == meta.idCols;
    r := Success((conds, slots, notNull));
  }

  // Binds for a run of columns, refusing an unavailable value.
  method PickAvailable(values: Image, cols: seq<string>) returns (r: Result<seq<Option<Value>>, Error>)
    ensures r.Success? <==> Carried(values, cols)
    ensures r.Success? ==> r.value == Picked(values, cols)
  {
    hide Lookup, Ambiguous;
    var binds := [];
    for i := 0 to |cols|
      invariant Carried(values, cols[..i])
      invariant binds == Picked(values, cols[..i])
    {
      var value := GetColValue(values, cols[i]);
      if value.Failure? { return Failure(value.error); }
      if value.value == Some(Unavailable) { return Failure(UnavailableValue(cols[i])); }
      binds := binds + [value.value];
    }
    assert cols[..|cols|] == cols;
    r := Success(binds);
  }

  method GetInsertQuery(meta: TableMeta, db: DbType, row: RowData, placeholder: bool) returns (r: Result<Query, Error>)
    ensures r.Success? <==> row.after.Some? && Carried(row.after.value, meta.cols)
    ensures r.Success? ==> r.value == InsertSpec(meta, db, row.after.value, placeholder)
  {
    hide Lookup, Carried, SqlValue;
    if row.after.None? { return Failure(MissingImage); }
    var after := row.after.value;
    var binds := PickAvailable(after, meta.cols);
    if binds.Failure? { return Failure(binds.error); }
    var slots := [];
    for i := 0 to |meta.cols|
      invariant slots == Operands(db, 1, after, meta.cols, placeholder)[..i]
    {
      slots := slots + [SqlValue(db, i + 1, binds.value[i], placeholder)];
    }
    r := Success(Query(Insert(InsertInto, meta.cols, 1, NoClause), slots, meta.cols, binds.value));
  }

  method GetReplaceQuery(meta: TableMeta, db: DbType, row: RowData, placeholder: bool) returns (r: Result<Query, Error>)
    ensures r.Success? <==> row.after.Some? && Carried(row.after.value, meta.cols)
    ensures r.Success? ==> r.value == ReplaceSpec(meta, db, row.after.value, placeholder)
  {
    hide Lookup, Carried, SqlValue;
    r := GetInsertQuery(meta, db, row, placeholder);
    if r.Failure? { return; }
    var q := r.value;
    var after := row.after.value;
    if db.Pg? || db.GaussDBPg? {
      var index := |q.cols| + 1;
      var sets, slots, binds := [], [], [];
      for i := 0 to |meta.cols|
        invariant sets == NonKey(meta.cols[..i], meta.idCols)
        invariant index == |meta.cols| + 1 + |sets|
        invariant slots == Operands(db, |meta.cols| + 1, after, sets, placeholder)
        invariant binds == Picked(after, sets)
      {
        var col := meta.cols[i];
        assert meta.cols[..i + 1][..i] == meta.cols[..i];
        if col !in meta.idCols {
          var value := Lookup(after, col);
          slots := slots + [SqlValue(db, index, value, placeholder)];
          binds := binds + [value];
          sets := sets + [col];
          index := index + 1;
        }
      }
      assert meta.cols[..|meta.cols|] == meta.cols;
      var clause := if sets == [] then DoNothing(meta.idCols) else DoUpdate(meta.idCols, sets);
      return Success(Query(q.shape.(clause := clause), q.slots + slots, q.cols + sets, q.binds + binds));
    } else if db != GaussDBOracle {
      return Success(q.(shape := q.shape.(verb := ReplaceInto)));
    }
  }

  method GetReplaceDeleteQuery(meta: TableMeta, db: DbType, row: RowData) returns (r: Result<Query, Error>)
    ensures r.Success? <==> row.after.Some? && Carried(row.after.value, meta.idCols)
    ensures r.Success? ==> r.value == ReplaceDeleteSpec(meta, db, row.after.value)
  {
    if row.after.None? { return Failure(MissingImage); }
    var info := GetWhereInfo(db, meta, 1, row.after.value, true);
    if info.Failure? { return Failure(info.error); }
    var (conds, slots, cols) := info.value;
    r := Success(Query(Delete(conds, false), slots, cols, Picked(row.after.value, cols)));
  }

  method GetDeleteQuery(meta: TableMeta, db: DbType, row: RowData, placeholder: bool) returns (r: Result<Query, Error>)
    ensures r.Success? <==> row.before.Some? && Carried(row.before.value, meta.idCols)
    ensures r.Success? ==> r.value == DeleteSpec(meta, db, row.before.value, placeholder)
  {
    if row.before.None? { return Failure(MissingImage); }
    var info := GetWhereInfo(db, meta, 1, row.before.value, placeholder);
    if info.Failure? { return Failure(info.error); }
    var (conds, slots, cols) := info.value;
    r := Success(Query(Delete(conds, !meta.hasKeys), slots, cols, Picked(row.before.value, cols)));
  }

  method GetSelectQuery(meta: TableMeta, db: DbType, row: RowData, placeholder: bool) returns (r: Result<Query, Error>)
    ensures r.Success? <==> row.after.Some? && Carried(row.after.value, meta.idCols)
    ensures r.Success? ==> r.value == SelectSpec(meta, db, row.after.value, placeholder)
  {
    if row.after.None? { return Failure(MissingImage); }
    var info := GetWhereInfo(db, meta, 1, row.after.value, placeholder);
    if info.Failure? { return Failure(info.error); }
    var (conds, slots, cols) := info.value;
    r := Success(Query(Select(conds, !meta.hasKeys), slots, cols, Picked(row.after.value, cols)));
  }

  method MatchedTargetCols(cols: seq<string>, values: Image) returns (r: Result<seq<string>, Error>)
    ensures r.Success? <==> Readable(values, cols)
    ensures r.Success? ==> r.value == MatchedCols(cols, values)
  {
    var matched := [];
    for i := 0 to |cols|
      invariant Readable(values, cols[..i])
      invariant matched == MatchedCols(cols[..i], values)
    {
      assert cols[..i + 1][..i] == cols[..i];
      var value := GetColValue(values, cols[i]);
      if value.Failure? { return Failure(value.error); }
      if value.value.Some? && !value.value.value.Unavailable? {
        matched := matched + [cols[i]];
      }
    }
    assert cols[..|cols|] == cols;
    r := Success(matched);
  }

  method GetUpdateQuery(meta: TableMeta, db: DbType, row: RowData, placeholder: bool) returns (r: Result<Query, Error>)
    ensures r.Success? <==>
            && row.before.Some? && row.after.Some?
            && Readable(row.after.value, meta.cols)
            && MatchedCols(meta.cols, row.after.value) != []
            && Carried(row.before.value, meta.idCols)
    ensures r.Success? ==> r.value == UpdateSpec(meta, db, row.before.value, row.after.value, placeholder)
  {
    if row.before.None? || row.after.None? { return Failure(MissingImage); }
    var before, after := row.before.value, row.after.value;
    var matched := MatchedTargetCols(meta.cols, after);
    if matched.Failure? { return Failure(matched.error); }
    var sets := matched.value;
    var index, slots := 1, [];
    for i := 0 to |sets|
      invariant index == i + 1
      invariant slots == Operands(db, 1, after, sets, placeholder)[..i]
    {
      slots := slots + [SqlValue(db, index, Lookup(after, sets[i]), placeholder)];
      index := index + 1;
    }
    if sets == [] { return Failure(NothingToSet); }
    var info := GetWhereInfo(db, meta, index, before, placeholder);
    if info.Failure? { return Failure(info.error); }
    var (conds, whereSlots, notNull) := info.value;
    r := Success(Query(Update(sets, conds, !meta.hasKeys), slots + whereSlots, sets + notNull,
                       Picked(after, sets) + Picked(before, notNull)));
  }

  // The placeholder loop shared by the batch builders: `batch` rows of `width`, one running index.
  method NumberPlaceholders(db: DbType, batch: nat, width: nat) returns (slots: seq<Operand>)
    ensures slots == Numbered(db, batch * width)
  {
    slots := [];
    var index := 1;
    for r := 0 to batch
      invariant index == r * width + 1 && slots == Numbered(db, r * width)
    {
      for c := 0 to width
        invariant index == r * width + c + 1 && slots == Numbered(db, r * width + c)
      {
        slots := slots + [Placeholder(db, index)];
        index := index + 1;
      }
    }
  }

  lemma RepeatMore<T>(xs: seq<T>, count: nat)
    ensures Repeat(xs, count + 1) == Repeat(xs, count) + xs
  {
    var rows := seq(count + 1, _ => xs);
    assert rows[..count] == seq(count, _ => xs);
  }

  // The bind loop of the batch builders after `i` rows.
  ghost predicate Gathered(images: seq<Image>, cols: seq<string>, i: nat, bindCols: seq<string>, binds: seq<Option<Value>>) {
    && i <= |images|
    && bindCols == Repeat(cols, i)
    && binds == Flatten(PickedRows(images[..i], cols))
  }

  lemma GatherNone(images: seq<Image>, cols: seq<string>)
    ensures Gathered(images, cols, 0, [], [])
  {
  }

  lemma GatherOne(images: seq<Image>, cols: seq<string>, i: nat, bindCols: seq<string>, binds: seq<Option<Value>>)
    requires Gathered(images, cols, i, bindCols, binds) && i < |images|
    ensures Gathered(images, cols, i + 1, bindCols + cols, binds + Picked(images[i], cols))
  {
    RepeatMore(cols, i);
    var rows := PickedRows(images[..i + 1], cols);
    assert rows[..i] == PickedRows(images[..i], cols);
  }

  lemma GatherAll(images: seq<Image>, cols: seq<string>, bindCols: seq<string>, binds: seq<Option<Value>>)
    requires Gathered(images, cols, |images|, bindCols, binds)
    ensures bindCols == Repeat(cols, |images|) && binds == Flatten(PickedRows(images, cols))
  {
    assert images[..|images|] == images;
  }

  // Every row has the image, and the image has what the builder reads.
  ghost predicate AllCarried(rows: seq<RowData>, cols: seq<string>) {
    forall i :: 0 <= i < |rows| ==> rows[i].after.Some? && Carried(rows[i].after.value, cols)
  }

  ghost predicate AllReadable(rows: seq<RowData>, cols: seq<string>) {
    forall i :: 0 <= i < |rows| ==> rows[i].after.Some? && Readable(rows[i].after.value, cols)
  }

  ghost predicate AllKeyed(rows: seq<RowData>, cols: seq<string>) {
    forall i :: 0 <= i < |rows| ==> rows[i].before.Some? && FullKey(rows[i].before.value, cols)
  }

  function Afters(rows: seq<RowData>): seq<Image> {
    seq(|rows|, i requires 0 <= i < |rows| => if rows[i].after.Some? then rows[i].after.value else map[])
  }

  function Befores(rows: seq<RowData>): seq<Image> {
    seq(|rows|, i requires 0 <= i < |rows| => if rows[i].before.Some? then rows[i].before.value else map[])
  }

  method GetBatchInsertQuery(meta: TableMeta, db: DbType, data: seq<RowData>, start: nat, batch: nat, replace: bool)
    returns (r: Result<Query, Error>)
    ensures r.Success? <==> AllCarried(Window(data, start, batch), meta.cols)
    ensures r.Success? ==> r.value == BatchInsertSpec(meta, db, Afters(Window(data, start, batch)), batch, replace)
  {
    hide Carried, Lookup, Gathered, Repeat, Flatten, PickedRows;
    var slots := NumberPlaceholders(db, batch, |meta.cols|);
    var rows := Window(data, start, batch);
    ghost var images := Afters(rows);
    var cols, binds := [], [];
    GatherNone(images, meta.cols);
    for i := 0 to |rows|
      invariant AllCarried(rows[..i], meta.cols)
      invariant Gathered(images, meta.cols, i, cols, binds)
    {
      if rows[i].after.None? { return Failure(MissingImage); }
      var picked := PickAvailable(rows[i].after.value, meta.cols);
      if picked.Failure? { return Failure(picked.error); }
      GatherOne(images, meta.cols, i, cols, binds);
      cols := cols + meta.cols;
      binds := binds + picked.value;
    }
    GatherAll(images, meta.cols, cols, binds);
    assert rows[..|rows|] == rows;
    var verb, clause := InsertInto, NoClause;
    if replace {
      if db.Mysql? {
        verb := ReplaceInto;
      } else {
        clause := BatchClause(meta, db);
      }
    }
    r := Success(Query(Insert(verb, meta.cols, batch, clause), slots, cols, binds));
  }

  method GetBatchDeleteQuery(meta: TableMeta, db: DbType, data: seq<RowData>, start: nat, batch: nat)
    returns (r: Result<Query, Error>)
    ensures r.Success? <==> AllKeyed(Window(data, start, batch), meta.idCols)
    ensures r.Success? ==> r.value == KeyBatchSpec(meta, db, Befores(Window(data, start, batch)), batch)
  {
    hide FullKey, Lookup, Gathered, Repeat, Flatten, PickedRows;
    var slots := NumberPlaceholders(db, batch, |meta.idCols|);
    var rows := Window(data, start, batch);
    ghost var images := Befores(rows);
    var cols, binds := [], [];
    GatherNone(images, meta.idCols);
    for i := 0 to |rows|
      invariant AllKeyed(rows[..i], meta.idCols)
      invariant Gathered(images, meta.idCols, i, cols, binds)
    {
      if rows[i].before.None? { return Failure(MissingImage); }
      var picked := PickKey(rows[i].before.value, meta.idCols);
      if picked.Failure? { return Failure(picked.error); }
      GatherOne(images, meta.idCols, i, cols, binds);
      cols := cols + meta.idCols;
      binds := binds + picked.value;
    }
    GatherAll(images, meta.idCols, cols, binds);
    assert rows[..|rows|] == rows;
    r := Success(Query(DeleteIn(meta.idCols, batch), slots, cols, binds));
  }

  // A key with every part present and not NULL.
  predicate FullKey(values: Image, idCols: seq<string>) {
    Carried(values, idCols) && forall i :: 0 <= i < |idCols| ==> !IsNullId(values, idCols[i])
  }

  method PickKey(values: Image, cols: seq<string>) returns (r: Result<seq<Option<Value>>, Error>)
    ensures r.Success? <==> FullKey(values, cols)
    ensures r.Success? ==> r.value == Picked(values, cols)
  {
    hide Lookup, Ambiguous;
    var binds := [];
    for i := 0 to |cols|
      invariant FullKey(values, cols[..i])
      invariant binds == Picked(values, cols[..i])
    {
      var value := GetColValue(values, cols[i]);
      if value.Failure? { return Failure(value.error); }
      if value.value == Some(Unavailable) { return Failure(UnavailableValue(cols[i])); }
      if value.value.None? || value.value.value.Null? { return Failure(NullKey(cols[i])); }
      binds := binds + [value.value];
    }
    assert cols[..|cols|] == cols;
    r := Success(binds);
  }

  method GetBatchReplaceDeleteQuery(meta: TableMeta, db: DbType, data: seq<RowData>, start: nat, batch: nat)
    returns (r: Result<Query, Error>)
    ensures r.Success? <==> AllReadable(Window(data, start, batch), meta.idCols)
    ensures r.Success? ==>
              r.value == KeyBatchSpec(meta, db, Afters(Window(data, start, batch)), |Window(data, start, batch)|)
  {
    hide Readable, Lookup, Gathered, Repeat, Flatten, PickedRows;
    var rows := Window(data, start, batch);
    var slots := NumberPlaceholders(db, |rows|, |meta.idCols|);
    ghost var images := Afters(rows);
    var cols, binds := [], [];
    GatherNone(images, meta.idCols);
    for i := 0 to |rows|
      invariant AllReadable(rows[..i], meta.idCols)
      invariant Gathered(images, meta.idCols, i, cols, binds)
    {
      if rows[i].after.None? { return Failure(MissingImage); }
      var picked := PickReadable(rows[i].after.value, meta.idCols);
      if picked.Failure? { return Failure(picked.error); }
      GatherOne(images, meta.idCols, i, cols, binds);
      cols := cols + meta.idCols;
      binds := binds + picked.value;
    }
    GatherAll(images, meta.idCols, cols, binds);
    assert rows[..|rows|] == rows;
    r := Success(Query(DeleteIn(meta.idCols, |rows|), slots, cols, binds));
  }

  method PickReadable(values: Image, cols: seq<string>) returns (r: Result<seq<Option<Value>>, Error>)
    ensures r.Success? <==> Readable(values, cols)
    ensures r.Success? ==> r.value == Picked(values, cols)
  {
    hide Lookup, Ambiguous;
    var binds := [];
    for i := 0 to |cols|
      invariant Readable(values, cols[..i])
      invariant binds == Picked(values, cols[..i])
    {
      var value := GetColValue(values, cols[i]);
      if value.Failure? { return Failure(value.error); }
      binds := binds + [value.value];
    }
    assert cols[..|cols|] == cols;
    r := Success(binds);
  }
}
