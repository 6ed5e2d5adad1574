/**
 Plan trees, the catalog they refer to, and the rows they stand for.  Filter, projection and values
 follow their executors; joins, sorts and index scans, whose executors are placeholders, have the
 meaning of sections 7.5 (joined table) and 7.6 (where clause) of ISO/IEC 9075:1992.
 */
module Plans {
  import opened Options
  import opened Expressions

  datatype Column = Column(name: string, ty: TypeId)
  type Schema = seq<Column>

  datatype JoinType = LEFT | RIGHT | INNER | OUTER
  datatype OrderByType = DEFAULT | ASC | DESC
  datatype AggregationType = CountStar | Count | Sum | Min | Max
  datatype ModifyKind = Insert | Update | Delete

  datatype Plan =
    | SeqScan(schema: Schema, tableOid: nat, tableName: string, filter: Option<Expr>)
    | MockScan(schema: Schema, table: string)
    | IndexScan(schema: Schema, indexOid: nat)
    | Values(schema: Schema, exprs: seq<seq<Expr>>)
    | Filter(schema: Schema, pred: Expr, child: Plan)
    | Projection(schema: Schema, expressions: seq<Expr>, child: Plan)
    | NestedLoopJoin(schema: Schema, left: Plan, right: Plan, pred: Expr, joinType: JoinType)
    | HashJoin(schema: Schema, left: Plan, right: Plan, leftKey: Expr, rightKey: Expr, joinType: JoinType)
    | NestedIndexJoin(schema: Schema, child: Plan, key: Expr, innerOid: nat, indexOid: nat, innerSchema: Schema,
                      joinType: JoinType)
    | Sort(schema: Schema, orderBys: seq<(OrderByType, Expr)>, child: Plan)
    | Limit(schema: Schema, count: nat, child: Plan)
    | Aggregation(schema: Schema, groupBys: seq<Expr>, aggregates: seq<Expr>, aggTypes: seq<AggregationType>,
                  child: Plan)
    | Modify(schema: Schema, kind: ModifyKind, tableOid: nat, child: Plan)

  // ----- the database -----

  datatype TableInfo = TableInfo(name: string, schema: Schema, rows: seq<Row>)

  /** `entries` are the rows the index leads to, in the order of an index scan. */
  datatype IndexInfo = IndexInfo(keySchema: Schema, keyAttrs: seq<nat>, entries: seq<Row>)

  datatype Database = Database(
    tables: map<nat, TableInfo>,
    indexes: map<nat, IndexInfo>,
    tableIndexes: map<string, seq<nat>>,
    mocks: map<string, seq<Row>>,
    aggregate: (seq<Expr>, seq<Expr>, seq<AggregationType>, seq<Row>) -> seq<Row>,
    modifyRows: (ModifyKind, nat, seq<Row>) -> seq<Row>)

  function TableIndexes(db: Database, name: string): seq<nat> {
    if name in db.tableIndexes then db.tableIndexes[name] else []
  }

  // ----- rows -----

  function FilterRows(rows: seq<Row>, pred: Expr): seq<Row> {
    if rows == [] then []
    else (if Passes(Eval(pred, rows[0])) then [rows[0]] else []) + FilterRows(rows[1..], pred)
  }

  function EvalAll(exprs: seq<Expr>, row: Row): Row {
    if exprs == [] then [] else [Eval(exprs[0], row)] + EvalAll(exprs[1..], row)
  }

  function ProjectRows(rows: seq<Row>, exprs: seq<Expr>): seq<Row> {
    if rows == [] then [] else [EvalAll(exprs, rows[0])] + ProjectRows(rows[1..], exprs)
  }

  function ValuesRows(rows: seq<seq<Expr>>): seq<Row> {
    if rows == [] then [] else [EvalAll(rows[0], [])] + ValuesRows(rows[1..])
  }

  function Nulls(schema: Schema): Row {
    if schema == [] then [] else [Null(schema[0].ty)] + Nulls(schema[1..])
  }

  /** What the left row `l` contributes to a join in which `matches` are its partners. */
  function JoinBlock(l: Row, matches: seq<Row>, outer: bool, nulls: Row): seq<Row> {
    if matches == [] then (if outer then [l + nulls] else [])
    else Extensions(l, matches)
  }

  function Extensions(l: Row, matches: seq<Row>): seq<Row> {
    if matches == [] then [] else [l + matches[0]] + Extensions(l, matches[1..])
  }

  function JoinRows(ls: seq<Row>, partners: Row -> seq<Row>, outer: bool, nulls: Row): seq<Row> {
    if ls == [] then [] else JoinBlock(ls[0], partners(ls[0]), outer, nulls) + JoinRows(ls[1..], partners, outer, nulls)
  }

  /** The partners of `l` under a join predicate. */
  function LoopMatches(l: Row, rs: seq<Row>, pred: Expr): seq<Row> {
    if rs == [] then []
    else (if Passes(EvalJoin(pred, l, rs[0])) then [rs[0]] else []) + LoopMatches(l, rs[1..], pred)
  }

  /** The rows with a given key. */
  function KeyMatches(v: Value, rs: seq<Row>, key: Expr): seq<Row> {
    if rs == [] then []
    else (if Compare(Equal, v, Eval(key, rs[0])) == CmpTrue then [rs[0]] else []) + KeyMatches(v, rs[1..], key)
  }

  /** Is `a` to come no later than `b`?  The first order-by on which they differ decides. */
  predicate RowLeq(orderBys: seq<(OrderByType, Expr)>, a: Row, b: Row) {
    if orderBys == [] then true
    else
      var (ty, e) := orderBys[0];
      var (v, w) := (Eval(e, a), Eval(e, b));
      if Less(v, w) then ty != DESC
      else if Less(w, v) then ty == DESC
      else RowLeq(orderBys[1..], a, b)
  }

  function InsertRow(orderBys: seq<(OrderByType, Expr)>, r: Row, sorted: seq<Row>): seq<Row> {
    if sorted == [] then [r]
    else if RowLeq(orderBys, r, sorted[0]) then [r] + sorted
    else [sorted[0]] + InsertRow(orderBys, r, sorted[1..])
  }

  /** A stable sort. */
  function SortRows(orderBys: seq<(OrderByType, Expr)>, rows: seq<Row>): seq<Row> {
    if rows == [] then [] else InsertRow(orderBys, rows[0], SortRows(orderBys, rows[1..]))
  }

  predicate Joinable(t: JoinType) {
    t == INNER || t == LEFT
  }

  /** The rows of a plan; none for what no executor accepts. */
  function Rows(p: Plan, db: Database): Option<seq<Row>> {
    match p
    case SeqScan(_, oid, _, filter) =>
      if oid !in db.tables then None
      else if filter.None? then Some(db.tables[oid].rows)
      else Some(FilterRows(db.tables[oid].rows, filter.value))
    case MockScan(_, t) => if t in db.mocks then Some(db.mocks[t]) else None
    case IndexScan(_, oid) => if oid in db.indexes then Some(db.indexes[oid].entries) else None
    case Values(_, exprs) => Some(ValuesRows(exprs))
    case Filter(_, pred, child) =>
      var c := Rows(child, db);
      if c.None? then None else Some(FilterRows(c.value, pred))
    case Projection(_, exprs, child) =>
      var c := Rows(child, db);
      if c.None? then None else Some(ProjectRows(c.value, exprs))
    case NestedLoopJoin(_, left, right, pred, jt) =>
      var (l, r) := (Rows(left, db), Rows(right, db));
      if l.None? || r.None? || !Joinable(jt) then None
      else Some(JoinRows(l.value, row => LoopMatches(row, r.value, pred), jt == LEFT, Nulls(right.schema)))
    case HashJoin(_, left, right, lk, rk, jt) =>
      var (l, r) := (Rows(left, db), Rows(right, db));
      if l.None? || r.None? || !Joinable(jt) then None
      else Some(JoinRows(l.value, row => KeyMatches(Eval(lk, row), r.value, rk), jt == LEFT, Nulls(right.schema)))
    case NestedIndexJoin(_, child, key, _, oid, inner, jt) =>
      var l := Rows(child, db);
      if l.None? || oid !in db.indexes || |db.indexes[oid].keyAttrs| != 1 || !Joinable(jt) then None
      else
        var index := db.indexes[oid];
        var attr := ColumnValue(0, index.keyAttrs[0], INVALID);
        Some(JoinRows(l.value, row => KeyMatches(Eval(key, row), index.entries, attr), jt == LEFT, Nulls(inner)))
    case Sort(_, orderBys, child) =>
      var c := Rows(child, db);
      if c.None? then None else Some(SortRows(orderBys, c.value))
    case Limit(_, n, child) =>
      var c := Rows(child, db);
      if c.None? then None else Some(if |c.value| <= n then c.value else c.value[..n])
    case Aggregation(_, groupBys, aggregates, types, child) =>
      var c := Rows(child, db);
      if c.None? then None else Some(db.aggregate(groupBys, aggregates, types, c.value))
    case Modify(_, kind, oid, child) =>
      var c := Rows(child, db);
      if c.None? then None else Some(db.modifyRows(kind, oid, c.value))
  }
}
