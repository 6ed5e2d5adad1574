/**
 The optimizer's rules.  Each rule rewrites the children first, clones the node around them and then
 looks at the node itself; `Everywhere` is that traversal, and the functions named after the rules
 are what they do at one node.
 */
module Optimizer {
  import opened Options
  import opened Expressions
  import opened Plans

  /** Rebuilds the plan bottom up, applying `rule` at every node. */
  function Everywhere(p: Plan, rule: Plan -> Result<Plan>): Result<Plan> {
    match p
    case SeqScan(_, _, _, _) => rule(p)
    case MockScan(_, _) => rule(p)
    case IndexScan(_, _) => rule(p)
    case Values(_, _) => rule(p)
    case Filter(s, e, c) =>
      var c' :- Everywhere(c, rule);
      rule(Filter(s, e, c'))
    case Projection(s, es, c) =>
      var c' :- Everywhere(c, rule);
      rule(Projection(s, es, c'))
    case NestedLoopJoin(s, l, r, e, t) =>
      var l' :- Everywhere(l, rule);
      var r' :- Everywhere(r, rule);
      rule(NestedLoopJoin(s, l', r', e, t))
    case HashJoin(s, l, r, lk, rk, t) =>
      var l' :- Everywhere(l, rule);
      var r' :- Everywhere(r, rule);
      rule(HashJoin(s, l', r', lk, rk, t))
    case NestedIndexJoin(s, c, k, o, i, inner, t) =>
      var c' :- Everywhere(c, rule);
      rule(NestedIndexJoin(s, c', k, o, i, inner, t))
    case Sort(s, os, c) =>
      var c' :- Everywhere(c, rule);
      rule(Sort(s, os, c'))
    case Limit(s, n, c) =>
      var c' :- Everywhere(c, rule);
      rule(Limit(s, n, c'))
    case Aggregation(s, gs, es, ts, c) =>
      var c' :- Everywhere(c, rule);
      rule(Aggregation(s, gs, es, ts, c'))
    case Modify(s, k, o, c) =>
      var c' :- Everywhere(c, rule);
      rule(Modify(s, k, o, c'))
  }

  // ----- merge projection -----

  function Types(s: Schema): seq<TypeId> {
    if s == [] then [] else [s[0].ty] + Types(s[1..])
  }

  /** The expressions are the columns 0, 1, 2, ... counted from `from`. */
  predicate IsIdentity(exprs: seq<Expr>, from: nat) {
    exprs == [] || (exprs[0].ColumnValue? && exprs[0].tupleIdx == 0 && exprs[0].colIdx == from
                    && IsIdentity(exprs[1..], from + 1))
  }

  /** A projection that only renames columns goes; the child takes over its schema. */
  function MergeProjection(p: Plan): Result<Plan> {
    if p.Projection? && Types(p.child.schema) == Types(p.schema) && IsIdentity(p.expressions, 0)
    then Ok(p.child.(schema := p.schema))
    else Ok(p)
  }

  // ----- merge filter into nested loop join -----

  /** Columns of the concatenated tuple become columns of the left or the right one. */
  function RewriteForJoin(e: Expr, leftCount: nat, rightCount: nat): Result<Expr> {
    match e
    case ColumnValue(t, i, ty) =>
      if t != 0 then Throws
      else if i < leftCount then Ok(ColumnValue(0, i, ty))
      else if i < leftCount + rightCount then Ok(ColumnValue(1, i - leftCount, ty))
      else Throws
    case Constant(v) => Ok(e)
    case Comparison(op, l, r) =>
      var l' :- RewriteForJoin(l, leftCount, rightCount);
      var r' :- RewriteForJoin(r, leftCount, rightCount);
      Ok(Comparison(op, l', r'))
    case Arithmetic(op, l, r) =>
      var l' :- RewriteForJoin(l, leftCount, rightCount);
      var r' :- RewriteForJoin(r, leftCount, rightCount);
      Ok(Arithmetic(op, l', r'))
    case Logic(op, l, r) =>
      var l' :- RewriteForJoin(l, leftCount, rightCount);
      var r' :- RewriteForJoin(r, leftCount, rightCount);
      Ok(Logic(op, l', r'))
  }

  function ToLower(s: string): string {
    if s == [] then [] else [if 'A' <= s[0] <= 'Z' then s[0] - 'A' + 'a' else s[0]] + ToLower(s[1..])
  }

  /**
   The cast to BOOLEAN, read as a C++ bool.  A boolean null is stored as -128, which reads as true;
   numbers have no such cast.
   */
  function CastToBool(v: Value): Result<bool> {
    match v
    case Bool(b) => Ok(b)
    case Null(ty) => if ty == BOOLEAN then Ok(true) else Throws
    case Int(_) => Throws
    case Str(s) =>
      var t := ToLower(s);
      if t == "true" || t == "1" || t == "t" then Ok(true)
      else if t == "false" || t == "0" || t == "f" then Ok(false)
      else Throws
  }

  function IsPredicateTrue(e: Expr): Result<bool> {
    if e.Constant? then CastToBool(e.val) else Ok(false)
  }

  /**
   A filter over a join with an always-true predicate becomes that join's predicate; the join type is not looked at.
   */
  function MergeFilterNLJ(p: Plan): Result<Plan> {
    if p.Filter? && p.child.NestedLoopJoin? then
      var always :- IsPredicateTrue(p.child.pred);
      if always then
        var e :- RewriteForJoin(p.pred, |p.child.left.schema|, |p.child.right.schema|);
        Ok(NestedLoopJoin(p.schema, p.child.left, p.child.right, e, p.child.joinType))
      else Ok(p)
    else Ok(p)
  }

  // ----- nested loop join as index join -----

  /** The first index of the table whose key is exactly the given column. */
  function MatchIndex(db: Database, candidates: seq<nat>, column: nat): Option<nat> {
    if candidates == [] then None
    else if candidates[0] in db.indexes && db.indexes[candidates[0]].keyAttrs == [column] then Some(candidates[0])
    else MatchIndex(db, candidates[1..], column)
  }

  predicate IsColumnEquality(e: Expr) {
    e.Comparison? && e.cmp == Equal && e.left.ColumnValue? && e.right.ColumnValue?
  }

  function NLJAsIndexJoin(db: Database, p: Plan): Result<Plan> {
    if p.NestedLoopJoin? && IsColumnEquality(p.pred) && p.right.SeqScan? then
      var (a, b) := (p.pred.left, p.pred.right);
      var candidates := TableIndexes(db, p.right.tableName);
      if a.tupleIdx == 0 && b.tupleIdx == 1 && MatchIndex(db, candidates, b.colIdx).Some? then
        Ok(NestedIndexJoin(p.schema, p.left, a.(tupleIdx := 0), p.right.tableOid,
                           MatchIndex(db, candidates, b.colIdx).value, p.right.schema, p.joinType))
      else if a.tupleIdx == 1 && b.tupleIdx == 0 && MatchIndex(db, candidates, a.colIdx).Some? then
        Ok(NestedIndexJoin(p.schema, p.left, b.(tupleIdx := 0), p.right.tableOid,
                           MatchIndex(db, candidates, a.colIdx).value, p.right.schema, p.joinType))
      else Ok(p)
    else Ok(p)
  }

  // ----- nested loop join as hash join (not part of the pipeline) -----

  function NLJAsHashJoin(p: Plan): Result<Plan> {
    if p.NestedLoopJoin? && IsColumnEquality(p.pred) then
      var (a, b) := (p.pred.left, p.pred.right);
      if a.tupleIdx == 0 && b.tupleIdx == 1 then
        Ok(HashJoin(p.schema, p.left, p.right, a.(tupleIdx := 0), b.(tupleIdx := 0), p.joinType))
      else if a.tupleIdx == 1 && b.tupleIdx == 0 then
        Ok(HashJoin(p.schema, p.left, p.right, b.(tupleIdx := 0), a.(tupleIdx := 0), p.joinType))
      else Ok(p)
    else Ok(p)
  }

  // ----- order by as index scan -----

  /** The first index with a one-column key of the given name. */
  function MatchKeyName(db: Database, candidates: seq<nat>, name: string): Option<nat> {
    if candidates == [] then None
    else if candidates[0] in db.indexes && |db.indexes[candidates[0]].keySchema| == 1
            && db.indexes[candidates[0]].keySchema[0].name == name then Some(candidates[0])
    else MatchKeyName(db, candidates[1..], name)
  }

  function OrderByAsIndexScan(db: Database, p: Plan): Result<Plan> {
    if p.Sort? && |p.orderBys| == 1 && p.orderBys[0].0 != DESC && p.orderBys[0].1.ColumnValue? && p.child.SeqScan? then
      if p.child.tableOid !in db.tables then Throws
      else
        var table := db.tables[p.child.tableOid];
        var candidates := TableIndexes(db, table.name);
        var column := p.orderBys[0].1.colIdx;
        if column >= |table.schema| then Ok(p)
        else
          var index := MatchKeyName(db, candidates, table.schema[column].name);
          if index.Some? then Ok(IndexScan(p.schema, index.value)) else Ok(p)
    else Ok(p)
  }

  // ----- the pipeline -----

  function SortLimitAsTopN(p: Plan): Result<Plan> {
    Ok(p)
  }

  function IndexJoinRule(db: Database): Plan -> Result<Plan> {
    p => NLJAsIndexJoin(db, p)
  }

  function IndexScanRule(db: Database): Plan -> Result<Plan> {
    p => OrderByAsIndexScan(db, p)
  }

  function OptimizeCustom(db: Database, plan: Plan): Result<Plan> {
    var p1 :- Everywhere(plan, MergeProjection);
    var p2 :- Everywhere(p1, MergeFilterNLJ);
    var p3 :- Everywhere(p2, IndexJoinRule(db));
    var p4 :- Everywhere(p3, IndexScanRule(db));
    SortLimitAsTopN(p4)
  }
}
