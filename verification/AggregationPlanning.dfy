/**
 Planning of expressions and of aggregations, as functions.  Aggregation is planned in two phases: the
 calls of HAVING and of the select list are collected first, and become an aggregation node; then the
 expressions are planned over its output, taking the columns of the calls one after the other.
 */
module AggregationPlanning {
  import opened Options
  import opened Expressions
  import opened Plans
  import opened BoundTree
  import opened AggregateValues

  const UNNAMED_COLUMN := "<unnamed>"

  // ----- columns -----

  /** The first column of the given name. */
  function Find(schema: Schema, name: string): Option<nat> {
    if schema == [] then None
    else if schema[0].name == name then Some(0)
    else
      var i := Find(schema[1..], name);
      if i.None? then None else Some(i.value + 1)
  }

  predicate Duplicated(schema: Schema, name: string) {
    schema != [] && (if schema[0].name == name then Find(schema[1..], name).Some? else Duplicated(schema[1..], name))
  }

  /** A column of the only child, or of one of the two children of a join. */
  function PlanColumnRef(name: string, children: seq<Schema>): Result<Expr> {
    if |children| == 1 then
      if Duplicated(children[0], name) then Throws
      else match Find(children[0], name)
        case None => Throws
        case Some(i) => FindInRange(children[0], name); Ok(ColumnValue(0, i, children[0][i].ty))
    else if |children| == 2 then
      match (Find(children[0], name), Find(children[1], name))
      case (Some(_), Some(_)) => Throws
      case (Some(i), None) => FindInRange(children[0], name); Ok(ColumnValue(0, i, children[0][i].ty))
      case (None, Some(i)) => FindInRange(children[1], name); Ok(ColumnValue(1, i, children[1][i].ty))
      case (None, None) => Throws
    else Throws
  }

  lemma {:induction false} FindInRange(schema: Schema, name: string)
    ensures Find(schema, name).Some? ==>
              Find(schema, name).value < |schema| && schema[Find(schema, name).value].name == name
  {
    if schema != [] { FindInRange(schema[1..], name); }
  }

  // ----- operators -----

  function BinaryExpression(op: string, left: Expr, right: Expr): Result<Expr> {
    if op == "=" || op == "==" then Ok(Comparison(Equal, left, right))
    else if op == "!=" || op == "<>" then Ok(Comparison(NotEqual, left, right))
    else if op == "<" then Ok(Comparison(LessThan, left, right))
    else if op == "<=" then Ok(Comparison(LessThanOrEqual, left, right))
    else if op == ">" then Ok(Comparison(GreaterThan, left, right))
    else if op == ">=" then Ok(Comparison(GreaterThanOrEqual, left, right))
    else if op == "+" then Ok(Arithmetic(Plus, left, right))
    else if op == "-" then Ok(Arithmetic(Minus, left, right))
    else if op == "and" then Ok(Logic(And, left, right))
    else if op == "or" then Ok(Logic(Or, left, right))
    else Throws
  }

  function AggregateCall(func: string, args: seq<Expr>): Result<(AggregationType, seq<Expr>)> {
    if args == [] then (if func == "count_star" then Ok((CountStar, [])) else Throws)
    else if |args| == 1 then
      if func == "min" then Ok((Min, args))
      else if func == "max" then Ok((Max, args))
      else if func == "sum" then Ok((Sum, args))
      else if func == "count" then Ok((Count, args))
      else Throws
    else Throws
  }

  // ----- expressions -----

  datatype Planned = Planned(name: string, expr: Expr)

  /** The planned expression, and the number of calls taken from `avail` when it is done. */
  function PlanExpr(e: BoundExpr, children: seq<Schema>, avail: seq<Expr>, next: nat): Result<(Planned, nat)> {
    match e
    case AggCall(_, _, _) => if next >= |avail| then Throws else Ok((Planned(UNNAMED_COLUMN, avail[next]), next + 1))
    case ColumnRef(path) =>
      var x :- PlanColumnRef(Rendered(path), children);
      Ok((Planned(Rendered(path), x), next))
    case BinaryOp(op, l, r) =>
      var (l', n1) :- PlanExpr(l, children, avail, next);
      var (r', n2) :- PlanExpr(r, children, avail, n1);
      var x :- BinaryExpression(op, l'.expr, r'.expr);
      Ok((Planned(UNNAMED_COLUMN, x), n2))
    case ConstantExpr(v) => Ok((Planned(UNNAMED_COLUMN, Constant(v)), next))
    case Alias(alias, child) =>
      var (c, n) :- PlanExpr(child, children, avail, next);
      Ok((Planned(alias, c.expr), n))
    case Invalid => Throws
    case Unsupported => Throws
  }

  function PlanExprs(es: seq<BoundExpr>, children: seq<Schema>, avail: seq<Expr>,
                     next: nat): Result<(seq<Planned>, nat)> {
    if es == [] then Ok(([], next))
    else
      var (p, n1) :- PlanExpr(es[0], children, avail, next);
      var (ps, n2) :- PlanExprs(es[1..], children, avail, n1);
      Ok(([p] + ps, n2))
  }

  function Exprs(ps: seq<Planned>): (r: seq<Expr>)
    ensures |r| == |ps| && forall i :: 0 <= i < |ps| ==> r[i] == ps[i].expr
  {
    if ps == [] then [] else [ps[0].expr] + Exprs(ps[1..])
  }

  function NamesOf(ps: seq<Planned>): (r: seq<string>)
    ensures |r| == |ps| && forall i :: 0 <= i < |ps| ==> r[i] == ps[i].name
  {
    if ps == [] then [] else [ps[0].name] + NamesOf(ps[1..])
  }

  // ----- the calls of an expression -----

  /** The aggregate calls, from left to right; the arguments of a call are not looked into. */
  function Calls(e: BoundExpr): seq<BoundExpr> {
    match e
    case AggCall(_, _, _) => [e]
    case BinaryOp(_, l, r) => Calls(l) + Calls(r)
    case Alias(_, c) => Calls(c)
    case _ => []
  }

  function AllCalls(es: seq<BoundExpr>): seq<BoundExpr> {
    if es == [] then [] else Calls(es[0]) + AllCalls(es[1..])
  }

  /** Expressions the collecting traversal accepts. */
  predicate Supported(e: BoundExpr) {
    match e
    case BinaryOp(_, l, r) => Supported(l) && Supported(r)
    case Alias(_, c) => Supported(c)
    case Invalid => false
    case Unsupported => false
    case _ => true
  }

  function PseudoName(k: nat): string {
    "__pseudo_agg#" + Decimal(k)
  }

  /** What the collecting traversal leaves behind: the calls become calls of pseudo functions. */
  function Pseudo(e: BoundExpr, k: nat): BoundExpr {
    match e
    case AggCall(_, distinct, _) => AggCall(PseudoName(k), distinct, [])
    case BinaryOp(op, l, r) => BinaryOp(op, Pseudo(l, k), Pseudo(r, k + |Calls(l)|))
    case Alias(alias, c) => Alias(alias, Pseudo(c, k))
    case _ => e
  }

  function AllPseudo(es: seq<BoundExpr>, k: nat): (r: seq<BoundExpr>)
    ensures |r| == |es|
  {
    if es == [] then [] else [Pseudo(es[0], k)] + AllPseudo(es[1..], k + |Calls(es[0])|)
  }

  /** The kind and the inputs of a call.  No calls are available for its arguments. */
  function PlanAggCall(call: BoundExpr, child: Schema): Result<(AggregationType, seq<Expr>)>
    requires call.AggCall?
  {
    if call.distinct then Throws
    else
      var (args, _) :- PlanExprs(call.args, [child], [], 0);
      AggregateCall(call.func, Exprs(args))
  }

  /** A planned call: its kind and its only input, the constant 1 if it has none. */
  function PlanCall(call: BoundExpr, child: Schema): Result<(AggregationType, Expr)>
    requires call.AggCall?
  {
    var (ty, inputs) :- PlanAggCall(call, child);
    if |inputs| > 1 then Throws
    else if inputs == [] then Ok((ty, Constant(Int(1))))
    else Ok((ty, inputs[0]))
  }

  ghost predicate AreCalls(calls: seq<BoundExpr>) {
    forall i :: 0 <= i < |calls| ==> calls[i].AggCall?
  }

  function PlanCalls(calls: seq<BoundExpr>, child: Schema): Result<seq<(AggregationType, Expr)>>
    requires AreCalls(calls)
  {
    if calls == [] then Ok([])
    else
      var c :- PlanCall(calls[0], child);
      var cs :- PlanCalls(calls[1..], child);
      Ok([c] + cs)
  }

  lemma {:induction false} CallsAreCalls(e: BoundExpr)
    ensures AreCalls(Calls(e))
  {
    match e
    case BinaryOp(_, l, r) => CallsAreCalls(l); CallsAreCalls(r);
    case Alias(_, c) => CallsAreCalls(c);
    case _ =>
  }

  lemma {:induction false} AllCallsAreCalls(es: seq<BoundExpr>)
    ensures AreCalls(AllCalls(es))
  {
    if es != [] {
      CallsAreCalls(es[0]);
      AllCallsAreCalls(es[1..]);
    }
  }

  // ----- schemas -----

  function InferProjectionSchema(exprs: seq<Expr>): (r: Schema)
    ensures |r| == |exprs|
  {
    if exprs == [] then [] else [Column(UNNAMED_COLUMN, ReturnType(exprs[0]))] + InferProjectionSchema(exprs[1..])
  }

  function IntegerColumns(n: nat): (r: Schema)
    ensures |r| == n
  {
    if n == 0 then [] else [Column(UNNAMED_COLUMN, INTEGER)] + IntegerColumns(n - 1)
  }

  function InferAggSchema(groupBys: seq<Expr>, count: nat): (r: Schema)
    ensures |r| == |groupBys| + count
  {
    InferProjectionSchema(groupBys) + IntegerColumns(count)
  }

  function Renamed(schema: Schema, names: seq<string>): (r: Schema)
    requires |names| == |schema|
    ensures |r| == |schema| && forall i :: 0 <= i < |r| ==> r[i] == Column(names[i], schema[i].ty)
  {
    if schema == [] then [] else [Column(names[0], schema[0].ty)] + Renamed(schema[1..], names[1..])
  }

  function RenameSchema(schema: Schema, names: seq<string>): Result<Schema> {
    if |names| != |schema| then Throws else Ok(Renamed(schema, names))
  }

  // ----- the aggregation of a select statement -----

  /** The columns of the calls in the output of the aggregation, behind the group-bys. */
  function CallColumns(begin: nat, from: nat, count: nat): (r: seq<Expr>)
    ensures |r| == count && forall i :: 0 <= i < count ==> r[i] == ColumnValue(0, begin + from + i, INTEGER)
    decreases count
  {
    if count == 0 then [] else [ColumnValue(0, begin + from, INTEGER)] + CallColumns(begin, from + 1, count - 1)
  }

  function CallNames(from: nat, count: nat): (r: seq<string>)
    ensures |r| == count
    decreases count
  {
    if count == 0 then [] else ["agg#" + Decimal(from)] + CallNames(from + 1, count - 1)
  }

  function Kinds(cs: seq<(AggregationType, Expr)>): (r: seq<AggregationType>)
    ensures |r| == |cs| && forall i :: 0 <= i < |cs| ==> r[i] == cs[i].0
  {
    if cs == [] then [] else [cs[0].0] + Kinds(cs[1..])
  }

  function Inputs(cs: seq<(AggregationType, Expr)>): (r: seq<Expr>)
    ensures |r| == |cs| && forall i :: 0 <= i < |cs| ==> r[i] == cs[i].1
  {
    if cs == [] then [] else [cs[0].1] + Inputs(cs[1..])
  }

  datatype Grouping = Grouping(groupBy: seq<BoundExpr>, having: BoundExpr, selectList: seq<BoundExpr>)

  /** The calls in the order in which they are collected: HAVING first. */
  function GroupingCalls(g: Grouping): seq<BoundExpr> {
    (if g.having.Invalid? then [] else Calls(g.having)) + AllCalls(g.selectList)
  }

  predicate GroupingSupported(g: Grouping) {
    (g.having.Invalid? || Supported(g.having)) && (forall i :: 0 <= i < |g.selectList| ==> Supported(g.selectList[i]))
  }

  lemma GroupingCallsAreCalls(g: Grouping)
    ensures AreCalls(GroupingCalls(g))
  {
    CallsAreCalls(g.having);
    AllCallsAreCalls(g.selectList);
  }

  /** Phase one: the aggregation node over `child`. */
  function PlanAggregation(g: Grouping, child: Plan): Result<Plan> {
    var (groups, _) :- PlanExprs(g.groupBy, [child.schema], [], 0);
    if !GroupingSupported(g) then Throws
    else
      GroupingCallsAreCalls(g);
      var calls := GroupingCalls(g);
      var planned :- PlanCalls(calls, child.schema);
      var names := NamesOf(groups) + CallNames(0, |planned|);
      var schema :- RenameSchema(InferAggSchema(Exprs(groups), |planned|), names);
      Ok(Aggregation(schema, Exprs(groups), Inputs(planned), Kinds(planned), child))
  }

  /** Phase two: HAVING and the select list over the aggregation. */
  function PlanOverAggregation(g: Grouping, agg: Plan): Result<Plan>
    requires agg.Aggregation?
  {
    var avail := CallColumns(|agg.groupBys|, 0, |agg.aggregates|);
    var (plan, next) :-
      if g.having.Invalid? then Ok((agg, 0))
      else
        (var (h, n) :- PlanExpr(g.having, [agg.schema], avail, 0);
         Ok((Filter(agg.schema, h.expr, agg), n)));
    var (items, _) :- PlanExprs(g.selectList, [plan.schema], avail, next);
    var schema :- RenameSchema(InferProjectionSchema(Exprs(items)), NamesOf(items));
    Ok(Projection(schema, Exprs(items), plan))
  }

  function PlanGrouping(g: Grouping, child: Plan): Result<Plan> {
    var agg :- PlanAggregation(g, child);
    PlanOverAggregation(g, agg)
  }

  /** The statement after it was planned. */
  function AfterPlanning(g: Grouping): Grouping {
    var k := if g.having.Invalid? then 0 else |Calls(g.having)|;
    Grouping(g.groupBy, if g.having.Invalid? then g.having else Pseudo(g.having, 0), AllPseudo(g.selectList, k))
  }

  // ----- when planning succeeds -----

  /** Everything but the calls can be planned. */
  predicate Plannable(e: BoundExpr, children: seq<Schema>) {
    match e
    case AggCall(_, _, _) => true
    case ColumnRef(path) => PlanColumnRef(Rendered(path), children).Ok?
    case BinaryOp(op, l, r) => Plannable(l, children) && Plannable(r, children) && KnownOp(op)
    case ConstantExpr(_) => true
    case Alias(_, c) => Plannable(c, children)
    case Invalid => false
    case Unsupported => false
  }

  predicate KnownOp(op: string) {
    op in ["=", "==", "!=", "<>", "<", "<=", ">", ">=", "+", "-", "and", "or"]
  }

  predicate AllPlannable(es: seq<BoundExpr>, children: seq<Schema>) {
    forall i :: 0 <= i < |es| ==> Plannable(es[i], children)
  }

  lemma KnownOpIff(op: string, l: Expr, r: Expr)
    ensures BinaryExpression(op, l, r).Ok? <==> KnownOp(op)
  {
  }

  /** Planning takes exactly the calls of the expression, and fails for want of calls only when there are too few. */
  lemma {:induction false} PlanExprIff(e: BoundExpr, children: seq<Schema>, avail: seq<Expr>, next: nat)
    requires next <= |avail|
    ensures PlanExpr(e, children, avail, next).Ok? <==> Plannable(e, children) && next + |Calls(e)| <= |avail|
    ensures PlanExpr(e, children, avail, next).Ok? ==> PlanExpr(e, children, avail, next).value.1 == next + |Calls(e)|
  {
    match e
    case BinaryOp(op, l, r) =>
      PlanExprIff(l, children, avail, next);
      if PlanExpr(l, children, avail, next).Ok? {
        var (l', n1) := PlanExpr(l, children, avail, next).value;
        PlanExprIff(r, children, avail, n1);
        if PlanExpr(r, children, avail, n1).Ok? {
          KnownOpIff(op, l'.expr, PlanExpr(r, children, avail, n1).value.0.expr);
        }
      }
    case Alias(_, c) => PlanExprIff(c, children, avail, next);
    case _ =>
  }

  lemma {:induction false} PlanExprsIff(es: seq<BoundExpr>, children: seq<Schema>, avail: seq<Expr>, next: nat)
    requires next <= |avail|
    ensures PlanExprs(es, children, avail, next).Ok? <==> AllPlannable(es, children) && next + |AllCalls(es)| <= |avail|
    ensures PlanExprs(es, children, avail, next).Ok? ==>
              && PlanExprs(es, children, avail, next).value.1 == next + |AllCalls(es)|
              && |PlanExprs(es, children, avail, next).value.0| == |es|
  {
    if es != [] {
      PlanExprIff(es[0], children, avail, next);
      assert AllPlannable(es, children) <==> Plannable(es[0], children) && AllPlannable(es[1..], children);
      if PlanExpr(es[0], children, avail, next).Ok? {
        PlanExprsIff(es[1..], children, avail, next + |Calls(es[0])|);
      }
    }
  }

  lemma {:induction false} PlanCallsIff(calls: seq<BoundExpr>, child: Schema)
    requires AreCalls(calls)
    ensures PlanCalls(calls, child).Ok? <==> forall i :: 0 <= i < |calls| ==> PlanCall(calls[i], child).Ok?
    ensures PlanCalls(calls, child).Ok? ==>
              && |PlanCalls(calls, child).value| == |calls|
              && forall i :: 0 <= i < |calls| ==> PlanCall(calls[i], child) == Ok(PlanCalls(calls, child).value[i])
  {
    hide PlanCall;
    if calls != [] {
      PlanCallsIff(calls[1..], child);
      assert forall i :: 1 <= i < |calls| ==> calls[i] == calls[1..][i - 1];
      assert forall i :: 0 <= i < |calls[1..]| ==> calls[1..][i] == calls[i + 1];
    }
  }

  /**
   The aggregation can be planned exactly when the group-bys have no calls and every call can be planned by itself.
   */
  lemma PlanAggregationIff(g: Grouping, child: Plan)
    ensures PlanAggregation(g, child).Ok? <==>
              && AllPlannable(g.groupBy, [child.schema]) && AllCalls(g.groupBy) == []
              && GroupingSupported(g)
              && (forall i :: 0 <= i < |GroupingCalls(g)| ==>
                  GroupingCalls(g)[i].AggCall? && PlanCall(GroupingCalls(g)[i], child.schema).Ok?)
    ensures PlanAggregation(g, child).Ok? ==>
              var agg := PlanAggregation(g, child).value;
              && agg.Aggregation? && |agg.groupBys| == |g.groupBy|
              && |agg.aggregates| == |agg.aggTypes| == |GroupingCalls(g)|
              && |agg.schema| == |agg.groupBys| + |agg.aggregates| && agg.child == child
              && (forall i :: 0 <= i < |GroupingCalls(g)| ==>
                    GroupingCalls(g)[i].AggCall? && PlanCall(GroupingCalls(g)[i], child.schema) ==
                      Ok((agg.aggTypes[i], agg.aggregates[i])))
  {
    PlanExprsIff(g.groupBy, [child.schema], [], 0);
    GroupingCallsAreCalls(g);
    PlanCallsIff(GroupingCalls(g), child.schema);
    hide PlanCall, PlanCalls, PlanExpr, PlanExprs, Plannable, AllPlannable, GroupingCalls, GroupingSupported, AllCalls;
  }

  /** The second phase, spelt out. */
  lemma OverAggregation(g: Grouping, agg: Plan)
    requires agg.Aggregation?
    ensures var avail := CallColumns(|agg.groupBys|, 0, |agg.aggregates|);
            var h := PlanExpr(g.having, [agg.schema], avail, 0);
            var items := PlanExprs(g.selectList, [agg.schema], avail, if h.Ok? then h.value.1 else 0);
            && (PlanOverAggregation(g, agg).Ok? <==> (g.having.Invalid? || h.Ok?) && items.Ok?)
            && (PlanOverAggregation(g, agg).Ok? ==>
                  var p := PlanOverAggregation(g, agg).value;
                  p.Projection? && p.expressions == Exprs(items.value.0) && |p.schema| == |p.expressions|
                  && p.child == if g.having.Invalid? then agg else Filter(agg.schema, h.value.0.expr, agg))
  {
    assert g.having.Invalid? ==>
           PlanExpr(g.having, [agg.schema], CallColumns(|agg.groupBys|, 0, |agg.aggregates|), 0) == Throws;
    hide PlanExpr, PlanExprs;
  }

  /**
   Planning succeeds exactly when the aggregation can be planned and everything but the calls can be
   planned over it: the second phase never runs out of calls.
   */
  lemma PlanGroupingIff(g: Grouping, child: Plan)
    ensures PlanGrouping(g, child).Ok? <==>
              && PlanAggregation(g, child).Ok?
              && var schema := PlanAggregation(g, child).value.schema;
                 (g.having.Invalid? || Plannable(g.having, [schema])) && AllPlannable(g.selectList, [schema])
  {
    PlanAggregationIff(g, child);
    if PlanAggregation(g, child).Ok? {
      var agg := PlanAggregation(g, child).value;
      var avail := CallColumns(|agg.groupBys|, 0, |agg.aggregates|);
      var used := if g.having.Invalid? then 0 else |Calls(g.having)|;
      PlanExprIff(g.having, [agg.schema], avail, 0);
      PlanExprsIff(g.selectList, [agg.schema], avail, used);
      OverAggregation(g, agg);
      hide PlanAggregation, PlanOverAggregation, PlanCall, PlanExpr, PlanExprs, Plannable, AllPlannable,
           GroupingSupported;
      assert |GroupingCalls(g)| == used + |AllCalls(g.selectList)|;
    }
  }

  /** An aggregate call in GROUP BY is an error. */
  lemma GroupByCallThrows(g: Grouping, child: Plan)
    requires AllCalls(g.groupBy) != []
    ensures PlanGrouping(g, child) == Throws
  {
    PlanAggregationIff(g, child);
  }

  /** An aggregate call inside an argument of another one is an error. */
  lemma NestedCallThrows(g: Grouping, child: Plan, i: nat)
    requires i < |GroupingCalls(g)| && GroupingCalls(g)[i].AggCall? && AllCalls(GroupingCalls(g)[i].args) != []
    ensures PlanGrouping(g, child) == Throws
  {
    PlanAggregationIff(g, child);
    PlanExprsIff(GroupingCalls(g)[i].args, [child.schema], [], 0);
  }

  // ----- what planned expressions mean -----

  ghost function Apply(op: string, v: Value, w: Value): Value {
    if op == "=" || op == "==" then BooleanValue(Compare(Equal, v, w))
    else if op == "!=" || op == "<>" then BooleanValue(Compare(NotEqual, v, w))
    else if op == "<" then BooleanValue(Compare(LessThan, v, w))
    else if op == "<=" then BooleanValue(Compare(LessThanOrEqual, v, w))
    else if op == ">" then BooleanValue(Compare(GreaterThan, v, w))
    else if op == ">=" then BooleanValue(Compare(GreaterThanOrEqual, v, w))
    else if op == "+" then Compute(Plus, v, w)
    else if op == "-" then Compute(Minus, v, w)
    else if op == "and" then BooleanValue(Combine(And, AsCmpBool(v), AsCmpBool(w)))
    else if op == "or" then BooleanValue(Combine(Or, AsCmpBool(v), AsCmpBool(w)))
    else Null(INVALID)
  }

  /** The value of a bound expression, given the values of columns by name and of aggregate calls. */
  ghost function Meaning(e: BoundExpr, columns: string -> Value, calls: BoundExpr -> Value): Value {
    match e
    case AggCall(_, _, _) => calls(e)
    case ColumnRef(path) => columns(Rendered(path))
    case BinaryOp(op, l, r) => Apply(op, Meaning(l, columns, calls), Meaning(r, columns, calls))
    case ConstantExpr(v) => v
    case Alias(_, c) => Meaning(c, columns, calls)
    case _ => Null(INVALID)
  }

  ghost function ColumnsOf(schema: Schema, row: Row): string -> Value {
    name => match Find(schema, name)
      case None => Null(INVALID)
      case Some(i) => At(row, i)
  }

  lemma ApplyFits(op: string, l: Expr, r: Expr, row: Row)
    requires BinaryExpression(op, l, r).Ok?
    ensures Eval(BinaryExpression(op, l, r).value, row) == Apply(op, Eval(l, row), Eval(r, row))
  {
    hide Compare, Combine, Compute, BooleanValue, AsCmpBool;
  }

  /** The columns from `next` on have the values of the calls `cs`. */
  ghost predicate Stand(avail: seq<Expr>, next: nat, cs: seq<BoundExpr>, row: Row, calls: BoundExpr -> Value) {
    next + |cs| <= |avail| && forall i :: 0 <= i < |cs| ==> Eval(avail[next + i], row) == calls(cs[i])
  }

  lemma StandSplit(avail: seq<Expr>, next: nat, a: seq<BoundExpr>, b: seq<BoundExpr>, row: Row,
                   calls: BoundExpr -> Value)
    requires Stand(avail, next, a + b, row, calls)
    ensures Stand(avail, next, a, row, calls) && Stand(avail, next + |a|, b, row, calls)
  {
    hide Eval;
    forall i | 0 <= i < |a| ensures Eval(avail[next + i], row) == calls(a[i]) {
      assert (a + b)[i] == a[i];
    }
    forall i | 0 <= i < |b| ensures Eval(avail[next + |a| + i], row) == calls(b[i]) {
      assert (a + b)[|a| + i] == b[i];
      assert next + (|a| + i) == next + |a| + i;
    }
  }

  /** A planned expression means what the bound one means, if the calls it takes have their values. */
  lemma {:induction false} PlanExprMeaning(e: BoundExpr, schema: Schema, avail: seq<Expr>, next: nat, row: Row,
                                           calls: BoundExpr -> Value)
    requires PlanExpr(e, [schema], avail, next).Ok? && Stand(avail, next, Calls(e), row, calls)
    ensures Eval(PlanExpr(e, [schema], avail, next).value.0.expr, row) == Meaning(e, ColumnsOf(schema, row), calls)
  {
    match e
    case AggCall(_, _, _) => assert Calls(e)[0] == e && avail[next + 0] == avail[next];
    case ColumnRef(_) =>
    case BinaryOp(op, l, r) =>
      PlanExprIff(l, [schema], avail, next);
      BinaryPlanned(op, l, r, [schema], avail, next);
      hide Eval, PlanExpr, BinaryExpression, Stand;
      var (l', n1) := PlanExpr(l, [schema], avail, next).value;
      var (r', n2) := PlanExpr(r, [schema], avail, n1).value;
      StandSplit(avail, next, Calls(l), Calls(r), row, calls);
      PlanExprMeaning(l, schema, avail, next, row, calls);
      PlanExprMeaning(r, schema, avail, n1, row, calls);
      ApplyFits(op, l'.expr, r'.expr, row);
    case ConstantExpr(_) =>
    case Alias(_, c) => PlanExprMeaning(c, schema, avail, next, row, calls);
  }

  lemma BinaryPlanned(op: string, l: BoundExpr, r: BoundExpr, children: seq<Schema>, avail: seq<Expr>, next: nat)
    requires PlanExpr(BinaryOp(op, l, r), children, avail, next).Ok?
    ensures PlanExpr(l, children, avail, next).Ok?
    ensures PlanExpr(r, children, avail, PlanExpr(l, children, avail, next).value.1).Ok?
    ensures var (l', n1) := PlanExpr(l, children, avail, next).value;
            var (r', n2) := PlanExpr(r, children, avail, n1).value;
            && BinaryExpression(op, l'.expr, r'.expr).Ok?
            && PlanExpr(BinaryOp(op, l, r), children, avail, next).value.0.expr ==
               BinaryExpression(op, l'.expr, r'.expr).value
  {
  }

  lemma {:induction false} PlanExprsMeaning(es: seq<BoundExpr>, schema: Schema, avail: seq<Expr>, next: nat, row: Row,
                                            calls: BoundExpr -> Value)
    requires PlanExprs(es, [schema], avail, next).Ok? && Stand(avail, next, AllCalls(es), row, calls)
    ensures |PlanExprs(es, [schema], avail, next).value.0| == |es|
    ensures forall j :: 0 <= j < |es| ==>
              Eval(PlanExprs(es, [schema], avail, next).value.0[j].expr, row) ==
                Meaning(es[j], ColumnsOf(schema, row), calls)
  {
    hide Eval, PlanExpr, Meaning, Stand;
    if es != [] {
      var (p, n1) := PlanExpr(es[0], [schema], avail, next).value;
      StandSplit(avail, next, Calls(es[0]), AllCalls(es[1..]), row, calls);
      assert Stand(avail, next, Calls(es[0]), row, calls) && next <= |avail| by {
        StandRange(avail, next, Calls(es[0]), row, calls);
      }
      PlanExprIff(es[0], [schema], avail, next);
      PlanExprMeaning(es[0], schema, avail, next, row, calls);
      PlanExprsMeaning(es[1..], schema, avail, n1, row, calls);
      var rest := PlanExprs(es[1..], [schema], avail, n1).value.0;
      assert PlanExprs(es, [schema], avail, next).value.0 == [p] + rest;
      assert forall j :: 1 <= j < |es| ==> es[j] == es[1..][j - 1] && ([p] + rest)[j] == rest[j - 1];
    }
  }

  lemma StandRange(avail: seq<Expr>, next: nat, cs: seq<BoundExpr>, row: Row, calls: BoundExpr -> Value)
    requires Stand(avail, next, cs, row, calls)
    ensures next + |cs| <= |avail|
  {
  }

  // ----- the theorem -----

  /** The value a call is to have in a group: that of its own kind of aggregate over its own argument. */
  ghost function OwnValue(child: Schema, aggregate: (AggregationType, Expr) -> Value): BoundExpr -> Value {
    (call: BoundExpr) =>
      if call.AggCall? && PlanCall(call, child).Ok?
      then aggregate(PlanCall(call, child).value.0, PlanCall(call, child).value.1)
      else Null(INVALID)
  }

  /** A row an aggregation node puts out for a group in which `aggregate` are the aggregates. */
  ghost predicate AggregateRow(row: Row, agg: Plan, aggregate: (AggregationType, Expr) -> Value)
    requires agg.Aggregation?
  {
    && |agg.aggregates| == |agg.aggTypes| && |row| == |agg.groupBys| + |agg.aggregates|
    && forall i :: 0 <= i < |agg.aggregates| ==>
       row[|agg.groupBys| + i] == aggregate(agg.aggTypes[i], agg.aggregates[i])
  }

  lemma CallColumnsAligned(g: Grouping, child: Plan, row: Row, aggregate: (AggregationType, Expr) -> Value)
    requires PlanAggregation(g, child).Ok? && PlanAggregation(g, child).value.Aggregation?
    requires AggregateRow(row, PlanAggregation(g, child).value, aggregate)
    ensures var agg := PlanAggregation(g, child).value;
            Stand(CallColumns(|agg.groupBys|, 0, |agg.aggregates|), 0, GroupingCalls(g), row,
                  OwnValue(child.schema, aggregate))
  {
    PlanAggregationIff(g, child);
    hide PlanAggregation, PlanCall;
  }

  /** HAVING takes its calls first, and the select list takes the rest. */
  lemma StandInTurn(g: Grouping, avail: seq<Expr>, row: Row, own: BoundExpr -> Value)
    requires Stand(avail, 0, GroupingCalls(g), row, own)
    ensures !g.having.Invalid? ==> Stand(avail, 0, Calls(g.having), row, own)
    ensures Stand(avail, if g.having.Invalid? then 0 else |Calls(g.having)|, AllCalls(g.selectList), row, own)
    ensures |GroupingCalls(g)| <= |avail|
  {
    StandRange(avail, 0, GroupingCalls(g), row, own);
    hide Stand, Calls, AllCalls;
    StandSplit(avail, 0, if g.having.Invalid? then [] else Calls(g.having), AllCalls(g.selectList), row, own);
  }

  lemma HavingAligned(g: Grouping, agg: Plan, row: Row, own: BoundExpr -> Value)
    requires agg.Aggregation? && PlanOverAggregation(g, agg).Ok? && !g.having.Invalid?
    requires Stand(CallColumns(|agg.groupBys|, 0, |agg.aggregates|), 0, GroupingCalls(g), row, own)
    ensures var p := PlanOverAggregation(g, agg).value;
            p.Projection? && p.child.Filter? && p.child.child == agg
            && Eval(p.child.pred, row) == Meaning(g.having, ColumnsOf(agg.schema, row), own)
  {
    var avail := CallColumns(|agg.groupBys|, 0, |agg.aggregates|);
    OverAggregation(g, agg);
    hide PlanOverAggregation, Eval, Meaning, PlanExpr, PlanExprs, GroupingCalls, Stand, ColumnsOf, CallColumns;
    StandInTurn(g, avail, row, own);
    PlanExprMeaning(g.having, agg.schema, avail, 0, row, own);
  }

  lemma SelectListAligned(g: Grouping, agg: Plan, row: Row, own: BoundExpr -> Value)
    requires agg.Aggregation? && PlanOverAggregation(g, agg).Ok?
    requires Stand(CallColumns(|agg.groupBys|, 0, |agg.aggregates|), 0, GroupingCalls(g), row, own)
    ensures var p := PlanOverAggregation(g, agg).value;
            p.Projection? && |p.expressions| == |g.selectList| && (g.having.Invalid? ==> p.child == agg)
            && forall j :: 0 <= j < |g.selectList| ==>
               Eval(p.expressions[j], row) == Meaning(g.selectList[j], ColumnsOf(agg.schema, row), own)
  {
    var avail := CallColumns(|agg.groupBys|, 0, |agg.aggregates|);
    var used := if g.having.Invalid? then 0 else |Calls(g.having)|;
    OverAggregation(g, agg);
    PlanExprIff(g.having, [agg.schema], avail, 0);
    hide PlanOverAggregation, Eval, Meaning, PlanExpr, PlanExprs, GroupingCalls, Stand, ColumnsOf, CallColumns, Calls,
         AllCalls, Plannable;
    StandInTurn(g, avail, row, own);
    PlanExprsMeaning(g.selectList, agg.schema, avail, used, row, own);
  }

  // ----- what calls mean -----

  /** The names of aggregates, and how many arguments they take. */
  ghost predicate IsAggregate(func: string, count: nat) {
    (func == "count_star" && count == 0) || (func in ["min", "max", "sum", "count"] && count == 1)
  }

  /** There are aggregates of exactly these names, and each is of the kind of its name. */
  lemma AggregateCallIff(func: string, args: seq<Expr>)
    ensures AggregateCall(func, args).Ok? <==> IsAggregate(func, |args|)
    ensures AggregateCall(func, args).Ok? ==>
              IsKind(func, AggregateCall(func, args).value.0) && AggregateCall(func, args).value.1 == args
  {
  }

  /** For expressions without calls. */
  ghost function NoCalls(): BoundExpr -> Value {
    call => Null(INVALID)
  }

  /** The values of an expression on the rows of a group. */
  ghost function Each(e: Expr, group: seq<Row>): (r: seq<Value>)
    ensures |r| == |group| && forall i :: 0 <= i < |r| ==> r[i] == Eval(e, group[i])
  {
    if group == [] then [] else Each(e, group[..|group| - 1]) + [Eval(e, group[|group| - 1])]
  }

  /** The values of the argument of a call, as written, on the rows of a group. */
  ghost function ArgumentValues(call: BoundExpr, schema: Schema, group: seq<Row>): (r: seq<Value>)
    requires call.AggCall?
    ensures |call.args| == 1 ==> |r| == |group| && forall i :: 0 <= i < |r| ==>
              r[i] == Meaning(call.args[0], ColumnsOf(schema, group[i]), NoCalls())
  {
    if |call.args| != 1 || group == [] then []
    else ArgumentValues(call, schema, group[..|group| - 1])
         + [Meaning(call.args[0], ColumnsOf(schema, group[|group| - 1]), NoCalls())]
  }

  /** Each of the calls has the value it has in the group, by its name and its argument as written. */
  ghost predicate CallsMean(cs: seq<BoundExpr>, schema: Schema, group: seq<Row>, calls: BoundExpr -> Value) {
    forall i :: 0 <= i < |cs| ==>
      && cs[i].AggCall?
      && IsCallValue(cs[i].func, ArgumentValues(cs[i], schema, group), |group|, calls(cs[i]))
  }

  /** The aggregates of a group. */
  ghost function AggregateOver(group: seq<Row>): (AggregationType, Expr) -> Value {
    (kind: AggregationType, e: Expr) => AggregateValue(kind, Each(e, group))
  }

  lemma PlannedCall(call: BoundExpr, schema: Schema, group: seq<Row>)
    requires call.AggCall? && PlanCall(call, schema).Ok?
    ensures var (kind, e) := PlanCall(call, schema).value;
            IsCallValue(call.func, ArgumentValues(call, schema, group), |group|, AggregateValue(kind, Each(e, group)))
  {
    var (args, _) := PlanExprs(call.args, [schema], [], 0).value;
    PlanExprsIff(call.args, [schema], [], 0);
    AggregateCallIff(call.func, Exprs(args));
    var (kind, e) := PlanCall(call, schema).value;
    KindMeansName(call.func, kind, Each(e, group));
    if |call.args| == 1 {
      forall i | 0 <= i < |group|
        ensures Each(e, group)[i] == Meaning(call.args[0], ColumnsOf(schema, group[i]), NoCalls())
      {
        PlanExprsMeaning(call.args, schema, [], 0, group[i], NoCalls());
      }
      hide *;
      assert Each(e, group) == ArgumentValues(call, schema, group);
    } else {
      CountingRows(call.func, Each(e, group), ArgumentValues(call, schema, group),
                   AggregateValue(kind, Each(e, group)));
    }
  }

  lemma CountingRows(func: string, vs: seq<Value>, ws: seq<Value>, v: Value)
    requires func == "count_star" && IsCallValue(func, vs, |vs|, v)
    ensures IsCallValue(func, ws, |vs|, v)
  {
  }

  /** What is planned for the calls of a group is what they mean. */
  lemma CallsStand(cs: seq<BoundExpr>, schema: Schema, group: seq<Row>, calls: BoundExpr -> Value, i: nat)
    requires i < |cs| && CallsMean(cs, schema, group, calls) && cs[i].AggCall? && PlanCall(cs[i], schema).Ok?
    ensures OwnValue(schema, AggregateOver(group))(cs[i]) == calls(cs[i])
  {
    PlannedCall(cs[i], schema, group);
    var (kind, e) := PlanCall(cs[i], schema).value;
    hide PlanCall, IsCallValue, AggregateValue, Each, ArgumentValues;
    OneCallValue(cs[i].func, ArgumentValues(cs[i], schema, group), |group|, AggregateValue(kind, Each(e, group)),
                 calls(cs[i]));
  }

  /**
   Two-phase planning is aligned: over the row of every group, the filter and the select list have the values of HAVING
   and of the items as they were written, each call standing for its value in the group by its name and argument.
   */
  lemma AggregationAligned(g: Grouping, child: Plan, group: seq<Row>, row: Row, calls: BoundExpr -> Value)
    requires PlanGrouping(g, child).Ok? && PlanAggregation(g, child).value.Aggregation?
    requires AggregateRow(row, PlanAggregation(g, child).value, AggregateOver(group))
    requires CallsMean(GroupingCalls(g), child.schema, group, calls)
    ensures var agg, p := PlanAggregation(g, child).value, PlanGrouping(g, child).value;
            && p.Projection? && |p.expressions| == |g.selectList|
            && (if g.having.Invalid? then p.child == agg
                else p.child.Filter? && p.child.child == agg
                     && Eval(p.child.pred, row) == Meaning(g.having, ColumnsOf(agg.schema, row), calls))
            && forall j :: 0 <= j < |g.selectList| ==>
                 Eval(p.expressions[j], row) == Meaning(g.selectList[j], ColumnsOf(agg.schema, row), calls)
  {
    CallColumnsAligned(g, child, row, AggregateOver(group));
    PlanAggregationIff(g, child);
    var agg := PlanAggregation(g, child).value;
    hide PlanAggregation, PlanOverAggregation, Eval, Meaning, OwnValue, GroupingCalls, AggregateRow, ColumnsOf, Stand,
         AggregateOver, CallsMean, PlanCall, GroupingSupported, AllPlannable, CallColumns;
    StandsAsMeant(g, child.schema, CallColumns(|agg.groupBys|, 0, |agg.aggregates|), row, group, calls);
    if !g.having.Invalid? { HavingAligned(g, agg, row, calls); }
    SelectListAligned(g, agg, row, calls);
  }

  lemma StandsAsMeant(g: Grouping, schema: Schema, avail: seq<Expr>, row: Row, group: seq<Row>,
                      calls: BoundExpr -> Value)
    requires Stand(avail, 0, GroupingCalls(g), row, OwnValue(schema, AggregateOver(group)))
    requires CallsMean(GroupingCalls(g), schema, group, calls)
    requires forall i :: 0 <= i < |GroupingCalls(g)| ==>
               GroupingCalls(g)[i].AggCall? && PlanCall(GroupingCalls(g)[i], schema).Ok?
    ensures Stand(avail, 0, GroupingCalls(g), row, calls)
  {
    hide OwnValue, GroupingCalls, AggregateOver, CallsMean, PlanCall, Eval;
    forall i | 0 <= i < |GroupingCalls(g)| ensures Eval(avail[0 + i], row) == calls(GroupingCalls(g)[i]) {
      CallsStand(GroupingCalls(g), schema, group, calls, i);
    }
  }

  /** The group-bys mean on rows of the child what they mean as written; the columns of a group carry their names. */
  lemma GroupByMeaning(g: Grouping, child: Plan, row: Row, calls: BoundExpr -> Value, k: nat)
    requires PlanAggregation(g, child).Ok? && PlanAggregation(g, child).value.Aggregation? && k < |g.groupBy|
    ensures var agg := PlanAggregation(g, child).value;
            && |agg.groupBys| == |g.groupBy| <= |agg.schema|
            && Eval(agg.groupBys[k], row) == Meaning(g.groupBy[k], ColumnsOf(child.schema, row), calls)
            && (g.groupBy[k].ColumnRef? ==> agg.schema[k].name == Rendered(g.groupBy[k].path))
  {
    PlanExprsIff(g.groupBy, [child.schema], [], 0);
    hide PlanCall, PlanCalls, PlanExpr, PlanExprs, GroupingCalls, GroupingSupported, Eval, Meaning, ColumnsOf;
    PlanExprsMeaning(g.groupBy, child.schema, [], 0, row, calls);
    PlannedNames(g.groupBy, [child.schema], [], 0);
  }

  /** The name an expression was given where it was written. */
  ghost function WrittenName(e: BoundExpr): string {
    match e
    case ColumnRef(path) => Rendered(path)
    case Alias(alias, _) => alias
    case _ => UNNAMED_COLUMN
  }

  lemma {:induction false} PlannedNames(es: seq<BoundExpr>, children: seq<Schema>, avail: seq<Expr>, next: nat)
    requires PlanExprs(es, children, avail, next).Ok?
    ensures |PlanExprs(es, children, avail, next).value.0| == |es|
    ensures forall j :: 0 <= j < |es| ==> PlanExprs(es, children, avail, next).value.0[j].name == WrittenName(es[j])
  {
    if es != [] {
      var (p, n1) := PlanExpr(es[0], children, avail, next).value;
      PlannedNames(es[1..], children, avail, n1);
    }
  }

  // ----- planning again -----

  /** Calls of the pseudo functions numbered from `k`. */
  ghost predicate ArePseudo(calls: seq<BoundExpr>, k: nat) {
    forall i :: 0 <= i < |calls| ==> calls[i].AggCall? && calls[i].func == PseudoName(k + i) && calls[i].args == []
  }

  lemma PseudoConcat(a: seq<BoundExpr>, b: seq<BoundExpr>, k: nat)
    requires ArePseudo(a, k) && ArePseudo(b, k + |a|)
    ensures ArePseudo(a + b, k)
  {
    hide PseudoName;
    forall i | |a| <= i < |a| + |b|
      ensures (a + b)[i].AggCall? && (a + b)[i].func == PseudoName(k + i) && (a + b)[i].args == [] {
      assert (a + b)[i] == b[i - |a|] && k + |a| + (i - |a|) == k + i;
    }
  }

  lemma {:induction false} PseudoCalls(e: BoundExpr, k: nat)
    ensures |Calls(Pseudo(e, k))| == |Calls(e)| && ArePseudo(Calls(Pseudo(e, k)), k)
    ensures Calls(e) == [] ==> Pseudo(e, k) == e
  {
    hide PseudoName, ArePseudo;
    match e
    case AggCall(_, distinct, _) => OnePseudo(distinct, k);
    case BinaryOp(_, l, r) =>
      PseudoCalls(l, k);
      PseudoCalls(r, k + |Calls(l)|);
      PseudoConcat(Calls(Pseudo(l, k)), Calls(Pseudo(r, k + |Calls(l)|)), k);
    case Alias(_, c) => PseudoCalls(c, k);
    case _ => NoPseudo(k);
  }

  lemma OnePseudo(distinct: bool, k: nat)
    ensures ArePseudo([AggCall(PseudoName(k), distinct, [])], k)
  {
    hide PseudoName;
    assert k + 0 == k;
  }

  lemma PseudoHead(calls: seq<BoundExpr>)
    requires ArePseudo(calls, 0) && calls != []
    ensures calls[0].AggCall? && calls[0].func == PseudoName(0) && calls[0].args == []
  {
  }

  lemma NoPseudo(k: nat)
    ensures ArePseudo([], k)
  {
  }

  lemma {:induction false} AllPseudoCalls(es: seq<BoundExpr>, k: nat)
    ensures |AllCalls(AllPseudo(es, k))| == |AllCalls(es)| && ArePseudo(AllCalls(AllPseudo(es, k)), k)
    ensures AllCalls(es) == [] ==> AllPseudo(es, k) == es
  {
    NoPseudo(k);
    hide PseudoName, ArePseudo, Pseudo, Calls;
    if es != [] {
      PseudoCalls(es[0], k);
      AllPseudoCalls(es[1..], k + |Calls(es[0])|);
      var first, rest := Pseudo(es[0], k), AllPseudo(es[1..], k + |Calls(es[0])|);
      assert ([first] + rest)[1..] == rest;
      assert AllCalls(AllPseudo(es, k)) == Calls(first) + AllCalls(rest);
      PseudoConcat(Calls(first), AllCalls(rest), k);
    }
  }

  lemma PseudoThrows(call: BoundExpr, k: nat, child: Schema)
    requires call.AggCall? && call.func == PseudoName(k) && call.args == []
    ensures PlanCall(call, child) == Throws
  {
    assert PseudoName(k)[0] == '_';
    assert "count_star"[0] == 'c';
  }

  lemma PseudoAgain(g: Grouping)
    ensures ArePseudo(GroupingCalls(AfterPlanning(g)), 0) && |GroupingCalls(AfterPlanning(g))| == |GroupingCalls(g)|
    ensures GroupingCalls(g) == [] ==> AfterPlanning(g) == g
  {
    var g' := AfterPlanning(g);
    var used := if g.having.Invalid? then 0 else |Calls(g.having)|;
    PseudoCalls(g.having, 0);
    AllPseudoCalls(g.selectList, used);
    NoPseudo(0);
    assert g'.having.Invalid? <==> g.having.Invalid?;
    hide ArePseudo, Pseudo, AllPseudo, Calls, AllCalls;
    PseudoConcat(if g.having.Invalid? then [] else Calls(g'.having), AllCalls(g'.selectList), 0);
  }

  lemma ReplanThrows(g: Grouping, child: Plan)
    requires GroupingCalls(g) != []
    ensures PlanGrouping(AfterPlanning(g), child) == Throws
  {
    var g' := AfterPlanning(g);
    PseudoAgain(g);
    hide AfterPlanning, ArePseudo, GroupingCalls, PlanCall, GroupingSupported, PlanAggregation, PlanOverAggregation;
    PseudoHead(GroupingCalls(g'));
    PlanAggregationIff(g', child);
    PseudoThrows(GroupingCalls(g')[0], 0, child.schema);
  }

  /**
   Planning a statement replaces its calls in place, so that it can be planned again only if it has
   none; then the plan is the same.  (A common table expression with a call works once.)
   */
  lemma ReplanIff(g: Grouping, child: Plan)
    requires PlanGrouping(g, child).Ok?
    ensures PlanGrouping(AfterPlanning(g), child) == if GroupingCalls(g) == [] then PlanGrouping(g, child) else Throws
  {
    if GroupingCalls(g) == [] {
      PseudoAgain(g);
    } else {
      ReplanThrows(g, child);
    }
  }
}
