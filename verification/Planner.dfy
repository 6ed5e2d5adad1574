/** The planner: an object with a context that it changes while it walks a bound statement. */
module Planner {
  import opened Options
  import opened Expressions
  import opened Plans
  import opened BoundTree
  import AP = AggregationPlanning
  import SP = SelectPlanning
  import IP = InPlacePlanning
  import StarExpansion

  /**
   `aggregations` are the calls collected so far, `exprInAgg` the columns of an aggregation that stand for
   them, and `next` is the first of those that is not used yet.  `ctes` is the WITH list in force.
   */
  datatype Context = Context(allowAggregation: bool, next: nat, aggregations: seq<BoundExpr>, exprInAgg: seq<Expr>,
                             ctes: IP.CteList)

  // ----- spec helpers -----

  ghost function Continue(done: seq<AP.Planned>, rest: Result<(seq<AP.Planned>, nat)>): Result<(seq<AP.Planned>, nat)> {
    var (ps, n) :- rest;
    Ok((done + ps, n))
  }

  lemma ContinueEnds(done: seq<AP.Planned>, es: seq<BoundExpr>, children: seq<Schema>, avail: seq<Expr>, next: nat)
    ensures Continue([], AP.PlanExprs(es[0..], children, avail, next)) == AP.PlanExprs(es, children, avail, next)
    ensures Continue(done, AP.PlanExprs(es[|es|..], children, avail, next)) == Ok((done, next))
  {
    assert es[0..] == es && done + [] == done;
    match AP.PlanExprs(es, children, avail, next)
    case Throws =>
    case Ok((ps, _)) => assert [] + ps == ps;
  }

  lemma ContinueStep(done: seq<AP.Planned>, es: seq<BoundExpr>, i: nat, children: seq<Schema>, avail: seq<Expr>,
                     next: nat)
    requires i < |es|
    ensures Continue(done, AP.PlanExprs(es[i..], children, avail, next)) ==
            match AP.PlanExpr(es[i], children, avail, next)
            case Throws => Throws
            case Ok((p, n)) => Continue(done + [p], AP.PlanExprs(es[i + 1..], children, avail, n))
  {
    assert es[i..][1..] == es[i + 1..];
    match AP.PlanExpr(es[i], children, avail, next)
    case Throws =>
    case Ok((p, n)) =>
      match AP.PlanExprs(es[i + 1..], children, avail, n)
      case Throws =>
      case Ok((ps, _)) => assert done + ([p] + ps) == done + [p] + ps;
  }

  /** Replacing calls by pseudo calls does not change what is planned. */
  lemma {:induction false} PseudoPlansAlike(e: BoundExpr, k: nat, children: seq<Schema>, avail: seq<Expr>, next: nat)
    ensures AP.PlanExpr(AP.Pseudo(e, k), children, avail, next) == AP.PlanExpr(e, children, avail, next)
  {
    match e
    case BinaryOp(_, l, r) =>
      PseudoPlansAlike(l, k, children, avail, next);
      if AP.PlanExpr(l, children, avail, next).Ok? {
        PseudoPlansAlike(r, k + |AP.Calls(l)|, children, avail, AP.PlanExpr(l, children, avail, next).value.1);
      }
    case Alias(_, c) => PseudoPlansAlike(c, k, children, avail, next);
    case _ =>
  }

  lemma {:induction false} AllPseudoPlanAlike(es: seq<BoundExpr>, k: nat, children: seq<Schema>, avail: seq<Expr>,
                                              next: nat)
    ensures AP.PlanExprs(AP.AllPseudo(es, k), children, avail, next) == AP.PlanExprs(es, children, avail, next)
  {
    if es != [] {
      PseudoPlansAlike(es[0], k, children, avail, next);
      if AP.PlanExpr(es[0], children, avail, next).Ok? {
        AllPseudoPlanAlike(es[1..], k + |AP.Calls(es[0])|, children, avail,
                           AP.PlanExpr(es[0], children, avail, next).value.1);
      }
    }
  }

  ghost function Prepend(done: seq<(AggregationType, Expr)>,
                         rest: Result<seq<(AggregationType, Expr)>>): Result<seq<(AggregationType, Expr)>> {
    var cs :- rest;
    Ok(done + cs)
  }

  lemma PrependEnds(done: seq<(AggregationType, Expr)>, calls: seq<BoundExpr>, child: Schema)
    requires AP.AreCalls(calls)
    ensures Prepend([], AP.PlanCalls(calls[0..], child)) == AP.PlanCalls(calls, child)
    ensures Prepend(done, AP.PlanCalls(calls[|calls|..], child)) == Ok(done)
  {
    assert calls[0..] == calls && done + [] == done;
    match AP.PlanCalls(calls, child)
    case Throws =>
    case Ok(cs) => assert [] + cs == cs;
  }

  lemma PrependStep(done: seq<(AggregationType, Expr)>, calls: seq<BoundExpr>, i: nat, child: Schema)
    requires i < |calls| && AP.AreCalls(calls)
    ensures Prepend(done, AP.PlanCalls(calls[i..], child)) ==
            match AP.PlanCall(calls[i], child)
            case Throws => Throws
            case Ok(c) => Prepend(done + [c], AP.PlanCalls(calls[i + 1..], child))
  {
    hide AP.PlanCall;
    assert calls[i..][1..] == calls[i + 1..];
    match AP.PlanCall(calls[i], child)
    case Throws =>
    case Ok(c) =>
      match AP.PlanCalls(calls[i + 1..], child)
      case Throws =>
      case Ok(cs) => assert done + ([c] + cs) == done + [c] + cs;
  }

  lemma NoCallsTaken(es: seq<BoundExpr>, children: seq<Schema>)
    ensures AP.PlanExprs(es, children, [], 0).Ok? ==> AP.PlanExprs(es, children, [], 0).value.1 == 0
  {
    AP.PlanExprsIff(es, children, [], 0);
  }

  lemma RewrittenPlansAlike(g: AP.Grouping, agg: Plan)
    requires agg.Aggregation?
    ensures AP.PlanOverAggregation(AP.AfterPlanning(g), agg) == AP.PlanOverAggregation(g, agg)
  {
    var avail := AP.CallColumns(|agg.groupBys|, 0, |agg.aggregates|);
    var h := AP.PlanExpr(g.having, [agg.schema], avail, 0);
    var next := if g.having.Invalid? || h.Throws? then 0 else h.value.1;
    PseudoPlansAlike(g.having, 0, [agg.schema], avail, 0);
    AllPseudoPlanAlike(g.selectList, if g.having.Invalid? then 0 else |AP.Calls(g.having)|, [agg.schema], avail, next);
  }

  /** The calls collected so far and those of the rest are all calls. */
  ghost predicate CallsSoFar(start: seq<BoundExpr>, es: seq<BoundExpr>, i: nat, calls: seq<BoundExpr>)
    requires i <= |es|
  {
    start + AP.AllCalls(es) == calls + AP.AllCalls(es[i..])
  }

  /** The items rewritten so far and those of the rest are all items. */
  ghost predicate ItemsSoFar(start: nat, es: seq<BoundExpr>, i: nat, count: nat, items: seq<BoundExpr>)
    requires i <= |es|
  {
    AP.AllPseudo(es, start) == items + AP.AllPseudo(es[i..], count)
  }

  lemma SoFarEnds(start: seq<BoundExpr>, es: seq<BoundExpr>, calls: seq<BoundExpr>, items: seq<BoundExpr>)
    ensures CallsSoFar(start, es, 0, start) && ItemsSoFar(|start|, es, 0, |start|, [])
    ensures CallsSoFar(start, es, |es|, calls) ==> calls == start + AP.AllCalls(es)
    ensures ItemsSoFar(|start|, es, |es|, |calls|, items) ==> items == AP.AllPseudo(es, |start|)
  {
    assert es[0..] == es;
    assert [] + AP.AllPseudo(es, |start|) == AP.AllPseudo(es, |start|);
    assert calls + [] == calls && items + [] == items;
  }

  lemma Regroup(whole: seq<BoundExpr>, a: seq<BoundExpr>, b: seq<BoundExpr>, c: seq<BoundExpr>)
    requires whole == a + (b + c)
    ensures whole == (a + b) + c
  {
  }

  lemma FirstItem(es: seq<BoundExpr>, i: nat, k: nat)
    requires i < |es|
    ensures AP.AllCalls(es[i..]) == AP.Calls(es[i]) + AP.AllCalls(es[i + 1..])
    ensures AP.AllPseudo(es[i..], k) == [AP.Pseudo(es[i], k)] + AP.AllPseudo(es[i + 1..], k + |AP.Calls(es[i])|)
  {
    assert es[i..][1..] == es[i + 1..];
  }

  lemma CallsStep(start: seq<BoundExpr>, es: seq<BoundExpr>, i: nat, calls: seq<BoundExpr>)
    requires i < |es| && CallsSoFar(start, es, i, calls)
    ensures CallsSoFar(start, es, i + 1, calls + AP.Calls(es[i]))
  {
    FirstItem(es, i, 0);
    hide AP.Calls, AP.AllCalls;
    Regroup(start + AP.AllCalls(es), calls, AP.Calls(es[i]), AP.AllCalls(es[i + 1..]));
  }

  lemma ItemsStep(start: nat, es: seq<BoundExpr>, i: nat, count: nat, items: seq<BoundExpr>)
    requires i < |es| && ItemsSoFar(start, es, i, count, items)
    ensures ItemsSoFar(start, es, i + 1, count + |AP.Calls(es[i])|, items + [AP.Pseudo(es[i], count)])
  {
    FirstItem(es, i, count);
    hide AP.Calls, AP.Pseudo, AP.AllPseudo;
    Regroup(AP.AllPseudo(es, start), items, [AP.Pseudo(es[i], count)],
            AP.AllPseudo(es[i + 1..], count + |AP.Calls(es[i])|));
  }

  // ----- lists planned from left to right -----

  lemma NoCallTaken(e: BoundExpr, children: seq<Schema>)
    ensures AP.PlanExpr(e, children, [], 0).Ok? ==> AP.PlanExpr(e, children, [], 0).value.1 == 0
  {
    AP.PlanExprIff(e, children, [], 0);
  }

  lemma {:induction false} NameAllStep(ps: seq<AP.Planned>, p: AP.Planned, id: nat)
    ensures var (names, id') := SP.NameAll(ps, id);
            SP.NameAll(ps + [p], id) ==
            if p.name == AP.UNNAMED_COLUMN then (names + ["__unnamed#" + Decimal(id')], id' + 1)
            else (names + [p.name], id')
  {
    if ps == [] {
      assert ps + [p] == [p] && [p][1..] == [];
      forall name: string ensures [name] + [] == [] + [name] {}
    } else {
      assert (ps + [p])[1..] == ps[1..] + [p];
      var id' := if ps[0].name == AP.UNNAMED_COLUMN then id + 1 else id;
      NameAllStep(ps[1..], p, id');
      var (first, rest) := (SP.NameAll(ps, id).0[0], SP.NameAll(ps[1..], id').0);
      forall name: string ensures [first] + (rest + [name]) == ([first] + rest) + [name] {}
    }
  }

  ghost function PrependOrder(done: seq<(OrderByType, Expr)>,
                              rest: Result<seq<(OrderByType, Expr)>>): Result<seq<(OrderByType, Expr)>> {
    var os :- rest;
    Ok(done + os)
  }

  lemma OrderBysEnds(done: seq<(OrderByType, Expr)>, os: seq<(OrderByType, BoundExpr)>, schema: Schema)
    ensures PrependOrder([], SP.PlanOrderBys(os[0..], schema)) == SP.PlanOrderBys(os, schema)
    ensures PrependOrder(done, SP.PlanOrderBys(os[|os|..], schema)) == Ok(done)
  {
    assert os[0..] == os && done + [] == done;
    match SP.PlanOrderBys(os, schema)
    case Throws =>
    case Ok(rest) => assert [] + rest == rest;
  }

  lemma OrderBysStep(done: seq<(OrderByType, Expr)>, os: seq<(OrderByType, BoundExpr)>, i: nat, schema: Schema)
    requires i < |os|
    ensures PrependOrder(done, SP.PlanOrderBys(os[i..], schema)) ==
            match AP.PlanExpr(os[i].1, [schema], [], 0)
            case Throws => Throws
            case Ok((p, _)) => PrependOrder(done + [(os[i].0, p.expr)], SP.PlanOrderBys(os[i + 1..], schema))
  {
    hide AP.PlanExpr;
    assert os[i..][1..] == os[i + 1..];
    match AP.PlanExpr(os[i].1, [schema], [], 0)
    case Throws =>
    case Ok((p, _)) =>
      match SP.PlanOrderBys(os[i + 1..], schema)
      case Throws =>
      case Ok(rest) => assert done + ([(os[i].0, p.expr)] + rest) == done + [(os[i].0, p.expr)] + rest;
  }

  ghost function PrependRows(done: seq<seq<Expr>>, rest: Result<seq<seq<Expr>>>): Result<seq<seq<Expr>>> {
    var rows :- rest;
    Ok(done + rows)
  }

  lemma RowsEnds(done: seq<seq<Expr>>, values: seq<seq<BoundExpr>>)
    ensures PrependRows([], SP.PlanRows(values[0..])) == SP.PlanRows(values)
    ensures PrependRows(done, SP.PlanRows(values[|values|..])) == Ok(done)
  {
    assert values[0..] == values && done + [] == done;
    match SP.PlanRows(values)
    case Throws =>
    case Ok(rest) => assert [] + rest == rest;
  }

  lemma RowsStep(done: seq<seq<Expr>>, values: seq<seq<BoundExpr>>, i: nat)
    requires i < |values|
    ensures PrependRows(done, SP.PlanRows(values[i..])) ==
            match AP.PlanExprs(values[i], [], [], 0)
            case Throws => Throws
            case Ok((row, _)) => PrependRows(done + [AP.Exprs(row)], SP.PlanRows(values[i + 1..]))
  {
    hide AP.PlanExprs;
    assert values[i..][1..] == values[i + 1..];
    match AP.PlanExprs(values[i], [], [], 0)
    case Throws =>
    case Ok((row, _)) =>
      match SP.PlanRows(values[i + 1..])
      case Throws =>
      case Ok(rest) => assert done + ([AP.Exprs(row)] + rest) == done + [AP.Exprs(row)] + rest;
  }

  // ----- columns -----

  ghost function Shifted(index: Option<nat>, k: nat): Option<nat> {
    if index.None? then None else Some(index.value + k)
  }

  /** The first column of the given name and whether there is another one. */
  method LookUp(schema: Schema, name: string) returns (index: Option<nat>, again: bool)
    ensures index == AP.Find(schema, name) && again == AP.Duplicated(schema, name)
  {
    index, again := None, false;
    var i := 0;
    while i < |schema|
      invariant 0 <= i <= |schema|
      invariant index.None? ==> AP.Find(schema, name) == Shifted(AP.Find(schema[i..], name), i)
      invariant index.None? ==> !again && AP.Duplicated(schema, name) == AP.Duplicated(schema[i..], name)
      invariant index.Some? ==> index == AP.Find(schema, name)
      invariant index.Some? ==> AP.Duplicated(schema, name) == (again || AP.Find(schema[i..], name).Some?)
    {
      assert schema[i..][0] == schema[i] && schema[i..][1..] == schema[i + 1..];
      if schema[i].name == name {
        if index.Some? { again := true; } else { index := Some(i); }
      }
      i := i + 1;
    }
  }

  method PlanColumnRef(name: string, children: seq<Schema>) returns (r: Result<Expr>)
    ensures r == AP.PlanColumnRef(name, children)
  {
    if |children| == 1 {
      var index, again := LookUp(children[0], name);
      if again || index.None? { return Throws; }
      AP.FindInRange(children[0], name);
      return Ok(ColumnValue(0, index.value, children[0][index.value].ty));
    }
    if |children| == 2 {
      var left, _ := LookUp(children[0], name);
      var right, _ := LookUp(children[1], name);
      AP.FindInRange(children[0], name);
      AP.FindInRange(children[1], name);
      if left.Some? && right.Some? { return Throws; }
      if left.Some? { return Ok(ColumnValue(0, left.value, children[0][left.value].ty)); }
      if right.Some? { return Ok(ColumnValue(1, right.value, children[1][right.value].ty)); }
    }
    return Throws;
  }

  /** A statement without an aggregation has no calls to replace. */
  lemma NoneReplaced(s: Select, at: IP.Place, replaced: set<IP.Place>)
    ensures !SP.HasAggregation(IP.Now(s, at, replaced)) ==> IP.Later(s, at, replaced) == replaced
  {
    hide AP.AfterPlanning, AP.Calls, AP.AllCalls;
    AP.PseudoAgain(IP.GroupingOf(s));
    var now := IP.Now(s, at, replaced);
    if IP.HasCalls(now) { IP.CallsAggregate(now); }
  }

  lemma WidthInPlace(catalog: SP.Catalog, s: Select, at: IP.Place, list: IP.CteList, st: IP.Progress, n: nat)
    requires WellBoundSelect(s) && WellBoundList(list.entries) && IP.EndsSelectInPlace(catalog, s, at, list, st, n)
    requires IP.PlanSelectInPlace(catalog, s, at, list, st, n).Ok?
    ensures |IP.PlanSelectInPlace(catalog, s, at, list, st, n).value.0.schema| == |s.selectList|
  {
    hide IP.PlanSelectInPlace, IP.EndsSelectInPlace, SP.PlanSelect, SP.EndsSelect, WellBoundSelect;
    IP.SelectInPlaceIs(catalog, s, at, list, st, n);
    StarExpansion.SelectWidth(catalog, s, list.entries, st.id, n);
  }


  class Planner {
    const catalog: SP.Catalog
    var ctx: Context
    var universalId: nat
    /** The places of the statements whose calls have been replaced. */
    var replaced: set<IP.Place>

    constructor (catalog: SP.Catalog)
      ensures this.catalog == catalog && ctx == Context(false, 0, [], [], IP.NO_LIST)
      ensures universalId == 0 && replaced == {}
    {
      this.catalog := catalog;
      ctx := Context(false, 0, [], [], IP.NO_LIST);
      universalId := 0;
      replaced := {};
    }

    /** Plans an expression; a call takes the next column that stands for one. */
    method PlanExpression(e: BoundExpr, children: seq<Schema>) returns (r: Result<AP.Planned>)
      modifies this`ctx
      ensures ctx == old(ctx).(next := ctx.next)
      ensures match AP.PlanExpr(e, children, old(ctx.exprInAgg), old(ctx.next))
              case Throws => r == Throws
              case Ok((p, n)) => r == Ok(p) && ctx.next == n
    {
      match e
      case AggCall(_, _, _) =>
        if ctx.next >= |ctx.exprInAgg| { return Throws; }
        r := Ok(AP.Planned(AP.UNNAMED_COLUMN, ctx.exprInAgg[ctx.next]));
        ctx := ctx.(next := ctx.next + 1);
      case ColumnRef(path) =>
        var x :- PlanColumnRef(Rendered(path), children);
        return Ok(AP.Planned(Rendered(path), x));
      case BinaryOp(op, l, r') =>
        var left :- PlanExpression(l, children);
        var right :- PlanExpression(r', children);
        var x :- AP.BinaryExpression(op, left.expr, right.expr);
        return Ok(AP.Planned(AP.UNNAMED_COLUMN, x));
      case ConstantExpr(v) => return Ok(AP.Planned(AP.UNNAMED_COLUMN, Constant(v)));
      case Alias(alias, child) =>
        var c :- PlanExpression(child, children);
        return Ok(AP.Planned(alias, c.expr));
      case Invalid => return Throws;
      case Unsupported => return Throws;
    }

    /** Plans expressions from left to right. */
    method PlanExpressions(es: seq<BoundExpr>, children: seq<Schema>) returns (r: Result<seq<AP.Planned>>)
      modifies this`ctx
      ensures ctx == old(ctx).(next := ctx.next)
      ensures match AP.PlanExprs(es, children, old(ctx.exprInAgg), old(ctx.next))
              case Throws => r == Throws
              case Ok((ps, n)) => r == Ok(ps) && ctx.next == n
    {
      var done: seq<AP.Planned> := [];
      var i := 0;
      ContinueEnds(done, es, children, ctx.exprInAgg, ctx.next);
      while i < |es|
        invariant 0 <= i <= |es|
        invariant ctx == old(ctx).(next := ctx.next)
        invariant AP.PlanExprs(es, children, ctx.exprInAgg, old(ctx.next))
                  == Continue(done, AP.PlanExprs(es[i..], children, ctx.exprInAgg, ctx.next))
      {
        ContinueStep(done, es, i, children, ctx.exprInAgg, ctx.next);
        var p :- PlanExpression(es[i], children);
        done := done + [p];
        i := i + 1;
      }
      ContinueEnds(done, es, children, ctx.exprInAgg, ctx.next);
      return Ok(done);
    }

    /** Moves the calls of an expression into the context and leaves pseudo calls in their places. */
    method AddAggCallToContext(e: BoundExpr) returns (r: Result<BoundExpr>)
      modifies this`ctx
      ensures r.Ok? <==> AP.Supported(e)
      ensures r.Ok? ==> r.value == AP.Pseudo(e, |old(ctx.aggregations)|)
      ensures r.Ok? ==> ctx == old(ctx).(aggregations := old(ctx.aggregations) + AP.Calls(e))
    {
      match e
      case AggCall(_, distinct, _) =>
        r := Ok(AggCall(AP.PseudoName(|ctx.aggregations|), distinct, []));
        ctx := ctx.(aggregations := ctx.aggregations + [e]);
      case ColumnRef(_) =>
        assert ctx.aggregations + [] == ctx.aggregations;
        return Ok(e);
      case BinaryOp(op, l, r') =>
        var left :- AddAggCallToContext(l);
        var right :- AddAggCallToContext(r');
        assert old(ctx.aggregations) + AP.Calls(l) + AP.Calls(r') ==
               old(ctx.aggregations) + (AP.Calls(l) + AP.Calls(r'));
        return Ok(BinaryOp(op, left, right));
      case ConstantExpr(_) =>
        assert ctx.aggregations + [] == ctx.aggregations;
        return Ok(e);
      case Alias(alias, child) =>
        var c :- AddAggCallToContext(child);
        return Ok(Alias(alias, c));
      case Invalid => return Throws;
      case Unsupported => return Throws;
    }

    // ----- aggregation -----

    /** Plans a call in a context of its own, which has no calls to take. */
    method PlanAggCall(call: BoundExpr, child: Schema) returns (r: Result<(AggregationType, seq<Expr>)>)
      requires call.AggCall?
      modifies this`ctx
      ensures ctx == old(ctx) && r == AP.PlanAggCall(call, child)
    {
      if call.distinct { return Throws; }
      var saved := ctx;
      ctx := Context(false, 0, [], [], saved.ctes);
      var args := PlanExpressions(call.args, [child]);
      ctx := saved;
      if args.Throws? { return Throws; }
      return AP.AggregateCall(call.func, AP.Exprs(args.value));
    }

    /** Collects the calls of HAVING and the select list. */
    method CollectCalls(g: AP.Grouping) returns (r: Result<AP.Grouping>)
      requires ctx.aggregations == []
      modifies this`ctx
      ensures r.Ok? <==> AP.GroupingSupported(g)
      ensures r.Ok? ==> r.value == AP.AfterPlanning(g) && ctx == old(ctx).(aggregations := AP.GroupingCalls(g))
    {
      hide AP.Supported, AP.Calls, AP.Pseudo, AP.AllPseudo, AP.AllCalls, CallsSoFar, ItemsSoFar;
      var having := g.having;
      if !having.Invalid? {
        having :- AddAggCallToContext(having);
      }
      ghost var start := ctx.aggregations;
      assert start == if g.having.Invalid? then [] else AP.Calls(g.having);
      var items: seq<BoundExpr> := [];
      var i := 0;
      SoFarEnds(start, g.selectList, start, items);
      while i < |g.selectList|
        invariant 0 <= i <= |g.selectList|
        invariant ctx == old(ctx).(aggregations := ctx.aggregations)
        invariant forall j :: 0 <= j < i ==> AP.Supported(g.selectList[j])
        invariant CallsSoFar(start, g.selectList, i, ctx.aggregations)
        invariant ItemsSoFar(|start|, g.selectList, i, |ctx.aggregations|, items)
      {
        CallsStep(start, g.selectList, i, ctx.aggregations);
        ItemsStep(|start|, g.selectList, i, |ctx.aggregations|, items);
        var item :- AddAggCallToContext(g.selectList[i]);
        items := items + [item];
        i := i + 1;
      }
      SoFarEnds(start, g.selectList, ctx.aggregations, items);
      return Ok(AP.Grouping(g.groupBy, having, items));
    }

    /** Plans the collected calls, and puts a column of the aggregation into the context for each. */
    method PlanCollected(child: Schema, begin: nat) returns (r: Result<seq<(AggregationType, Expr)>>)
      requires AP.AreCalls(ctx.aggregations) && ctx.exprInAgg == []
      modifies this`ctx
      ensures r == AP.PlanCalls(old(ctx.aggregations), child)
      ensures ctx == old(ctx).(exprInAgg := ctx.exprInAgg)
      ensures r.Ok? ==> ctx.exprInAgg == AP.CallColumns(begin, 0, |r.value|)
    {
      hide AP.PlanAggCall, AP.PlanCalls, Prepend, AP.CallColumns;
      var calls, done := ctx.aggregations, [];
      var i := 0;
      PrependEnds(done, calls, child);
      while i < |calls|
        invariant 0 <= i <= |calls| && |done| == i
        invariant ctx == old(ctx).(exprInAgg := ctx.exprInAgg)
        invariant AP.PlanCalls(calls, child) == Prepend(done, AP.PlanCalls(calls[i..], child))
        invariant |ctx.exprInAgg| == i && forall j :: 0 <= j < i ==>
                  ctx.exprInAgg[j] == ColumnValue(0, begin + j, INTEGER)
      {
        PrependStep(done, calls, i, child);
        var call :- PlanAggCall(calls[i], child);
        var (ty, inputs) := call;
        if |inputs| > 1 { return Throws; }
        var input := if inputs == [] then Constant(Int(1)) else inputs[0];
        done := done + [(ty, input)];
        ctx := ctx.(exprInAgg := ctx.exprInAgg + [ColumnValue(0, begin + i, INTEGER)]);
        i := i + 1;
      }
      PrependEnds(done, calls, child);
      return Ok(done);
    }

    /** Plans HAVING and the select list over the aggregation. */
    method PlanOverAggregation(g: AP.Grouping, agg: Plan) returns (r: Result<Plan>)
      requires agg.Aggregation? && ctx.next == 0 && ctx.exprInAgg == AP.CallColumns(|agg.groupBys|, 0, |agg.aggregates|)
      modifies this`ctx
      ensures r == AP.PlanOverAggregation(g, agg)
    {
      var plan := agg;
      if !g.having.Invalid? {
        var h :- PlanExpression(g.having, [agg.schema]);
        plan := Filter(agg.schema, h.expr, agg);
      }
      var items :- PlanExpressions(g.selectList, [plan.schema]);
      var schema := AP.RenameSchema(AP.InferProjectionSchema(AP.Exprs(items)), AP.NamesOf(items));
      if schema.Throws? { return Throws; }
      return Ok(Projection(schema.value, AP.Exprs(items), plan));
    }

    /** Both phases, in a context without calls. */
    method PlanGroupingHere(g: AP.Grouping, child: Plan) returns (r: Result<Plan>, g': AP.Grouping)
      requires ctx.next == 0 && ctx.aggregations == [] && ctx.exprInAgg == []
      modifies this`ctx
      ensures r == AP.PlanGrouping(g, child)
      ensures r.Ok? ==> g' == AP.AfterPlanning(g)
    {
      g' := g;
      var groups :- PlanExpressions(g.groupBy, [child.schema]);
      NoCallsTaken(g.groupBy, [child.schema]);
      g' :- CollectCalls(g);
      AP.GroupingCallsAreCalls(g);
      var planned :- PlanCollected(child.schema, |groups|);
      var names := AP.NamesOf(groups) + AP.CallNames(0, |planned|);
      var schema := AP.RenameSchema(AP.InferAggSchema(AP.Exprs(groups), |planned|), names);
      if schema.Throws? { return Throws, g'; }
      var agg := Aggregation(schema.value, AP.Exprs(groups), AP.Inputs(planned), AP.Kinds(planned), child);
      r := PlanOverAggregation(g', agg);
      RewrittenPlansAlike(g, agg);
    }

    /** Plans the aggregation of a statement.  `g'` is the statement afterwards. */
    method PlanSelectAgg(g: AP.Grouping, child: Plan) returns (r: Result<Plan>, g': AP.Grouping)
      modifies this`ctx
      ensures ctx == old(ctx)
      ensures r == AP.PlanGrouping(g, child)
      ensures r.Ok? ==> g' == AP.AfterPlanning(g)
    {
      var saved := ctx;
      ctx := Context(true, 0, [], [], saved.ctes);
      r, g' := PlanGroupingHere(g, child);
      ctx := saved;
    }

    // ----- select statements -----

    /** Plans items from left to right; columns without a name get one from the counter. */
    method PlanNamedItems(es: seq<BoundExpr>, schema: Schema) returns (r: Result<seq<AP.Planned>>, names: seq<string>)
      requires ctx.next == 0 && ctx.exprInAgg == []
      modifies this`ctx, this`universalId
      ensures r.Ok? ==> ctx == old(ctx)
      ensures match AP.PlanExprs(es, [schema], [], 0)
              case Throws => r == Throws
              case Ok((items, _)) => r == Ok(items) && (names, universalId) == SP.NameAll(items, old(universalId))
    {
      assert SP.NameAll([], universalId) == ([], universalId);
      hide SP.NameAll, Continue, AP.PlanExprs, Decimal;
      var items: seq<AP.Planned> := [];
      names := [];
      var i := 0;
      ContinueEnds(items, es, [schema], [], 0);
      while i < |es|
        invariant 0 <= i <= |es|
        invariant ctx == old(ctx)
        invariant AP.PlanExprs(es, [schema], [], 0) == Continue(items, AP.PlanExprs(es[i..], [schema], [], 0))
        invariant SP.NameAll(items, old(universalId)) == (names, universalId)
      {
        ContinueStep(items, es, i, [schema], [], 0);
        NoCallTaken(es[i], [schema]);
        var p :- PlanExpression(es[i], [schema]);
        NameAllStep(items, p, old(universalId));
        var name := p.name;
        if name == AP.UNNAMED_COLUMN {
          name := "__unnamed#" + Decimal(universalId);
          universalId := universalId + 1;
        }
        items, names := items + [p], names + [name];
        i := i + 1;
      }
      ContinueEnds(items, es, [schema], [], 0);
      r := Ok(items);
    }

    /** Plans the select list without aggregates. */
    method PlanPlainItems(s: Select, plan: Plan) returns (r: Result<Plan>)
      requires ctx.next == 0 && ctx.exprInAgg == [] && !SP.HasAggregation(s)
      modifies this`ctx, this`universalId
      ensures r.Ok? ==> ctx == old(ctx)
      ensures match SP.PlanItems(s, plan, old(universalId))
              case Throws => r == Throws
              case Ok((p, id)) => r == Ok(p) && universalId == id
    {
      hide SP.NameAll, AP.PlanExprs, AP.InferProjectionSchema, AP.Exprs;
      var items, names := PlanNamedItems(s.selectList, plan.schema);
      if items.Throws? { return Throws; }
      var exprs := AP.Exprs(items.value);
      var schema := AP.RenameSchema(AP.InferProjectionSchema(exprs), names);
      if schema.Throws? { return Throws; }
      return Ok(Projection(schema.value, exprs, plan));
    }

    method PlanOrderBys(os: seq<(OrderByType, BoundExpr)>, schema: Schema) returns (r: Result<seq<(OrderByType, Expr)>>)
      requires ctx.next == 0 && ctx.exprInAgg == []
      modifies this`ctx
      ensures r == SP.PlanOrderBys(os, schema)
      ensures r.Ok? ==> ctx == old(ctx)
    {
      var done := [];
      var i := 0;
      OrderBysEnds(done, os, schema);
      while i < |os|
        invariant 0 <= i <= |os| && ctx == old(ctx)
        invariant SP.PlanOrderBys(os, schema) == PrependOrder(done, SP.PlanOrderBys(os[i..], schema))
      {
        OrderBysStep(done, os, i, schema);
        NoCallTaken(os[i].1, [schema]);
        var e :- PlanExpression(os[i].1, [schema]);
        done := done + [(os[i].0, e.expr)];
        i := i + 1;
      }
      OrderBysEnds(done, os, schema);
      return Ok(done);
    }

    /** Plans the aggregation of the statement at `at`, which is `now`, and leaves it without its calls. */
    method PlanInPlace(s: Select, at: IP.Place, now: Select, child: Plan) returns (r: Result<Plan>)
      requires now == IP.Now(s, at, replaced)
      modifies this`ctx, this`replaced
      ensures ctx == old(ctx) && r == AP.PlanGrouping(IP.GroupingOf(now), child)
      ensures r.Ok? ==> && replaced == IP.Later(s, at, old(replaced))
                        && IP.GroupingOf(IP.Now(s, at, replaced)) == AP.AfterPlanning(IP.GroupingOf(now))
    {
      var g;
      r, g := PlanSelectAgg(IP.GroupingOf(now), child);
      if r.Ok? {
        IP.LeftBehind(s, at, child, replaced);
        if IP.HasCalls(s) { replaced := replaced + {at}; }
        assert IP.GroupingOf(IP.Now(s, at, replaced)) == g;
      }
    }

    /** Plans the select list. */
    method PlanItems(s: Select, at: IP.Place, now: Select, plan: Plan) returns (r: Result<Plan>)
      requires ctx.next == 0 && ctx.exprInAgg == [] && now == IP.Now(s, at, replaced)
      modifies this
      ensures r.Ok? ==> ctx == old(ctx)
      ensures match SP.PlanItems(now, plan, old(universalId))
              case Throws => r == Throws
              case Ok((p, id)) => r == Ok(p) && universalId == id && replaced == IP.Later(s, at, old(replaced))
    {
      NoneReplaced(s, at, replaced);
      hide IP.Now, IP.HasCalls, AP.PlanExprs, AP.PlanGrouping, SP.NameAll, SP.HasAggregation, AP.InferProjectionSchema,
           AP.RenameSchema, AP.Exprs;
      if SP.HasAggregation(now) {
        r := PlanInPlace(s, at, now, plan);
      } else {
        r := PlanPlainItems(now, plan);
      }
    }

    /** DISTINCT, ORDER BY and LIMIT. */
    method PlanTail(now: Select, items: Plan) returns (r: Result<Plan>)
      requires ctx.next == 0 && ctx.exprInAgg == []
      modifies this`ctx
      ensures r == match SP.PlanOrderBy(now, SP.PlanDistinct(now, items))
                   case Throws => Throws
                   case Ok(p) => SP.PlanLimit(now, p)
    {
      hide SP.PlanOrderBys, SP.Columns;
      var plan := items;
      if now.distinct {
        plan := Aggregation(plan.schema, SP.Columns(plan.schema, 0), [], [], plan);
      }
      if now.orderBys != [] {
        var os :- PlanOrderBys(now.orderBys, plan.schema);
        plan := Sort(plan.schema, os, plan);
      }
      if !now.limit.Invalid? || !now.offset.Invalid? {
        if !now.limit.Invalid? && !SP.IsLimit(now.limit) { return Throws; }
        if !now.offset.Invalid? { return Throws; }
        plan := Limit(plan.schema, SP.AsSize(now.limit.val), plan);
      }
      return Ok(plan);
    }

    /** The clauses of the statement at `at`, from WHERE on, over the plan of its tables. */
    method PlanClauses(s: Select, at: IP.Place, table: Plan) returns (r: Result<Plan>)
      requires ctx.next == 0 && ctx.exprInAgg == []
      modifies this
      ensures match IP.PlanStatement(s, at, table, IP.Progress(old(universalId), old(replaced)))
              case Throws => r == Throws
              case Ok((p, st)) => r == Ok(p) && universalId == st.id && replaced == st.replaced
    {
      hide IP.Now, IP.HasCalls, AP.PlanExpr, SP.PlanOrderBy, SP.PlanDistinct, SP.PlanLimit, SP.PlanItems;
      var now := IP.Now(s, at, replaced);
      var plan := table;
      if !now.filter.Invalid? {
        NoCallTaken(now.filter, [plan.schema]);
        var e :- PlanExpression(now.filter, [plan.schema]);
        plan := Filter(plan.schema, e.expr, plan);
      }
      plan :- PlanItems(s, at, now, plan);
      r := PlanTail(now, plan);
    }

    /** Plans a select statement in a context of its own, with its own common table expressions if it has any. */
    method PlanSelect(s: Select, at: IP.Place, ghost n: nat) returns (r: Result<Plan>)
      requires WellBoundSelect(s) && WellBoundList(ctx.ctes.entries)
      requires IP.EndsSelectInPlace(catalog, s, at, ctx.ctes, IP.Progress(universalId, replaced), n)
      modifies this
      ensures ctx == old(ctx)
      ensures match IP.PlanSelectInPlace(catalog, s, at, old(ctx.ctes), IP.Progress(old(universalId), old(replaced)), n)
              case Throws => r == Throws
              case Ok((p, st)) => r == Ok(p) && universalId == st.id && replaced == st.replaced
      decreases n, s, 1
    {
      hide IP.PlanStatement;
      var saved := ctx;
      ctx := Context(false, 0, [], [], IP.ScopeOf(s, at, saved.ctes));
      var table := Ok(Values([], [[]]));
      if !s.table.EmptyRef? {
        table := PlanTableRef(s.table, at + [0], n);
      }
      if table.Throws? {
        r := Throws;
      } else {
        r := PlanClauses(s, at, table.value);
      }
      ctx := saved;
    }

    /** Plans a whole statement. */
    method PlanQuery(s: Select, ghost n: nat) returns (r: Result<Plan>)
      requires ctx.ctes == IP.NO_LIST && replaced == {}
      requires WellBoundSelect(s) && IP.EndsQuery(catalog, s, universalId, n)
      modifies this
      ensures ctx == old(ctx)
      ensures match IP.PlanQuery(catalog, s, old(universalId), n)
              case Throws => r == Throws
              case Ok((p, id)) => r == Ok(p) && universalId == id
    {
      hide IP.PlanSelectInPlace, IP.EndsSelectInPlace;
      r := PlanSelect(s, [], n);
    }

    // ----- table references -----

    method PlanExpressionListRef(values: seq<seq<BoundExpr>>, identifier: string) returns (r: Result<Plan>)
      requires ctx.next == 0 && ctx.exprInAgg == [] && values != []
      modifies this`ctx
      ensures r.Ok? ==> ctx == old(ctx)
      ensures match SP.PlanRows(values)
              case Throws => r == Throws
              case Ok(rows) => rows != [] && r == Ok(Values(SP.ListSchema(identifier, rows[0], 0), rows))
    {
      var rows := [];
      var i := 0;
      RowsEnds(rows, values);
      while i < |values|
        invariant 0 <= i <= |values| && ctx == old(ctx) && |rows| == i
        invariant SP.PlanRows(values) == PrependRows(rows, SP.PlanRows(values[i..]))
      {
        RowsStep(rows, values, i);
        NoCallsTaken(values[i], []);
        var row :- PlanExpressions(values[i], []);
        rows := rows + [AP.Exprs(row)];
        i := i + 1;
      }
      RowsEnds(rows, values);
      return Ok(Values(SP.ListSchema(identifier, rows[0], 0), rows));
    }

    /** The projection that gives the columns of a planned subquery their names. */
    static method RenameColumns(select: Plan, alias: string, names: seq<seq<string>>) returns (r: Result<Plan>)
      requires |names| == |select.schema|
      ensures r == SP.RenameQuery(select, alias, names)
    {
      hide SP.Columns, SP.QueryNames, Rendered, AP.InferProjectionSchema;
      var schema := select.schema;
      var renamed: seq<string>, exprs: seq<Expr> := [], [];
      var i := 0;
      while i < |schema|
        invariant 0 <= i <= |schema| && |renamed| == |exprs| == i
        invariant forall j :: 0 <= j < i ==> renamed[j] == alias + "." + Rendered(names[j])
        invariant forall j :: 0 <= j < i ==> exprs[j] == ColumnValue(0, j, schema[j].ty)
      {
        renamed := renamed + [alias + "." + Rendered(names[i])];
        exprs := exprs + [ColumnValue(0, i, schema[i].ty)];
        i := i + 1;
      }
      assert exprs == SP.Columns(schema, 0);
      assert renamed == SP.QueryNames(alias, names);
      var output := AP.RenameSchema(AP.InferProjectionSchema(exprs), renamed);
      if output.Throws? { return Throws; }
      return Ok(Projection(output.value, exprs, select));
    }

    /** Plans the subquery whose statement is at `at`, and renames its columns. */
    method PlanSubquery(q: Subquery, at: IP.Place, alias: string, ghost n: nat) returns (r: Result<Plan>)
      requires WellBoundQuery(q) && WellBoundList(ctx.ctes.entries)
      requires IP.EndsSelectInPlace(catalog, q.select, at, ctx.ctes, IP.Progress(universalId, replaced), n)
      modifies this
      ensures ctx == old(ctx)
      ensures match IP.PlanSelectInPlace(catalog, q.select, at, old(ctx.ctes),
                                         IP.Progress(old(universalId), old(replaced)), n)
              case Throws => r == Throws
              case Ok((p, st)) =>
                r == SP.RenameQuery(p, alias, q.names) && universalId == st.id && replaced == st.replaced
      decreases n, q.select, 2
    {
      hide IP.PlanSelectInPlace, SP.RenameQuery;
      ghost var list, st := ctx.ctes, IP.Progress(universalId, replaced);
      var select := PlanSelect(q.select, at, n);
      if select.Throws? { return Throws; }
      WidthInPlace(catalog, q.select, at, list, st, n);
      r := RenameColumns(select.value, alias, q.names);
    }

    method PlanTableRef(t: TableRef, at: IP.Place, ghost n: nat) returns (r: Result<Plan>)
      requires WellBound(t) && WellBoundList(ctx.ctes.entries)
      requires IP.EndsInPlace(catalog, t, at, ctx.ctes, IP.Progress(universalId, replaced), n)
      requires ctx.next == 0 && ctx.exprInAgg == []
      modifies this
      ensures r.Ok? ==> ctx == old(ctx)
      ensures match IP.PlanTableInPlace(catalog, t, at, old(ctx.ctes), IP.Progress(old(universalId), old(replaced)), n)
              case Throws => r == Throws
              case Ok((p, st)) => r == Ok(p) && universalId == st.id && replaced == st.replaced
      decreases n, t, 0
    {
      match t
      case BaseTable(_, _, _) => return SP.PlanBaseTable(catalog, t);
      case CrossProduct(l, r') =>
        var left :- PlanTableRef(l, at + [0], n);
        var right :- PlanTableRef(r', at + [1], n);
        return Ok(NestedLoopJoin(left.schema + right.schema, left, right, Constant(Bool(true)), INNER));
      case JoinRef(l, r', condition, joinType) =>
        var left :- PlanTableRef(l, at + [0], n);
        var right :- PlanTableRef(r', at + [1], n);
        NoCallTaken(condition, [left.schema, right.schema]);
        var e :- PlanExpression(condition, [left.schema, right.schema]);
        return Ok(NestedLoopJoin(left.schema + right.schema, left, right, e.expr, joinType));
      case ExpressionList(values, identifier) => r := PlanExpressionListRef(values, identifier);
      case SubqueryRef(q) =>
        assert WellBoundQuery(q);
        r := PlanSubquery(q, at + [0], q.alias, n);
      case CteRef(name, alias) =>
        var list, i := ctx.ctes, 0;
        while i < |list.entries|
          invariant 0 <= i <= |list.entries| && ctx == old(ctx)
          invariant universalId == old(universalId) && replaced == old(replaced)
          invariant forall j :: 0 <= j < i ==> list.entries[j].alias != name
        {
          if list.entries[i].alias == name {
            assert FindCte(list.entries, name) == Some(i);
            r := PlanSubquery(list.entries[i], list.at + [i], alias, n - 1);
            return;
          }
          i := i + 1;
        }
        return Throws;
      case EmptyRef => return Throws;
    }
  }
}
