/**
 Executors that are pulled for one row at a time, and the engine that polls them: what they yield is
 what `Rows` says of their plans.
 */
module Executors {
  import opened Options
  import opened Expressions
  import opened Plans

  /** Filters and projections over a list of values: the plans whose executors are written. */
  predicate Executable(p: Plan) {
    match p
    case Values(_, _) => true
    case Filter(_, _, c) => Executable(c)
    case Projection(_, _, c) => Executable(c)
    case _ => false
  }

  lemma FilterSkips(rows: seq<Row>, pred: Expr)
    requires rows != []
    ensures FilterRows(rows, pred) == if Passes(Eval(pred, rows[0])) then [rows[0]] + FilterRows(rows[1..], pred)
                                      else FilterRows(rows[1..], pred)
  {
  }

  class Executor {
    const plan: Plan
    const child: Executor?
    ghost const repr: set<Executor>
    var cursor: nat

    /** The shape of an executor, which follows its plan and never changes. */
    ghost predicate Valid()
      decreases repr
    {
      && this in repr
      && if child == null then plan.Values?
         else
           && (plan.Filter? || plan.Projection?) && child.plan == plan.child
           && child in repr && child.repr <= repr - {this} && child.Valid()
    }

    /** The rows still to come. */
    ghost function Rest(): seq<Row>
      requires Valid()
      reads this, repr
      decreases repr
    {
      if child == null then (if cursor >= |plan.exprs| then [] else ValuesRows(plan.exprs[cursor..]))
      else if plan.Filter? then FilterRows(child.Rest(), plan.pred)
      else ProjectRows(child.Rest(), plan.expressions)
    }

    /** The executor of a node around that of its child. */
    constructor (plan: Plan, child: Executor?)
      requires Executable(plan)
      requires if plan.Values? then child == null else child != null && child.Valid() && child.plan == plan.child
      ensures Valid() && this.plan == plan && this.child == child
      ensures repr == (if child == null then {} else child.repr) + {this}
    {
      this.plan, this.child, this.cursor := plan, child, 0;
      this.repr := (if child == null then {} else child.repr) + {this};
    }

    /** Makes the executor start over. */
    method Init()
      requires Valid()
      modifies repr
      ensures forall db :: Rows(plan, db) == Some(Rest())
      decreases repr
    {
      match plan
      case Values(_, exprs) =>
        cursor := 0;
        assert exprs[0..] == exprs;
      case Filter(_, _, _) => child.Init();
      case Projection(_, _, _) => child.Init();
    }

    /** Yields the next row, if there is one. */
    method Next() returns (row: Option<Row>)
      requires Valid()
      modifies repr
      ensures if old(Rest()) == [] then row == None && Rest() == []
              else row == Some(old(Rest())[0]) && Rest() == old(Rest())[1..]
      decreases repr
    {
      match plan
      case Values(_, exprs) =>
        if cursor >= |exprs| { return None; }
        ghost var before := cursor;
        var values := Evaluate(exprs[cursor], []);
        cursor := cursor + 1;
        assert exprs[before..][1..] == exprs[cursor..];
        return Some(values);
      case Filter(_, pred, _) =>
        while true
          invariant Rest() == old(Rest())
          decreases |child.Rest()|
        {
          ghost var rows := child.Rest();
          row := child.Next();
          if row.None? { return; }
          FilterSkips(rows, pred);
          if Passes(Eval(pred, row.value)) { return; }
        }
      case Projection(_, exprs, _) =>
        var below := child.Next();
        if below.None? { return None; }
        var values := Evaluate(exprs, below.value);
        return Some(values);
    }
  }

  /** Evaluates expressions from left to right on a row; those of a values list are given an empty one. */
  method Evaluate(exprs: seq<Expr>, row: Row) returns (values: Row)
    ensures values == EvalAll(exprs, row)
  {
    values := [];
    var i := 0;
    assert exprs[0..] == exprs;
    while i < |exprs|
      invariant 0 <= i <= |exprs|
      invariant EvalAll(exprs, row) == values + EvalAll(exprs[i..], row)
    {
      assert exprs[i..][1..] == exprs[i + 1..];
      values := values + [Eval(exprs[i], row)];
      i := i + 1;
    }
  }

  /** Builds the executor of a plan. */
  method CreateExecutor(plan: Plan) returns (e: Executor)
    requires Executable(plan)
    ensures e.Valid() && e.plan == plan && fresh(e.repr)
  {
    match plan
    case Values(_, _) => e := new Executor(plan, null);
    case Filter(_, _, c) =>
      var child := CreateExecutor(c);
      e := new Executor(plan, child);
    case Projection(_, _, c) =>
      var child := CreateExecutor(c);
      e := new Executor(plan, child);
  }

  /** Polls an executor until it has no more rows. */
  method PollExecutor(e: Executor) returns (rows: seq<Row>)
    requires e.Valid()
    modifies e.repr
    ensures rows == old(e.Rest()) && e.Rest() == []
  {
    rows := [];
    var row := e.Next();
    while row.Some?
      invariant old(e.Rest()) == rows + (if row.Some? then [row.value] else []) + e.Rest()
      invariant row.None? ==> e.Rest() == []
      decreases |e.Rest()| + (if row.Some? then 1 else 0)
    {
      rows := rows + [row.value];
      row := e.Next();
    }
  }

  /** Executes a plan: all its rows, in order. */
  method Execute(plan: Plan, ghost db: Database) returns (rows: seq<Row>)
    requires Executable(plan)
    ensures Rows(plan, db) == Some(rows)
  {
    var e := CreateExecutor(plan);
    e.Init();
    rows := PollExecutor(e);
  }
}
