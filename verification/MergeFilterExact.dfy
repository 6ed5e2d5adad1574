/**
 Merging a filter into a nested loop join, without the conditions of `OptimizerSoundness`: the rule looks
 neither at the join type nor at which constant the join predicate is, and this module says exactly
 when it keeps the rows all the same.
 */
module MergeFilterExact {
  import opened Options
  import opened Expressions
  import opened Plans
  import opened Optimizer
  import opened OptimizerSoundness

  // ----- sequences made of one block per row -----

  ghost function Blocks(ls: seq<Row>, f: Row -> seq<Row>): seq<Row> {
    if ls == [] then [] else f(ls[0]) + Blocks(ls[1..], f)
  }

  /** When no block of `f` is longer than that of `g`, equal sequences have equal blocks. */
  lemma {:induction false} SameBlocks(ls: seq<Row>, f: Row -> seq<Row>, g: Row -> seq<Row>)
    requires forall i :: 0 <= i < |ls| ==> |f(ls[i])| <= |g(ls[i])|
    ensures |Blocks(ls, f)| <= |Blocks(ls, g)|
    ensures Blocks(ls, f) == Blocks(ls, g) <==> forall i :: 0 <= i < |ls| ==> f(ls[i]) == g(ls[i])
  {
    if ls != [] {
      var (a, b) := (Blocks(ls[1..], f), Blocks(ls[1..], g));
      assert forall i :: 0 <= i < |ls[1..]| ==> ls[1..][i] == ls[i + 1];
      SameBlocks(ls[1..], f, g);
      if Blocks(ls, f) == Blocks(ls, g) {
        assert f(ls[0]) == Blocks(ls, f)[..|f(ls[0])|] == Blocks(ls, g)[..|g(ls[0])|] == g(ls[0]);
        assert a == Blocks(ls, f)[|f(ls[0])|..] == Blocks(ls, g)[|g(ls[0])|..] == b;
        assert forall i :: 1 <= i < |ls| ==> ls[i] == ls[1..][i - 1];
      }
    }
  }

  /** What one left row contributes before and after merging. */
  ghost function FilteredBlock(l: Row, rs: seq<Row>, c: Value, e: Expr, outer: bool, nulls: Row): seq<Row> {
    FilterRows(JoinBlock(l, LoopMatches(l, rs, Constant(c)), outer, nulls), e)
  }

  ghost function MergedBlock(l: Row, rs: seq<Row>, e': Expr, outer: bool, nulls: Row): seq<Row> {
    JoinBlock(l, LoopMatches(l, rs, e'), outer, nulls)
  }

  lemma {:induction false} FilteredBlocks(ls: seq<Row>, rs: seq<Row>, c: Value, e: Expr, outer: bool, nulls: Row)
    ensures FilterRows(LoopJoin(ls, rs, Constant(c), outer, nulls), e)
            == Blocks(ls, l => FilteredBlock(l, rs, c, e, outer, nulls))
  {
    if ls != [] {
      LoopJoinStep(ls, rs, Constant(c), outer, nulls);
      FilteredBlocks(ls[1..], rs, c, e, outer, nulls);
      FilterConcat(JoinBlock(ls[0], LoopMatches(ls[0], rs, Constant(c)), outer, nulls),
                   LoopJoin(ls[1..], rs, Constant(c), outer, nulls), e);
    }
  }

  lemma {:induction false} MergedBlocks(ls: seq<Row>, rs: seq<Row>, e': Expr, outer: bool, nulls: Row)
    ensures LoopJoin(ls, rs, e', outer, nulls) == Blocks(ls, l => MergedBlock(l, rs, e', outer, nulls))
  {
    if ls != [] {
      LoopJoinStep(ls, rs, e', outer, nulls);
      MergedBlocks(ls[1..], rs, e', outer, nulls);
    }
  }

  // ----- one block -----

  /** The rows of the right side, or the null row when there are none. */
  ghost function OrNulls(rs: seq<Row>, nulls: Row): seq<Row> {
    if rs == [] then [nulls] else rs
  }

  /**
   Merging is safe for a left row when
   - the join predicate is the boolean true: always for INNER, and for LEFT if the filter passes the row
     with some right row (with the null row if the right side is empty);
   - the join predicate is another constant that reads as true, on which no rows match: for INNER if
     the filter passes the row with no right row, and for LEFT if it passes it with the null row and
     with no other right row, nor with the null row twice.
   */
  ghost predicate SafeFor(l: Row, rs: seq<Row>, c: Value, e: Expr, outer: bool, nulls: Row) {
    if c == Bool(true) then
      outer ==> exists i :: 0 <= i < |OrNulls(rs, nulls)| && Passes(Eval(e, l + OrNulls(rs, nulls)[i]))
    else if !outer then
      forall i :: 0 <= i < |rs| ==> !Passes(Eval(e, l + rs[i]))
    else
      Passes(Eval(e, l + nulls)) && AtMostOnce(l, rs, e, nulls)
  }

  /** The partners of `l` under the rewritten filter are the right rows that the filter passes. */
  lemma {:induction false} MatchesArePassing(l: Row, rs: seq<Row>, e: Expr, e': Expr, n: nat)
    requires Wide(rs, n) && InRange(e, |l| + n) && RewriteForJoin(e, |l|, n) == Ok(e')
    ensures LoopMatches(l, rs, e') == [] <==> forall i :: 0 <= i < |rs| ==> !Passes(Eval(e, l + rs[i]))
  {
    hide RewriteForJoin, Eval, EvalJoin, InRange;
    if rs != [] {
      RewriteKeepsValue(e, l, rs[0]);
      MatchesArePassing(l, rs[1..], e, e', n);
      assert forall i :: 1 <= i < |rs| ==> rs[i] == rs[1..][i - 1];
      assert forall i :: 0 <= i < |rs[1..]| ==> rs[1..][i] == rs[i + 1];
    }
  }

  ghost predicate AtMostOnce(l: Row, rs: seq<Row>, e: Expr, r: Row) {
    && (forall i :: 0 <= i < |rs| && Passes(Eval(e, l + rs[i])) ==> rs[i] == r)
    && (forall i, j :: 0 <= i < j < |rs| ==> !(Passes(Eval(e, l + rs[i])) && Passes(Eval(e, l + rs[j]))))
  }

  lemma AtMostOnceStep(l: Row, rs: seq<Row>, e: Expr, r: Row)
    requires rs != []
    ensures AtMostOnce(l, rs, e, r) <==>
            if Passes(Eval(e, l + rs[0]))
            then rs[0] == r && forall i :: 0 <= i < |rs[1..]| ==> !Passes(Eval(e, l + rs[1..][i]))
            else AtMostOnce(l, rs[1..], e, r)
  {
    hide Eval;
    assert forall i :: 1 <= i < |rs| ==> rs[i] == rs[1..][i - 1];
    assert forall i :: 0 <= i < |rs[1..]| ==> rs[1..][i] == rs[i + 1];
  }

  /** ... and they are at most the row `r` when `r` is the only such row and occurs once. */
  lemma {:induction false} OnePassing(l: Row, rs: seq<Row>, e: Expr, e': Expr, r: Row)
    requires Wide(rs, |r|) && InRange(e, |l| + |r|) && RewriteForJoin(e, |l|, |r|) == Ok(e')
    ensures (LoopMatches(l, rs, e') == [] || LoopMatches(l, rs, e') == [r]) <==> AtMostOnce(l, rs, e, r)
  {
    hide RewriteForJoin, Eval, EvalJoin, InRange;
    if rs != [] {
      RewriteKeepsValue(e, l, rs[0]);
      OnePassing(l, rs[1..], e, e', r);
      MatchesArePassing(l, rs[1..], e, e', |r|);
      AtMostOnceStep(l, rs, e, r);
      hide AtMostOnce;
      var ms := LoopMatches(l, rs[1..], e');
      assert [] + ms == ms;
      assert LoopMatches(l, rs, e') == if Passes(Eval(e, l + rs[0])) then [rs[0]] + ms else ms;
      assert [rs[0]] + ms == [r] <==> ms == [] && rs[0] == r by {
        if [rs[0]] + ms == [r] {
          assert |[rs[0]] + ms| == 1 && ([rs[0]] + ms)[0] == rs[0];
        } else if ms == [] {
          assert [rs[0]] + ms == [rs[0]];
        }
      }
    }
  }

  lemma {:induction false} NoneMatch(l: Row, rs: seq<Row>, c: Value)
    requires c != Bool(true)
    ensures LoopMatches(l, rs, Constant(c)) == []
  {
    if rs != [] { NoneMatch(l, rs[1..], c); }
  }

  lemma {:induction false} ExtensionsSize(l: Row, ms: seq<Row>)
    ensures |Extensions(l, ms)| == |ms|
    ensures forall i :: 0 <= i < |ms| ==> Extensions(l, ms)[i] == l + ms[i]
  {
    if ms != [] { ExtensionsSize(l, ms[1..]); }
  }

  lemma FilterOne(r: Row, e: Expr)
    ensures FilterRows([r], e) == if Passes(Eval(e, r)) then [r] else []
  {
    assert FilterRows([r][1..], e) == [] && [r] + [] == [r];
  }

  /** A LEFT join on true with an empty right side. */
  lemma BlockOnEmpty(l: Row, e: Expr, e': Expr, nulls: Row)
    ensures |FilteredBlock(l, [], Bool(true), e, true, nulls)| <= |MergedBlock(l, [], e', true, nulls)|
    ensures FilteredBlock(l, [], Bool(true), e, true, nulls) == MergedBlock(l, [], e', true, nulls)
            <==> SafeFor(l, [], Bool(true), e, true, nulls)
  {
    FilterOne(l + nulls, e);
    assert OrNulls([], nulls)[0] == nulls;
    hide FilterRows, Eval;
  }

  lemma SafeOnTrue(l: Row, rs: seq<Row>, e: Expr, e': Expr, nulls: Row)
    requires Wide(rs, |nulls|) && InRange(e, |l| + |nulls|) && RewriteForJoin(e, |l|, |nulls|) == Ok(e') && rs != []
    ensures SafeFor(l, rs, Bool(true), e, true, nulls) <==> LoopMatches(l, rs, e') != []
  {
    MatchesArePassing(l, rs, e, e', |nulls|);
    hide RewriteForJoin, Eval, InRange, LoopMatches;
    assert OrNulls(rs, nulls) == rs;
    if LoopMatches(l, rs, e') != [] {
      var i :| 0 <= i < |rs| && Passes(Eval(e, l + rs[i]));
      assert OrNulls(rs, nulls)[i] == rs[i];
    }
  }

  /** A LEFT join on true with right rows. */
  lemma BlockOnLeft(l: Row, rs: seq<Row>, e: Expr, e': Expr, nulls: Row)
    requires Wide(rs, |nulls|) && InRange(e, |l| + |nulls|) && RewriteForJoin(e, |l|, |nulls|) == Ok(e') && rs != []
    ensures |FilteredBlock(l, rs, Bool(true), e, true, nulls)| <= |MergedBlock(l, rs, e', true, nulls)|
    ensures FilteredBlock(l, rs, Bool(true), e, true, nulls) == MergedBlock(l, rs, e', true, nulls)
            <==> SafeFor(l, rs, Bool(true), e, true, nulls)
  {
    SafeOnTrue(l, rs, e, e', nulls);
    AllMatch(l, rs);
    FilterBlock(l, rs, e, |nulls|);
    ExtensionsSize(l, LoopMatches(l, rs, e'));
    hide RewriteForJoin, InRange, LoopMatches, FilterRows, Extensions, SafeFor;
  }

  lemma BlockOnTrue(l: Row, rs: seq<Row>, e: Expr, e': Expr, outer: bool, nulls: Row)
    requires Wide(rs, |nulls|) && InRange(e, |l| + |nulls|) && RewriteForJoin(e, |l|, |nulls|) == Ok(e')
    ensures |FilteredBlock(l, rs, Bool(true), e, outer, nulls)| <= |MergedBlock(l, rs, e', outer, nulls)|
    ensures FilteredBlock(l, rs, Bool(true), e, outer, nulls) == MergedBlock(l, rs, e', outer, nulls)
            <==> SafeFor(l, rs, Bool(true), e, outer, nulls)
  {
    hide InRange, RewriteForJoin, LoopMatches, FilterRows, JoinBlock;
    if !outer {
      FilterInnerBlock(l, rs, e, nulls, |nulls|);
    } else if rs == [] {
      BlockOnEmpty(l, e, e', nulls);
    } else {
      BlockOnLeft(l, rs, e, e', nulls);
    }
  }

  lemma BlockOnOther(l: Row, rs: seq<Row>, c: Value, e: Expr, e': Expr, outer: bool, nulls: Row)
    requires Wide(rs, |nulls|) && InRange(e, |l| + |nulls|) && RewriteForJoin(e, |l|, |nulls|) == Ok(e')
             && c != Bool(true)
    ensures |FilteredBlock(l, rs, c, e, outer, nulls)| <= |MergedBlock(l, rs, e', outer, nulls)|
    ensures FilteredBlock(l, rs, c, e, outer, nulls) == MergedBlock(l, rs, e', outer, nulls)
            <==> SafeFor(l, rs, c, e, outer, nulls)
  {
    NoneMatch(l, rs, c);
    MatchesArePassing(l, rs, e, e', |nulls|);
    OnePassing(l, rs, e, e', nulls);
    var ms := LoopMatches(l, rs, e');
    LoopMatchesWide(l, rs, e', |nulls|);
    ExtensionsSize(l, ms);
    FilterOne(l + nulls, e);
    assert FilterRows([], e) == [];
    hide RewriteForJoin, Eval, EvalJoin, InRange, LoopMatches, FilterRows, Extensions, AtMostOnce;
    if outer && ms != [] {
      assert (l + ms[0])[|l|..] == ms[0] && (l + nulls)[|l|..] == nulls;
      assert Extensions(l, ms) == [l + nulls] <==> ms == [nulls];
    }
  }

  lemma BlockIff(l: Row, rs: seq<Row>, c: Value, e: Expr, e': Expr, outer: bool, nulls: Row)
    requires Wide(rs, |nulls|) && InRange(e, |l| + |nulls|) && RewriteForJoin(e, |l|, |nulls|) == Ok(e')
    ensures |FilteredBlock(l, rs, c, e, outer, nulls)| <= |MergedBlock(l, rs, e', outer, nulls)|
    ensures FilteredBlock(l, rs, c, e, outer, nulls) == MergedBlock(l, rs, e', outer, nulls)
            <==> SafeFor(l, rs, c, e, outer, nulls)
  {
    if c == Bool(true) {
      BlockOnTrue(l, rs, e, e', outer, nulls);
    } else {
      BlockOnOther(l, rs, c, e, e', outer, nulls);
    }
  }

  // ----- the rule -----

  lemma JoinIff(ls: seq<Row>, rs: seq<Row>, c: Value, e: Expr, e': Expr, outer: bool, nulls: Row, m: nat)
    requires Wide(ls, m) && Wide(rs, |nulls|) && InRange(e, m + |nulls|) && RewriteForJoin(e, m, |nulls|) == Ok(e')
    ensures FilterRows(LoopJoin(ls, rs, Constant(c), outer, nulls), e) == LoopJoin(ls, rs, e', outer, nulls)
            <==> forall i :: 0 <= i < |ls| ==> SafeFor(ls[i], rs, c, e, outer, nulls)
  {
    FilteredBlocks(ls, rs, c, e, outer, nulls);
    MergedBlocks(ls, rs, e', outer, nulls);
    hide RewriteForJoin, InRange, LoopJoin, FilterRows, SafeFor, FilteredBlock, MergedBlock;
    var f := l => FilteredBlock(l, rs, c, e, outer, nulls);
    var g := l => MergedBlock(l, rs, e', outer, nulls);
    forall i | 0 <= i < |ls|
      ensures |f(ls[i])| <= |g(ls[i])|
      ensures f(ls[i]) == g(ls[i]) <==> SafeFor(ls[i], rs, c, e, outer, nulls)
    {
      BlockIff(ls[i], rs, c, e, e', outer, nulls);
    }
    SameBlocks(ls, f, g);
  }

  ghost function FilterOverJoin(s: Schema, s': Schema, l: Plan, r: Plan, c: Value, e: Expr, t: JoinType): Plan {
    Filter(s, e, NestedLoopJoin(s', l, r, Constant(c), t))
  }

  /**
   The rule on a filter over a join whose predicate is a constant that reads as true: it keeps the rows
   exactly when it is safe for every left row.
   */
  lemma MergeFilterNLJIff(s: Schema, s': Schema, l: Plan, r: Plan, c: Value, e: Expr, t: JoinType, db: Database,
                          ls: seq<Row>, rs: seq<Row>)
    requires CastToBool(c) == Ok(true) && Joinable(t)
    requires Rows(l, db) == Some(ls) && Wide(ls, |l.schema|)
    requires Rows(r, db) == Some(rs) && Wide(rs, |r.schema|)
    requires InRange(e, |l.schema| + |r.schema|)
    ensures var q := FilterOverJoin(s, s', l, r, c, e, t);
            && MergeFilterNLJ(q).Ok?
            && (Rows(MergeFilterNLJ(q).value, db) == Rows(q, db)
                <==> forall i :: 0 <= i < |ls| ==> SafeFor(ls[i], rs, c, e, t == LEFT, Nulls(r.schema)))
  {
    var q := FilterOverJoin(s, s', l, r, c, e, t);
    RewriteKeepsConstant(e, |l.schema|, |r.schema|);
    NullsByTypes(r.schema, r.schema);
    var e' := RewriteForJoin(e, |l.schema|, |r.schema|).value;
    assert MergeFilterNLJ(q) == Ok(NestedLoopJoin(s, l, r, e', t));
    RowsOfLoopJoin(s', l, r, Constant(c), t, db);
    RowsOfLoopJoin(s, l, r, e', t, db);
    RowsOfFilter(s, e, q.child, db);
    hide RewriteForJoin, InRange, LoopJoin, Rows, Wide, FilterRows, Nulls, MergeFilterNLJ, SafeFor;
    JoinIff(ls, rs, c, e, e', t == LEFT, Nulls(r.schema), |l.schema|);
  }

  // ----- two plans the rule changes -----

  const ONE_COLUMN: Schema := [Column("x", INTEGER)]

  function OneValue(i: int): Plan {
    Values(ONE_COLUMN, [[Constant(Int(i))]])
  }

  lemma OneRow(i: int, db: Database)
    ensures Rows(OneValue(i), db) == Some([[Int(i)]])
  {
    var es := [[Constant(Int(i))]];
    assert es[1..] == [] && es[0][1..] == [];
    assert EvalAll(es[0], []) == [Int(i)];
    assert ValuesRows(es) == [[Int(i)]];
  }

  /** A LEFT join on true below `x = y`: the filter has no rows, the merged join keeps the left row. */
  lemma LeftJoinChanged(db: Database)
    ensures var q := FilterOverJoin([], [], OneValue(1), OneValue(2), Bool(true),
                                    Comparison(Equal, ColumnValue(0, 0, INTEGER), ColumnValue(0, 1, INTEGER)), LEFT);
            MergeFilterNLJ(q).Ok? && Rows(MergeFilterNLJ(q).value, db) != Rows(q, db)
  {
    OneRow(1, db);
    OneRow(2, db);
    var e := Comparison(Equal, ColumnValue(0, 0, INTEGER), ColumnValue(0, 1, INTEGER));
    MergeFilterNLJIff([], [], OneValue(1), OneValue(2), Bool(true), e, LEFT, db, [[Int(1)]], [[Int(2)]]);
    var row := [Int(1)] + [Int(2)];
    assert row == [Int(1), Int(2)];
    assert !Passes(Eval(e, row));
    assert !SafeFor([[Int(1)]][0], [[Int(2)]], Bool(true), e, true, Nulls(ONE_COLUMN));
  }

  /** An INNER join on a null boolean has no rows; merging a filter into it brings rows back. */
  lemma NullPredicateChanged(db: Database)
    ensures var q := FilterOverJoin([], [], OneValue(1), OneValue(1), Null(BOOLEAN),
                                    Comparison(Equal, ColumnValue(0, 0, INTEGER), ColumnValue(0, 1, INTEGER)), INNER);
            MergeFilterNLJ(q).Ok? && Rows(MergeFilterNLJ(q).value, db) != Rows(q, db)
  {
    OneRow(1, db);
    var e := Comparison(Equal, ColumnValue(0, 0, INTEGER), ColumnValue(0, 1, INTEGER));
    MergeFilterNLJIff([], [], OneValue(1), OneValue(1), Null(BOOLEAN), e, INNER, db, [[Int(1)]], [[Int(1)]]);
    var row := [Int(1)] + [[Int(1)]][0];
    assert row == [Int(1), Int(1)];
    assert Passes(Eval(e, row));
    assert !SafeFor([[Int(1)]][0], [[Int(1)]], Null(BOOLEAN), e, false, Nulls(ONE_COLUMN));
  }
}
