/**
 The laws expressions obey, in terms of the integers, strings and truth values they are about.  They hold for
 evaluation over one row and over the two rows of a join.
 */
module ExpressionLaws {
  import opened Expressions

  /** One step of evaluation. */
  lemma EvalStep(e: Expr, row: Row, left: Row, right: Row)
    ensures e.Arithmetic? ==>
              && Eval(e, row) == Compute(e.arith, Eval(e.left, row), Eval(e.right, row))
              && EvalJoin(e, left, right) ==
                 Compute(e.arith, EvalJoin(e.left, left, right), EvalJoin(e.right, left, right))
    ensures e.Comparison? ==>
              && Eval(e, row) == BooleanValue(Compare(e.cmp, Eval(e.left, row), Eval(e.right, row)))
              && EvalJoin(e, left, right) ==
                 BooleanValue(Compare(e.cmp, EvalJoin(e.left, left, right), EvalJoin(e.right, left, right)))
    ensures e.Logic? ==>
              && Eval(e, row) ==
                 BooleanValue(Combine(e.logic, AsCmpBool(Eval(e.left, row)), AsCmpBool(Eval(e.right, row))))
              && EvalJoin(e, left, right) ==
                 BooleanValue(Combine(e.logic, AsCmpBool(EvalJoin(e.left, left, right)),
                                      AsCmpBool(EvalJoin(e.right, left, right))))
  {
    hide Compute, BooleanValue, Compare, Combine, AsCmpBool;
  }

  // ----- arithmetic -----

  const MODULUS := 0x1_0000_0000

  ghost predicate FitsInt(i: int) {
    -0x8000_0000 <= i < 0x8000_0000
  }

  /** `v` is the integer `i` of arithmetic, modulo two to the 32, in the range of a 32-bit integer. */
  ghost predicate IsInt32(v: Value, i: int) {
    v.Int? && FitsInt(v.i) && exists m: int :: v.i == i + m * MODULUS
  }

  /** `v` is `n`, if both operands are integers; and null exactly if one is not. */
  ghost predicate IsResult(l: Value, r: Value, n: int, v: Value) {
    if l.Int? && r.Int? then IsInt32(v, n) else v == Null(INTEGER)
  }

  lemma WrapIs(i: int)
    ensures IsInt32(Int(Wrap32(i)), i)
  {
    var m := -((i + 0x8000_0000) / MODULUS);
    assert Wrap32(i) == i + m * MODULUS;
  }

  /** A 32-bit integer has one representative. */
  lemma OneInt32(v: Value, w: Value, i: int)
    requires IsInt32(v, i) && IsInt32(w, i)
    ensures v == w
  {
    var m: int :| v.i == i + m * MODULUS;
    var n: int :| w.i == i + n * MODULUS;
    assert v.i - w.i == (m - n) * MODULUS;
  }

  ghost function IntOf(v: Value): int {
    if v.Int? then v.i else 0
  }

  /** Plus and minus are the sum and the difference of the integers, modulo two to the 32. */
  lemma ArithmeticLaw(l: Expr, r: Expr, row: Row, left: Row, right: Row)
    ensures var (v, w) := (Eval(l, row), Eval(r, row));
            && IsResult(v, w, IntOf(v) + IntOf(w), Eval(Arithmetic(Plus, l, r), row))
            && IsResult(v, w, IntOf(v) - IntOf(w), Eval(Arithmetic(Minus, l, r), row))
    ensures var (v, w) := (EvalJoin(l, left, right), EvalJoin(r, left, right));
            && IsResult(v, w, IntOf(v) + IntOf(w), EvalJoin(Arithmetic(Plus, l, r), left, right))
            && IsResult(v, w, IntOf(v) - IntOf(w), EvalJoin(Arithmetic(Minus, l, r), left, right))
  {
    hide *;
    EvalStep(Arithmetic(Plus, l, r), row, left, right);
    EvalStep(Arithmetic(Minus, l, r), row, left, right);
    ComputeIs(Eval(l, row), Eval(r, row));
    ComputeIs(EvalJoin(l, left, right), EvalJoin(r, left, right));
  }

  lemma ComputeIs(v: Value, w: Value)
    ensures IsResult(v, w, IntOf(v) + IntOf(w), Compute(Plus, v, w))
    ensures IsResult(v, w, IntOf(v) - IntOf(w), Compute(Minus, v, w))
  {
    WrapIs(IntOf(v) + IntOf(w));
    WrapIs(IntOf(v) - IntOf(w));
    hide IsInt32, Wrap32;
  }

  /** A result that fits is the result itself. */
  lemma FittingResult(v: Value, w: Value, n: int, x: Value)
    requires IsResult(v, w, n, x) && v.Int? && w.Int? && FitsInt(n)
    ensures x == Int(n)
  {
    assert Int(n).i == n + 0 * MODULUS;
    OneInt32(x, Int(n), n);
  }

  /** Adding zero changes nothing, the order does not matter, and the difference takes the sum back. */
  lemma SumLaws(l: Expr, r: Expr, row: Row)
    requires Eval(l, row).Int? && Eval(r, row).Int? && FitsInt(Eval(l, row).i)
    ensures Eval(Arithmetic(Plus, l, Constant(Int(0))), row) == Eval(l, row)
    ensures Eval(Arithmetic(Plus, l, r), row) == Eval(Arithmetic(Plus, r, l), row)
    ensures Eval(Arithmetic(Minus, Arithmetic(Plus, l, r), r), row) == Eval(l, row)
  {
    hide *;
    EvalConstant(Int(0), row);
    EvalStep(Arithmetic(Plus, l, Constant(Int(0))), row, [], []);
    EvalStep(Arithmetic(Plus, l, r), row, [], []);
    EvalStep(Arithmetic(Plus, r, l), row, [], []);
    EvalStep(Arithmetic(Minus, Arithmetic(Plus, l, r), r), row, [], []);
    ComputeLaws(Eval(l, row), Eval(r, row));
  }

  lemma EvalConstant(v: Value, row: Row)
    ensures Eval(Constant(v), row) == v
  {
  }

  lemma ComputeLaws(v: Value, w: Value)
    requires v.Int? && w.Int? && FitsInt(v.i)
    ensures Compute(Plus, v, Int(0)) == v
    ensures Compute(Plus, v, w) == Compute(Plus, w, v)
    ensures Compute(Minus, Compute(Plus, v, w), w) == v
  {
    var x := Compute(Plus, v, w);
    ComputeIs(v, Int(0));
    ComputeIs(v, w);
    ComputeIs(w, v);
    ComputeIs(x, w);
    assert x == Int(IntOf(x));
    hide Compute, IsInt32, FitsInt;
    FittingResult(v, Int(0), v.i, Compute(Plus, v, Int(0)));
    OneInt32(x, Compute(Plus, w, v), v.i + w.i);
    Shifted(IntOf(x), v.i + w.i, w.i, Compute(Minus, x, w));
    FittingResult(v, w, v.i, Compute(Minus, x, w));
  }

  lemma Shifted(i: int, j: int, d: int, v: Value)
    requires IsInt32(Int(i), j) && IsInt32(v, i - d)
    ensures IsInt32(v, j - d)
  {
    var m: int :| i == j + m * MODULUS;
    var n: int :| v.i == i - d + n * MODULUS;
    assert v.i == j - d + (m + n) * MODULUS;
  }

  // ----- comparison -----

  /** Strings come in the order of their first difference, and a string after its beginnings. */
  ghost predicate Earlier(s: string, t: string) {
    s < t || exists k: nat :: k < |s| && k < |t| && s[..k] == t[..k] && s[k] < t[k]
  }

  lemma {:induction false} StringLessIs(s: string, t: string)
    ensures StringLess(s, t) <==> Earlier(s, t)
  {
    if s != [] && t != [] {
      StringLessIs(s[1..], t[1..]);
      if s[0] == t[0] {
        EarlierTail(s, t);
      } else {
        EarlierHead(s, t);
      }
    } else if t != [] {
      assert s < t;
    }
  }

  lemma EarlierHead(s: string, t: string)
    requires s != [] && t != [] && s[0] != t[0]
    ensures Earlier(s, t) <==> s[0] < t[0]
  {
    assert s[..0] == t[..0];
    assert forall k: nat :: 0 < k < |s| && k < |t| ==> s[..k][0] == s[0] && t[..k][0] == t[0];
  }

  lemma EarlierTail(s: string, t: string)
    requires s != [] && t != [] && s[0] == t[0]
    ensures Earlier(s, t) <==> Earlier(s[1..], t[1..])
  {
    assert s == [s[0]] + s[1..] && t == [t[0]] + t[1..];
    if Earlier(s, t) && !(s < t) {
      var k: nat :| k < |s| && k < |t| && s[..k] == t[..k] && s[k] < t[k];
      assert s[1..][..k - 1] == s[..k][1..] && t[1..][..k - 1] == t[..k][1..];
      assert s[1..][k - 1] < t[1..][k - 1];
    }
    if Earlier(s[1..], t[1..]) && !(s[1..] < t[1..]) {
      var k: nat :| k < |s[1..]| && k < |t[1..]| && s[1..][..k] == t[1..][..k] && s[1..][k] < t[1..][k];
      assert s[..k + 1] == [s[0]] + s[1..][..k] && t[..k + 1] == [t[0]] + t[1..][..k];
      assert s[k + 1] < t[k + 1];
    }
    if s < t { assert s[1..] <= t[1..]; }
  }

  /** The order of two values of one kind, spelt out. */
  ghost predicate Precedes(v: Value, w: Value) {
    || (v.Int? && w.Int? && v.i < w.i)
    || (v.Bool? && w.Bool? && !v.b && w.b)
    || (v.Str? && w.Str? && Earlier(v.s, w.s))
  }

  ghost predicate Comparable(v: Value, w: Value) {
    (v.Int? && w.Int?) || (v.Bool? && w.Bool?) || (v.Str? && w.Str?)
  }

  ghost predicate Holds(op: ComparisonType, v: Value, w: Value) {
    match op
    case Equal => v == w
    case NotEqual => v != w
    case LessThan => Precedes(v, w)
    case LessThanOrEqual => Precedes(v, w) || v == w
    case GreaterThan => Precedes(w, v)
    case GreaterThanOrEqual => Precedes(w, v) || v == w
  }

  /** A comparison is true or false as the values are ordered, and null exactly if they have no order. */
  lemma ComparisonLaw(op: ComparisonType, l: Expr, r: Expr, row: Row, left: Row, right: Row)
    ensures var (v, w) := (Eval(l, row), Eval(r, row));
            Eval(Comparison(op, l, r), row) == if Comparable(v, w) then Bool(Holds(op, v, w)) else Null(BOOLEAN)
    ensures var (v, w) := (EvalJoin(l, left, right), EvalJoin(r, left, right));
            EvalJoin(Comparison(op, l, r), left, right) ==
            if Comparable(v, w) then Bool(Holds(op, v, w)) else Null(BOOLEAN)
  {
    hide *;
    EvalStep(Comparison(op, l, r), row, left, right);
    CompareIs(op, Eval(l, row), Eval(r, row));
    CompareIs(op, EvalJoin(l, left, right), EvalJoin(r, left, right));
  }

  lemma CompareIs(op: ComparisonType, v: Value, w: Value)
    ensures BooleanValue(Compare(op, v, w)) == if Comparable(v, w) then Bool(Holds(op, v, w)) else Null(BOOLEAN)
  {
    LessIs(v, w);
    LessIs(w, v);
    if Comparable(v, w) { Trichotomy(v, w); }
    hide Precedes, Less;
  }

  lemma LessIs(v: Value, w: Value)
    ensures Comparable(v, w) ==> (Less(v, w) <==> Precedes(v, w))
  {
    if v.Str? && w.Str? { StringLessIs(v.s, w.s); }
  }

  /** Of two values that can be compared exactly one of less, equal and greater is true. */
  lemma Trichotomy(v: Value, w: Value)
    requires Comparable(v, w)
    ensures Precedes(v, w) || v == w || Precedes(w, v)
    ensures !(Precedes(v, w) && v == w) && !(Precedes(v, w) && Precedes(w, v))
  {
    LessIs(v, w);
    LessIs(w, v);
    LessTotal(v, w);
    LessAsymmetric(v, w);
    if v == w { LessAsymmetric(v, v); }
    hide Precedes, Less;
  }

  // ----- truth -----

  /** AND is true exactly if both operands are, and false exactly if one is; OR the other way round. */
  lemma LogicLaw(l: Expr, r: Expr, row: Row, left: Row, right: Row)
    ensures IsConjunction(Eval(l, row), Eval(r, row), Eval(Logic(And, l, r), row))
    ensures IsDisjunction(Eval(l, row), Eval(r, row), Eval(Logic(Or, l, r), row))
    ensures IsConjunction(EvalJoin(l, left, right), EvalJoin(r, left, right), EvalJoin(Logic(And, l, r), left, right))
    ensures IsDisjunction(EvalJoin(l, left, right), EvalJoin(r, left, right), EvalJoin(Logic(Or, l, r), left, right))
  {
    hide *;
    EvalStep(Logic(And, l, r), row, left, right);
    EvalStep(Logic(Or, l, r), row, left, right);
    CombineIs(Eval(l, row), Eval(r, row));
    CombineIs(EvalJoin(l, left, right), EvalJoin(r, left, right));
  }

  lemma CombineIs(v: Value, w: Value)
    ensures IsConjunction(v, w, BooleanValue(Combine(And, AsCmpBool(v), AsCmpBool(w))))
    ensures IsDisjunction(v, w, BooleanValue(Combine(Or, AsCmpBool(v), AsCmpBool(w))))
  {
  }

  ghost predicate IsConjunction(v: Value, w: Value, x: Value) {
    && (x == Bool(true) <==> v == Bool(true) && w == Bool(true))
    && (x == Bool(false) <==> v == Bool(false) || w == Bool(false))
    && (x == Bool(true) || x == Bool(false) || x == Null(BOOLEAN))
  }

  ghost predicate IsDisjunction(v: Value, w: Value, x: Value) {
    && (x == Bool(true) <==> v == Bool(true) || w == Bool(true))
    && (x == Bool(false) <==> v == Bool(false) && w == Bool(false))
    && (x == Bool(true) || x == Bool(false) || x == Null(BOOLEAN))
  }

  // ----- columns -----

  lemma ColumnLaw(t: nat, i: nat, ty: TypeId, row: Row, left: Row, right: Row)
    ensures i < |row| ==> Eval(ColumnValue(t, i, ty), row) == row[i]
    ensures t == 0 && i < |left| ==> EvalJoin(ColumnValue(t, i, ty), left, right) == left[i]
    ensures t != 0 && i < |right| ==> EvalJoin(ColumnValue(t, i, ty), left, right) == right[i]
  {
  }
}
