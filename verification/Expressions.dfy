/**
 Values with SQL nulls, and the expressions of plan nodes.  `Eval` is evaluation over one tuple,
 which ignores the tuple index of a column; `EvalJoin` is evaluation over the two tuples of a join.
 */
module Expressions {

  datatype TypeId = INVALID | BOOLEAN | INTEGER | VARCHAR

  datatype Value = Null(ty: TypeId) | Bool(b: bool) | Int(i: int) | Str(s: string)

  type Row = seq<Value>

  /** Three-valued truth. */
  datatype CmpBool = CmpFalse | CmpTrue | CmpNull

  datatype ComparisonType = Equal | NotEqual | LessThan | LessThanOrEqual | GreaterThan | GreaterThanOrEqual
  datatype ArithmeticType = Plus | Minus
  datatype LogicType = And | Or

  datatype Expr =
    | ColumnValue(tupleIdx: nat, colIdx: nat, ty: TypeId)
    | Constant(val: Value)
    | Comparison(cmp: ComparisonType, left: Expr, right: Expr)
    | Arithmetic(arith: ArithmeticType, left: Expr, right: Expr)
    | Logic(logic: LogicType, left: Expr, right: Expr)

  function TypeOf(v: Value): TypeId {
    match v
    case Null(ty) => ty
    case Bool(_) => BOOLEAN
    case Int(_) => INTEGER
    case Str(_) => VARCHAR
  }

  function ReturnType(e: Expr): TypeId {
    match e
    case ColumnValue(_, _, ty) => ty
    case Constant(v) => TypeOf(v)
    case Comparison(_, _, _) => BOOLEAN
    case Arithmetic(_, _, _) => INTEGER
    case Logic(_, _, _) => BOOLEAN
  }

  // ----- order of values -----

  predicate StringLess(s: string, t: string) {
    if t == [] then false
    else if s == [] then true
    else s[0] < t[0] || (s[0] == t[0] && StringLess(s[1..], t[1..]))
  }

  function Kind(v: Value): nat {
    match v
    case Null(_) => 0
    case Bool(_) => 1
    case Int(_) => 2
    case Str(_) => 3
  }

  /** A strict order of all values in which nulls come first; nulls of different types tie. */
  predicate Less(v: Value, w: Value) {
    if Kind(v) != Kind(w) then Kind(v) < Kind(w)
    else match v
      case Null(_) => false
      case Bool(b) => !b && w.b
      case Int(i) => i < w.i
      case Str(s) => StringLess(s, w.s)
  }

  lemma {:induction false} StringLessTotal(s: string, t: string)
    ensures StringLess(s, t) || StringLess(t, s) || s == t
    ensures !(StringLess(s, t) && StringLess(t, s))
    ensures !StringLess(s, s)
  {
    if s != [] && t != [] {
      StringLessTotal(s[1..], t[1..]);
      assert s == [s[0]] + s[1..] && t == [t[0]] + t[1..];
    }
    if s != [] { StringLessTotal(s[1..], s[1..]); }
  }

  lemma {:induction false} StringLessTransitive(s: string, t: string, u: string)
    requires StringLess(s, t) && StringLess(t, u)
    ensures StringLess(s, u)
  {
    if s != [] && s[0] == t[0] == u[0] {
      StringLessTransitive(s[1..], t[1..], u[1..]);
    }
  }

  lemma LessTransitive(u: Value, v: Value, w: Value)
    requires Less(u, v) && Less(v, w)
    ensures Less(u, w)
  {
    if u.Str? && v.Str? && w.Str? { StringLessTransitive(u.s, v.s, w.s); }
  }

  lemma LessAsymmetric(v: Value, w: Value)
    ensures !(Less(v, w) && Less(w, v))
  {
    if v.Str? && w.Str? { StringLessTotal(v.s, w.s); }
  }

  lemma LessTotal(v: Value, w: Value)
    ensures Less(v, w) || Less(w, v) || v == w || (v.Null? && w.Null?)
  {
    if v.Str? && w.Str? { StringLessTotal(v.s, w.s); }
  }

  // ----- evaluation -----

  function OfBool(b: bool): CmpBool {
    if b then CmpTrue else CmpFalse
  }

  /** Comparison of two values; null for a null operand, and for values of different kinds. */
  function Compare(op: ComparisonType, v: Value, w: Value): CmpBool {
    if v.Null? || w.Null? || Kind(v) != Kind(w) then CmpNull
    else match op
      case Equal => OfBool(v == w)
      case NotEqual => OfBool(v != w)
      case LessThan => OfBool(Less(v, w))
      case LessThanOrEqual => OfBool(!Less(w, v))
      case GreaterThan => OfBool(Less(w, v))
      case GreaterThanOrEqual => OfBool(!Less(v, w))
  }

  function BooleanValue(c: CmpBool): Value {
    match c
    case CmpFalse => Bool(false)
    case CmpTrue => Bool(true)
    case CmpNull => Null(BOOLEAN)
  }

  function AsCmpBool(v: Value): CmpBool {
    if v.Bool? then OfBool(v.b) else CmpNull
  }

  function Combine(op: LogicType, l: CmpBool, r: CmpBool): CmpBool {
    match op
    case And =>
      if l == CmpFalse || r == CmpFalse then CmpFalse
      else if l == CmpTrue && r == CmpTrue then CmpTrue
      else CmpNull
    case Or =>
      if l == CmpFalse && r == CmpFalse then CmpFalse
      else if l == CmpTrue || r == CmpTrue then CmpTrue
      else CmpNull
  }

  /** 32-bit two's complement. */
  function Wrap32(i: int): int {
    (i + 0x8000_0000) % 0x1_0000_0000 - 0x8000_0000
  }

  function Compute(op: ArithmeticType, v: Value, w: Value): Value {
    if v.Int? && w.Int? then Int(Wrap32(if op == Plus then v.i + w.i else v.i - w.i)) else Null(INTEGER)
  }

  /** A column of a tuple; reading past its end gives a value without a type. */
  function At(row: Row, i: nat): Value {
    if i < |row| then row[i] else Null(INVALID)
  }

  function Eval(e: Expr, row: Row): Value {
    match e
    case ColumnValue(_, i, _) => At(row, i)
    case Constant(v) => v
    case Comparison(op, l, r) => BooleanValue(Compare(op, Eval(l, row), Eval(r, row)))
    case Arithmetic(op, l, r) => Compute(op, Eval(l, row), Eval(r, row))
    case Logic(op, l, r) => BooleanValue(Combine(op, AsCmpBool(Eval(l, row)), AsCmpBool(Eval(r, row))))
  }

  function EvalJoin(e: Expr, left: Row, right: Row): Value {
    match e
    case ColumnValue(t, i, _) => if t == 0 then At(left, i) else At(right, i)
    case Constant(v) => v
    case Comparison(op, l, r) => BooleanValue(Compare(op, EvalJoin(l, left, right), EvalJoin(r, left, right)))
    case Arithmetic(op, l, r) => Compute(op, EvalJoin(l, left, right), EvalJoin(r, left, right))
    case Logic(op, l, r) =>
      BooleanValue(Combine(op, AsCmpBool(EvalJoin(l, left, right)), AsCmpBool(EvalJoin(r, left, right))))
  }

  /** A predicate lets a row pass when it is true, not when it is null. */
  predicate Passes(v: Value) {
    v == Bool(true)
  }

  /** Every column the expression reads exists in a row of `n` columns. */
  predicate InRange(e: Expr, n: nat) {
    match e
    case ColumnValue(t, i, _) => t == 0 && i < n
    case Constant(_) => true
    case Comparison(_, l, r) => InRange(l, n) && InRange(r, n)
    case Arithmetic(_, l, r) => InRange(l, n) && InRange(r, n)
    case Logic(_, l, r) => InRange(l, n) && InRange(r, n)
  }
}
