/**
 What aggregates are.  A node of a plan combines the values of a group one after the other, by its kind; a call means
 something of all of them, by its name.
 */
module AggregateValues {
  import opened Expressions
  import opened Plans

  // ----- by kind -----

  /** The value a group starts with. */
  function Initial(kind: AggregationType): Value {
    if kind == CountStar then Int(0) else Null(INTEGER)
  }

  /** One more value for a group; only the count of rows takes nulls. */
  function Combined(kind: AggregationType, acc: Value, v: Value): Value {
    match kind
    case CountStar => Int((if acc.Int? then acc.i else 0) + 1)
    case Count => if v.Null? then acc else Int((if acc.Int? then acc.i else 0) + 1)
    case Sum => if !v.Int? then acc else Int(Wrap32((if acc.Int? then acc.i else 0) + v.i))
    case Min => if v.Null? then acc else if acc.Null? || Less(v, acc) then v else acc
    case Max => if v.Null? then acc else if acc.Null? || Less(acc, v) then v else acc
  }

  function AggregateValue(kind: AggregationType, vs: seq<Value>): Value {
    if vs == [] then Initial(kind)
    else Combined(kind, AggregateValue(kind, vs[..|vs| - 1]), vs[|vs| - 1])
  }

  // ----- by name -----

  /** The values that are not null. */
  ghost function Present(vs: seq<Value>): seq<Value> {
    if vs == [] then [] else Present(vs[..|vs| - 1]) + if vs[|vs| - 1].Null? then [] else [vs[|vs| - 1]]
  }

  ghost function Total(vs: seq<Value>): int {
    if vs == [] then 0 else Total(vs[..|vs| - 1]) + if vs[|vs| - 1].Int? then vs[|vs| - 1].i else 0
  }

  ghost predicate AnyInt(vs: seq<Value>) {
    exists i :: 0 <= i < |vs| && vs[i].Int?
  }

  /** The value `v` is one of those that are not null, and none of them is less (or greater) than it. */
  ghost predicate IsExtreme(vs: seq<Value>, v: Value, greatest: bool) {
    && !v.Null? && v in vs
    && forall w :: w in vs && !w.Null? ==> if greatest then !Less(v, w) else !Less(w, v)
  }

  /**
   The value of a call of the given name on the values of its argument in a group of `count` rows.  Without values to
   work on it is null.
   */
  ghost predicate IsCallValue(func: string, vs: seq<Value>, count: nat, v: Value) {
    if func == "count_star" then v == Int(count)
    else if func == "count" then v == if Present(vs) == [] then Null(INTEGER) else Int(|Present(vs)|)
    else if func == "sum" then v == if AnyInt(vs) then Int(Wrap32(Total(vs))) else Null(INTEGER)
    else if func == "min" then (if Present(vs) == [] then v == Null(INTEGER) else IsExtreme(vs, v, false))
    else if func == "max" then (if Present(vs) == [] then v == Null(INTEGER) else IsExtreme(vs, v, true))
    else false
  }

  // ----- the two agree -----

  lemma {:induction false} PresentMembers(vs: seq<Value>)
    ensures forall v :: v in Present(vs) <==> v in vs && !v.Null?
    ensures Present(vs) == [] <==> forall i :: 0 <= i < |vs| ==> vs[i].Null?
  {
    if vs != [] {
      var init, last := vs[..|vs| - 1], vs[|vs| - 1];
      PresentMembers(init);
      assert vs == init + [last];
    }
  }

  lemma {:induction false} CountStarIs(vs: seq<Value>)
    ensures AggregateValue(CountStar, vs) == Int(|vs|)
  {
    if vs != [] { CountStarIs(vs[..|vs| - 1]); }
  }

  lemma {:induction false} CountIs(vs: seq<Value>)
    ensures AggregateValue(Count, vs) == if Present(vs) == [] then Null(INTEGER) else Int(|Present(vs)|)
  {
    if vs != [] { CountIs(vs[..|vs| - 1]); }
  }

  lemma WrapAgain(i: int, j: int)
    ensures Wrap32(Wrap32(i) + j) == Wrap32(i + j)
  {
    var m := (i + 0x8000_0000) / 0x1_0000_0000;
    assert Wrap32(i) == i - m * 0x1_0000_0000;
  }

  lemma {:induction false} SumIs(vs: seq<Value>)
    ensures AggregateValue(Sum, vs) == if AnyInt(vs) then Int(Wrap32(Total(vs))) else Null(INTEGER)
    ensures !AnyInt(vs) ==> Total(vs) == 0
  {
    if vs != [] {
      var init, last := vs[..|vs| - 1], vs[|vs| - 1];
      SumIs(init);
      assert AnyInt(vs) <==> AnyInt(init) || last.Int? by {
        if AnyInt(init) {
          var i :| 0 <= i < |init| && init[i].Int?;
          assert vs[i].Int?;
        }
        if last.Int? { assert vs[|vs| - 1].Int?; }
      }
      if last.Int? { WrapAgain(Total(init), last.i); }
      hide Wrap32, AnyInt;
    }
  }

  lemma {:induction false} ExtremeIs(vs: seq<Value>, greatest: bool)
    ensures var v := AggregateValue(if greatest then Max else Min, vs);
            if Present(vs) == [] then v == Null(INTEGER) else IsExtreme(vs, v, greatest)
  {
    if vs != [] {
      var init, last := vs[..|vs| - 1], vs[|vs| - 1];
      ExtremeIs(init, greatest);
      PresentMembers(init);
      assert vs == init + [last];
      var acc := AggregateValue(if greatest then Max else Min, init);
      forall w | w in init && !w.Null? && !last.Null? && !acc.Null?
        ensures Less(last, acc) && !Less(w, acc) ==> !Less(w, last)
        ensures Less(acc, last) && !Less(acc, w) ==> !Less(last, w)
      {
        if Less(w, last) && Less(last, acc) { LessTransitive(w, last, acc); }
        if Less(last, w) && Less(acc, last) { LessTransitive(acc, last, w); }
      }
      LessAsymmetric(last, last);
      hide Less;
    }
  }

  /** The kind of aggregate that the planner has for a name. */
  ghost predicate IsKind(func: string, kind: AggregationType) {
    || (func == "count_star" && kind == CountStar)
    || (func == "count" && kind == Count)
    || (func == "sum" && kind == Sum)
    || (func == "min" && kind == Min)
    || (func == "max" && kind == Max)
  }

  /** An aggregate of the kind of a name has the value of a call of that name. */
  lemma KindMeansName(func: string, kind: AggregationType, vs: seq<Value>)
    requires IsKind(func, kind)
    ensures IsCallValue(func, vs, |vs|, AggregateValue(kind, vs))
  {
    CountStarIs(vs);
    CountIs(vs);
    SumIs(vs);
    ExtremeIs(vs, false);
    ExtremeIs(vs, true);
    hide AggregateValue, IsExtreme, AnyInt, Wrap32;
  }

  /** A call has one value. */
  lemma OneCallValue(func: string, vs: seq<Value>, count: nat, v: Value, w: Value)
    requires IsCallValue(func, vs, count, v) && IsCallValue(func, vs, count, w)
    ensures v == w
  {
    LessTotal(v, w);
    hide Less, Total, Wrap32, AnyInt;
  }
}
