/** Cardinalities of finite sets. */
module Sets {

  lemma Member<T>(a: set<T>) returns (x: T)
    requires |a| > 0
    ensures x in a
  {
    x :| x in a;
  }

  lemma {:induction false} SubsetSize<T>(a: set<T>, b: set<T>)
    requires a <= b
    ensures |a| <= |b|
  {
    if a != {} {
      var x :| x in a;
      SubsetSize(a - {x}, b - {x});
    }
  }

  ghost function Image<T, U>(a: set<T>, m: map<T, U>): set<U>
    requires a <= m.Keys
  {
    set x | x in a :: m[x]
  }

  /** An injective map keeps the number of elements. */
  lemma {:induction false} ImageSize<T, U>(a: set<T>, m: map<T, U>)
    requires a <= m.Keys
    requires forall x, y :: x in a && y in a && m[x] == m[y] ==> x == y
    ensures |Image(a, m)| == |a|
  {
    if a != {} {
      var x :| x in a;
      ImageSize(a - {x}, m);
      assert Image(a, m) == Image(a - {x}, m) + {m[x]};
    }
  }
}
