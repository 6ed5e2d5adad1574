/** Sequences of entries with strictly ascending keys, and what finding, inserting and deleting means for them. */
module SortedEntries {
  import opened Options

  type Entry<V> = (int, V)

  ghost predicate Sorted<V>(s: seq<Entry<V>>) {
    forall i, j :: 0 <= i < j < |s| ==> s[i].0 < s[j].0
  }

  /** The position of the first key that is not less than `k`. */
  function LowerBound<V>(s: seq<Entry<V>>, k: int): (i: nat)
    ensures i <= |s| && (i < |s| ==> s[i].0 >= k) && forall j :: 0 <= j < i ==> s[j].0 < k
  {
    if s == [] || s[0].0 >= k then 0 else 1 + LowerBound(s[1..], k)
  }

  predicate Has<V>(s: seq<Entry<V>>, k: int) {
    LowerBound(s, k) < |s| && s[LowerBound(s, k)].0 == k
  }

  function Lookup<V>(s: seq<Entry<V>>, k: int): Option<V> {
    if Has(s, k) then Some(s[LowerBound(s, k)].1) else None
  }

  /** Keys are unique: a key that is there keeps its value. */
  function Insert<V>(s: seq<Entry<V>>, k: int, v: V): seq<Entry<V>> {
    var i := LowerBound(s, k);
    if Has(s, k) then s else s[..i] + [(k, v)] + s[i..]
  }

  function Delete<V>(s: seq<Entry<V>>, k: int): seq<Entry<V>> {
    var i := LowerBound(s, k);
    if Has(s, k) then s[..i] + s[i + 1..] else s
  }

  lemma InsertSize<V>(s: seq<Entry<V>>, k: int, v: V)
    ensures Has(s, k) ==> Insert(s, k, v) == s
    ensures !Has(s, k) ==> |Insert(s, k, v)| == |s| + 1
  {
  }

  lemma InsertFirst<V>(k: int, v: V)
    ensures Insert([], k, v) == [(k, v)]
  {
  }

  /** All keys are below `k`, or all are above. */
  ghost predicate Below<V>(s: seq<Entry<V>>, k: int) {
    forall i :: 0 <= i < |s| ==> s[i].0 < k
  }

  ghost predicate Above<V>(s: seq<Entry<V>>, k: int) {
    forall i :: 0 <= i < |s| ==> s[i].0 > k
  }

  lemma LowerBoundIs<V>(s: seq<Entry<V>>, k: int, i: nat)
    requires i <= |s| && (i < |s| ==> s[i].0 >= k) && forall j :: 0 <= j < i ==> s[j].0 < k
    ensures LowerBound(s, k) == i
  {
  }

  /** In a concatenation only the part that can hold the key matters. */
  lemma LowerBoundMiddle<V>(a: seq<Entry<V>>, b: seq<Entry<V>>, c: seq<Entry<V>>, k: int)
    requires Below(a, k) && Above(c, k)
    ensures LowerBound(a + b + c, k) == |a| + LowerBound(b, k)
    ensures Has(a + b + c, k) <==> Has(b, k)
  {
    LowerBoundIs(a + b + c, k, |a| + LowerBound(b, k));
  }

  lemma Regroup<V>(a: seq<Entry<V>>, x: seq<Entry<V>>, e: seq<Entry<V>>, y: seq<Entry<V>>, c: seq<Entry<V>>)
    ensures (a + x) + e + (y + c) == a + (x + e + y) + c
  {
  }

  lemma Joined<V>(a: seq<Entry<V>>, x: seq<Entry<V>>, y: seq<Entry<V>>, c: seq<Entry<V>>)
    ensures (a + x) + (y + c) == a + (x + y) + c
  {
  }

  lemma Cut<V>(a: seq<Entry<V>>, b: seq<Entry<V>>, c: seq<Entry<V>>, i: nat)
    requires i <= |b|
    ensures (a + b + c)[..|a| + i] == a + b[..i] && (a + b + c)[|a| + i..] == b[i..] + c
  {
  }

  lemma InsertMiddle<V>(a: seq<Entry<V>>, b: seq<Entry<V>>, c: seq<Entry<V>>, k: int, v: V)
    requires Below(a, k) && Above(c, k)
    ensures Insert(a + b + c, k, v) == a + Insert(b, k, v) + c
  {
    LowerBoundMiddle(a, b, c, k);
    var i := LowerBound(b, k);
    Cut(a, b, c, i);
    Regroup(a, b[..i], [(k, v)], b[i..], c);
    hide LowerBound, Has, Below, Above;
  }

  lemma DeleteAt<V>(s: seq<Entry<V>>, k: int)
    ensures Has(s, k) ==> var i := LowerBound(s, k); i < |s| && Delete(s, k) == s[..i] + s[i + 1..]
    ensures !Has(s, k) ==> Delete(s, k) == s
  {
    hide LowerBound;
  }

  lemma DeleteMiddle<V>(a: seq<Entry<V>>, b: seq<Entry<V>>, c: seq<Entry<V>>, k: int)
    requires Below(a, k) && Above(c, k)
    ensures Delete(a + b + c, k) == a + Delete(b, k) + c
  {
    LowerBoundMiddle(a, b, c, k);
    DeleteAt(b, k);
    DeleteAt(a + b + c, k);
    hide *;
    if Has(b, k) {
      var i := LowerBound(b, k);
      Cut(a, b, c, i);
      Cut(a, b, c, i + 1);
      Joined(a, b[..i], b[i + 1..], c);
    }
  }

  lemma LookupMiddle<V>(a: seq<Entry<V>>, b: seq<Entry<V>>, c: seq<Entry<V>>, k: int)
    requires Below(a, k) && Above(c, k)
    ensures Lookup(a + b + c, k) == Lookup(b, k)
  {
    LowerBoundMiddle(a, b, c, k);
    if Has(b, k) { assert (a + b + c)[|a| + LowerBound(b, k)] == b[LowerBound(b, k)]; }
  }

  // ----- as maps -----

  ghost function Keys<V>(s: seq<Entry<V>>): set<int> {
    set i | 0 <= i < |s| :: s[i].0
  }

  ghost function Map<V>(s: seq<Entry<V>>): map<int, V> {
    map k | k in Keys(s) && Has(s, k) :: s[LowerBound(s, k)].1
  }

  lemma InMap<V>(s: seq<Entry<V>>, k: int)
    requires Sorted(s)
    ensures k in Map(s) <==> Lookup(s, k).Some?
    ensures k in Map(s) ==> Lookup(s, k) == Some(Map(s)[k])
  {
    if Has(s, k) { assert s[LowerBound(s, k)].0 in Keys(s); }
  }

  lemma DeleteSorted<V>(s: seq<Entry<V>>, k: int)
    requires Sorted(s)
    ensures Sorted(Delete(s, k))
  {
  }

  /** The entries around a key. */
  lemma Around<V>(s: seq<Entry<V>>, k: int)
    requires Sorted(s)
    ensures var i := LowerBound(s, k);
            && s == s[..i] + s[i..] && Below(s[..i], k)
            && (if Has(s, k) then s[i..] == [s[i]] + s[i + 1..] && Above(s[i + 1..], k) else Above(s[i..], k))
  {
    var i := LowerBound(s, k);
    hide LowerBound;
    assert s == s[..i] + s[i..];
    if Has(s, k) {
      var rest := s[i + 1..];
      assert s[i..] == [s[i]] + rest;
      forall n | 0 <= n < |rest| ensures rest[n].0 > k { assert s[i].0 < s[i + 1 + n].0; }
    } else {
      var rest := s[i..];
      forall n | 0 <= n < |rest| ensures rest[n].0 > k { assert n > 0 ==> s[i].0 < s[i + n].0; }
    }
  }

  lemma SortedBetween<V>(x: seq<Entry<V>>, e: Entry<V>, y: seq<Entry<V>>)
    requires Sorted(x + y) && Below(x, e.0) && Above(y, e.0)
    ensures Sorted(x + [e] + y)
  {
    var s, r := x + y, x + [e] + y;
    forall i, j | 0 <= i < j < |r| ensures r[i].0 < r[j].0 {
      assert r[i] == if i < |x| then s[i] else if i == |x| then e else s[i - 1];
      assert r[j] == if j < |x| then s[j] else if j == |x| then e else s[j - 1];
    }
  }

  lemma InsertSorted<V>(s: seq<Entry<V>>, k: int, v: V)
    requires Sorted(s)
    ensures Sorted(Insert(s, k, v))
  {
    Around(s, k);
    hide Sorted, Below, Above, LowerBound, Has;
    if !Has(s, k) { SortedBetween(s[..LowerBound(s, k)], (k, v), s[LowerBound(s, k)..]); }
  }

  lemma LookupPrefix<V>(a: seq<Entry<V>>, c: seq<Entry<V>>, x: int)
    requires Above(c, x)
    ensures Lookup(a + c, x) == Lookup(a, x)
  {
    LookupMiddle([], a, c, x);
    assert [] + a + c == a + c;
  }

  lemma LookupSuffix<V>(a: seq<Entry<V>>, c: seq<Entry<V>>, x: int)
    requires Below(a, x)
    ensures Lookup(a + c, x) == Lookup(c, x)
  {
    LookupMiddle(a, c, [], x);
    assert a + c + [] == a + c;
  }

  /** Putting an entry between those below and those above it. */
  lemma LookupBetween<V>(a: seq<Entry<V>>, e: Entry<V>, c: seq<Entry<V>>, x: int)
    requires Below(a, e.0) && Above(c, e.0)
    ensures Lookup(a + [e] + c, x) == if x == e.0 then Some(e.1) else Lookup(a + c, x)
    ensures x == e.0 ==> Lookup(a + c, x) == None
  {
    hide Lookup;
    assert a + [e] + c == a + ([e] + c);
    if x < e.0 {
      LookupPrefix(a, [e] + c, x);
      LookupPrefix(a, c, x);
    } else if x > e.0 {
      LookupSuffix(a + [e], c, x);
      LookupSuffix(a, c, x);
    } else {
      LookupMiddle(a, [e], c, x);
      LookupSuffix(a, c, x);
      LookupAlone(e);
      LookupAbove(c, x);
    }
  }

  lemma LookupAlone<V>(e: Entry<V>)
    ensures Lookup([e], e.0) == Some(e.1)
  {
    LowerBoundIs([e], e.0, 0);
  }

  lemma LookupAbove<V>(c: seq<Entry<V>>, x: int)
    requires Above(c, x)
    ensures Lookup(c, x) == None
  {
    LowerBoundIs(c, x, 0);
  }

  lemma InsertLookup<V>(s: seq<Entry<V>>, k: int, v: V, x: int)
    requires Sorted(s)
    ensures Lookup(Insert(s, k, v), x) == if x == k && !Has(s, k) then Some(v) else Lookup(s, x)
  {
    var i := LowerBound(s, k);
    Around(s, k);
    if !Has(s, k) { LookupBetween(s[..i], (k, v), s[i..], x); }
    hide Lookup, LowerBound;
  }

  lemma DeleteLookup<V>(s: seq<Entry<V>>, k: int, x: int)
    requires Sorted(s)
    ensures Lookup(Delete(s, k), x) == if x == k then None else Lookup(s, x)
  {
    var i := LowerBound(s, k);
    Around(s, k);
    if Has(s, k) {
      LookupBetween(s[..i], s[i], s[i + 1..], x);
      assert s == s[..i] + [s[i]] + s[i + 1..];
    }
    hide Lookup, LowerBound;
  }

  lemma HasIsFound<V>(s: seq<Entry<V>>, k: int)
    ensures Has(s, k) <==> Lookup(s, k).Some?
  {
  }

  lemma InsertMap<V>(s: seq<Entry<V>>, k: int, v: V)
    requires Sorted(s)
    ensures Map(Insert(s, k, v)) == if k in Map(s) then Map(s) else Map(s)[k := v]
  {
    var m := if k in Map(s) then Map(s) else Map(s)[k := v];
    InsertSorted(s, k, v);
    InMap(s, k);
    HasIsFound(s, k);
    hide *;
    forall x ensures x in Map(Insert(s, k, v)) <==> x in m
             ensures x in m && x in Map(Insert(s, k, v)) ==> Map(Insert(s, k, v))[x] == m[x]
    {
      InsertLookup(s, k, v, x);
      InMap(s, x);
      InMap(Insert(s, k, v), x);
    }
  }

  lemma DeleteMapAt<V>(s: seq<Entry<V>>, k: int, x: int)
    requires Sorted(s)
    ensures x in Map(Delete(s, k)) <==> x in Map(s) && x != k
    ensures x in Map(Delete(s, k)) && x in Map(s) ==> Map(Delete(s, k))[x] == Map(s)[x]
  {
    hide *;
    DeleteSorted(s, k);
    DeleteLookup(s, k, x);
    InMap(s, x);
    InMap(Delete(s, k), x);
  }

  lemma DeleteMap<V>(s: seq<Entry<V>>, k: int)
    requires Sorted(s)
    ensures Map(Delete(s, k)) == Map(s) - {k}
  {
    hide *;
    forall x ensures x in Map(Delete(s, k)) <==> x in Map(s) && x != k
             ensures x in Map(Delete(s, k)) && x in Map(s) ==> Map(Delete(s, k))[x] == Map(s)[x]
    {
      DeleteMapAt(s, k, x);
    }
  }
}
