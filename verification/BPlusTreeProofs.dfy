/** The B+ tree is a sorted map that stays ordered, balanced and at least half full. */
module BPlusTreeProofs {
  import opened Options
  import opened SortedEntries
  import opened BPlusTree

  // ----- entries of children -----

  lemma {:induction false} AllConcat<V>(a: seq<Tree<V>>, b: seq<Tree<V>>)
    ensures All(a + b) == All(a) + All(b)
  {
    if a == [] {
      assert a + b == b;
    } else {
      assert (a + b)[1..] == a[1..] + b;
      AllConcat(a[1..], b);
    }
  }

  lemma AllOne<V>(t: Tree<V>)
    ensures All([t]) == Entries(t)
  {
    assert [t][1..] == [];
    assert All([t][1..]) == [];
  }

  lemma Cut<T>(s: seq<T>, i: nat)
    requires i < |s|
    ensures s == s[..i] + [s[i]] + s[i + 1..]
    ensures i + 1 == |s| ==> s == s[..i] + [s[i]]
  {
  }

  lemma CutReplaced<T>(s: seq<T>, i: nat, t: T)
    requires i < |s|
    ensures s[i := t] == s[..i] + [t] + s[i + 1..]
  {
  }

  lemma AllThree<V>(a: seq<Tree<V>>, t: Tree<V>, c: seq<Tree<V>>)
    ensures All(a + [t] + c) == All(a) + Entries(t) + All(c)
  {
    AllConcat(a + [t], c);
    AllConcat(a, [t]);
    AllOne(t);
    hide All, Entries;
  }

  /** The entries around child `i`. */
  lemma AllAround<V>(cs: seq<Tree<V>>, i: nat)
    requires i < |cs|
    ensures All(cs) == All(cs[..i]) + Entries(cs[i]) + All(cs[i + 1..])
  {
    hide All, Entries;
    AllThree(cs[..i], cs[i], cs[i + 1..]);
    Cut(cs, i);
  }

  /** The entries with another child in place of child `i`. */
  lemma AllReplaced<V>(cs: seq<Tree<V>>, i: nat, t: Tree<V>)
    requires i < |cs|
    ensures All(cs[i := t]) == All(cs[..i]) + Entries(t) + All(cs[i + 1..])
  {
    hide All, Entries;
    AllThree(cs[..i], t, cs[i + 1..]);
    CutReplaced(cs, i, t);
  }

  /** The entries with two children in its place. */
  lemma AllSplit<V>(cs: seq<Tree<V>>, i: nat, left: Tree<V>, right: Tree<V>)
    requires i < |cs|
    ensures All(InsertAt(cs[i := left], i + 1, right)) ==
            All(cs[..i]) + (Entries(left) + Entries(right)) + All(cs[i + 1..])
  {
    hide All, Entries;
    var a, c := cs[..i], cs[i + 1..];
    assert InsertAt(cs[i := left], i + 1, right) == (a + [left]) + [right] + c;
    AllThree(a + [left], right, c);
    AllConcat(a, [left]);
    AllOne(left);
    assert All(a) + Entries(left) + Entries(right) == All(a) + (Entries(left) + Entries(right));
  }

  // ----- order -----

  lemma {:induction false} SoundIsShaped<V>(t: Tree<V>, l: Limits, h: nat, lo: Option<int>, hi: Option<int>)
    requires Sound(t, l, h, lo, hi)
    ensures Shaped(t, h)
  {
    match t
    case Leaf(_) =>
    case Node(keys, cs) =>
      forall i | 0 <= i < |cs| ensures Shaped(cs[i], h - 1) {
        assert SoundChild(cs[i], l, h - 1, Lo(keys, i, lo), Hi(keys, i, hi));
        SoundIsShaped(cs[i], l, h - 1, Lo(keys, i, lo), Hi(keys, i, hi));
      }
  }

  ghost predicate InOrder<V>(s: seq<Entry<V>>, lo: Option<int>, hi: Option<int>) {
    Sorted(s) && Bounded(s, lo, hi)
  }

  lemma InOrderConcat<V>(a: seq<Entry<V>>, b: seq<Entry<V>>, lo: Option<int>, mid: int, hi: Option<int>)
    requires InOrder(a, lo, Some(mid)) && InOrder(b, Some(mid), hi)
    requires (lo.None? || lo.value <= mid) && (hi.None? || mid <= hi.value)
    ensures InOrder(a + b, lo, hi)
  {
    var s := a + b;
    forall i, j | 0 <= i < j < |s| ensures s[i].0 < s[j].0 {
      if i < |a| <= j { assert s[i].0 < mid <= s[j].0; }
    }
  }

  /** Children `a` up to `b` have their entries in order between the bounds of the first and of the last. */
  lemma {:induction false} RangeInOrder<V>(keys: seq<int>, cs: seq<Tree<V>>, lo: Option<int>, hi: Option<int>, a: nat,
                                           b: nat)
    requires |cs| == |keys| + 1 && a < b <= |cs| && Separators(keys, lo, hi)
    requires forall i :: 0 <= i < |cs| ==> InOrder(Entries(cs[i]), Lo(keys, i, lo), Hi(keys, i, hi))
    ensures InOrder(All(cs[a..b]), Lo(keys, a, lo), Hi(keys, b - 1, hi))
    decreases b
  {
    hide InOrder;
    if a + 1 == b {
      assert cs[a..b] == [cs[a]];
      AllOne(cs[a]);
    } else {
      RangeInOrder(keys, cs, lo, hi, a, b - 1);
      assert cs[a..b] == cs[a..b - 1] + [cs[b - 1]];
      AllConcat(cs[a..b - 1], [cs[b - 1]]);
      AllOne(cs[b - 1]);
      InOrderConcat(All(cs[a..b - 1]), Entries(cs[b - 1]), Lo(keys, a, lo), keys[b - 2], Hi(keys, b - 1, hi));
    }
  }

  /** The leaves hold the keys in strictly ascending order, within the bounds. */
  lemma {:induction false} EntriesInOrder<V>(t: Tree<V>, l: Limits, h: nat, lo: Option<int>, hi: Option<int>)
    requires Sound(t, l, h, lo, hi)
    ensures InOrder(Entries(t), lo, hi)
  {
    match t
    case Leaf(_) =>
    case Node(keys, cs) =>
      ChildrenInOrder(keys, cs, l, h, lo, hi);
      RangeInOrder(keys, cs, lo, hi, 0, |cs|);
      assert cs[0..|cs|] == cs;
  }

  lemma {:induction false} ChildrenInOrder<V>(keys: seq<int>, cs: seq<Tree<V>>, l: Limits, h: nat, lo: Option<int>,
                                              hi: Option<int>)
    requires SoundChildren(keys, cs, l, h, lo, hi)
    ensures forall i :: 0 <= i < |cs| ==> InOrder(Entries(cs[i]), Lo(keys, i, lo), Hi(keys, i, hi))
    decreases cs
  {
    forall i | 0 <= i < |cs| ensures InOrder(Entries(cs[i]), Lo(keys, i, lo), Hi(keys, i, hi)) {
      assert SoundChild(cs[i], l, h - 1, Lo(keys, i, lo), Hi(keys, i, hi));
      EntriesInOrder(cs[i], l, h - 1, Lo(keys, i, lo), Hi(keys, i, hi));
    }
  }

  // ----- finding the child -----

  lemma ChildOfBounds(keys: seq<int>, k: int, lo: Option<int>, hi: Option<int>)
    requires Separators(keys, lo, hi) && AtLeast(k, lo) && LessThan(k, hi)
    ensures var i := ChildOf(keys, k); AtLeast(k, Lo(keys, i, lo)) && LessThan(k, Hi(keys, i, hi))
  {
  }

  /** Left of the child in which a key belongs all keys are smaller, and right of it all are greater. */
  lemma ChildOfSplits<V>(keys: seq<int>, cs: seq<Tree<V>>, l: Limits, h: nat, lo: Option<int>, hi: Option<int>, k: int)
    requires SoundChildren(keys, cs, l, h, lo, hi) && AtLeast(k, lo) && LessThan(k, hi)
    ensures var i := ChildOf(keys, k);
            && AtLeast(k, Lo(keys, i, lo)) && LessThan(k, Hi(keys, i, hi))
            && Below(All(cs[..i]), k) && Above(All(cs[i + 1..]), k)
  {
    var i := ChildOf(keys, k);
    ChildOfBounds(keys, k, lo, hi);
    ChildrenInOrder(keys, cs, l, h, lo, hi);
    if i > 0 {
      RangeInOrder(keys, cs, lo, hi, 0, i);
      assert cs[0..i] == cs[..i];
    }
    if i < |keys| {
      RangeInOrder(keys, cs, lo, hi, i + 1, |cs|);
      assert cs[i + 1..|cs|] == cs[i + 1..];
    }
  }

  /** Searching down the tree finds what the leaves hold. */
  lemma {:induction false} GetValueFinds<V>(t: Tree<V>, l: Limits, h: nat, lo: Option<int>, hi: Option<int>, k: int)
    requires Sound(t, l, h, lo, hi) && AtLeast(k, lo) && LessThan(k, hi)
    ensures Shaped(t, h) && GetValue(t, k, h) == Lookup(Entries(t), k)
  {
    SoundIsShaped(t, l, h, lo, hi);
    match t
    case Leaf(_) =>
    case Node(keys, cs) =>
      var i := ChildOf(keys, k);
      ChildOfSplits(keys, cs, l, h, lo, hi, k);
      assert SoundChild(cs[i], l, h - 1, Lo(keys, i, lo), Hi(keys, i, hi));
      GetValueFinds(cs[i], l, h - 1, Lo(keys, i, lo), Hi(keys, i, hi), k);
      AllAround(cs, i);
      LookupMiddle(All(cs[..i]), Entries(cs[i]), All(cs[i + 1..]), k);
  }

  // ----- children that are replaced, split, cut off and joined -----

  lemma ChildrenReplaced<V>(keys: seq<int>, cs: seq<Tree<V>>, l: Limits, h: nat, lo: Option<int>, hi: Option<int>,
                            i: nat, c: Tree<V>)
    requires SoundChildren(keys, cs, l, h, lo, hi) && i < |cs|
             && SoundChild(c, l, h - 1, Lo(keys, i, lo), Hi(keys, i, hi))
    ensures SoundChildren(keys, cs[i := c], l, h, lo, hi)
  {
    hide SoundChild;
  }

  lemma SeparatorsInserted(keys: seq<int>, i: nat, key: int, lo: Option<int>, hi: Option<int>)
    requires Separators(keys, lo, hi) && i <= |keys|
    requires (Lo(keys, i, lo).None? || Lo(keys, i, lo).value < key) && LessThan(key, Hi(keys, i, hi))
    ensures Separators(InsertAt(keys, i, key), lo, hi)
  {
    var keys' := InsertAt(keys, i, key);
    assert forall j :: 0 <= j < |keys'| ==> keys'[j] == if j < i then keys[j] else if j == i then key else keys[j - 1];
    if i > 0 { assert forall j :: 0 <= j < i ==> keys[j] <= keys[i - 1]; }
    if i < |keys| { assert forall j :: i <= j < |keys| ==> keys[i] <= keys[j]; }
  }

  lemma ChildrenInserted<V>(keys: seq<int>, cs: seq<Tree<V>>, l: Limits, h: nat, lo: Option<int>, hi: Option<int>,
                            i: nat, left: Tree<V>, key: int, right: Tree<V>)
    requires SoundChildren(keys, cs, l, h, lo, hi) && i < |cs|
    requires SoundChild(left, l, h - 1, Lo(keys, i, lo), Some(key))
             && SoundChild(right, l, h - 1, Some(key), Hi(keys, i, hi))
    requires (Lo(keys, i, lo).None? || Lo(keys, i, lo).value < key) && LessThan(key, Hi(keys, i, hi))
    ensures SoundChildren(InsertAt(keys, i, key), InsertAt(cs[i := left], i + 1, right), l, h, lo, hi)
  {
    hide SoundChild;
    SeparatorsInserted(keys, i, key, lo, hi);
    var keys', cs' := InsertAt(keys, i, key), InsertAt(cs[i := left], i + 1, right);
    forall j | 0 <= j < |cs'| ensures SoundChild(cs'[j], l, h - 1, Lo(keys', j, lo), Hi(keys', j, hi)) {
      if j < i {
        assert cs'[j] == cs[j] && Lo(keys', j, lo) == Lo(keys, j, lo) && Hi(keys', j, hi) == Hi(keys, j, hi);
      } else if j > i + 1 {
        assert cs'[j] == cs[j - 1] && Lo(keys', j, lo) == Lo(keys, j - 1, lo)
               && Hi(keys', j, hi) == Hi(keys, j - 1, hi);
      }
    }
  }

  lemma ChildrenTaken<V>(keys: seq<int>, cs: seq<Tree<V>>, l: Limits, h: nat, lo: Option<int>, hi: Option<int>, m: nat)
    requires SoundChildren(keys, cs, l, h, lo, hi) && 0 < m <= |keys|
    ensures SoundChildren(keys[..m - 1], cs[..m], l, h, lo, Some(keys[m - 1]))
  {
    hide SoundChild;
    var keys', cs' := keys[..m - 1], cs[..m];
    forall j | 0 <= j < |cs'| ensures SoundChild(cs'[j], l, h - 1, Lo(keys', j, lo), Hi(keys', j, Some(keys[m - 1]))) {
      assert SoundChild(cs[j], l, h - 1, Lo(keys, j, lo), Hi(keys, j, hi));
    }
  }

  lemma ChildrenDropped<V>(keys: seq<int>, cs: seq<Tree<V>>, l: Limits, h: nat, lo: Option<int>, hi: Option<int>,
                           m: nat)
    requires SoundChildren(keys, cs, l, h, lo, hi) && 0 < m <= |keys|
    ensures SoundChildren(keys[m..], cs[m..], l, h, Some(keys[m - 1]), hi)
  {
    hide SoundChild;
    var keys', cs' := keys[m..], cs[m..];
    forall j | 0 <= j < |cs'| ensures SoundChild(cs'[j], l, h - 1, Lo(keys', j, Some(keys[m - 1])), Hi(keys', j, hi)) {
      assert SoundChild(cs[m + j], l, h - 1, Lo(keys, m + j, lo), Hi(keys, m + j, hi));
    }
  }

  lemma ChildrenJoined<V>(ks: seq<int>, cs: seq<Tree<V>>, key: int, ks': seq<int>, cs': seq<Tree<V>>, l: Limits, h: nat,
                          lo: Option<int>, hi: Option<int>)
    requires SoundChildren(ks, cs, l, h, lo, Some(key)) && SoundChildren(ks', cs', l, h, Some(key), hi)
    requires (lo.None? || lo.value < key) && LessThan(key, hi)
    ensures SoundChildren(ks + [key] + ks', cs + cs', l, h, lo, hi)
  {
    hide SoundChild;
    var keys, all := ks + [key] + ks', cs + cs';
    forall j | 0 <= j < |all| ensures SoundChild(all[j], l, h - 1, Lo(keys, j, lo), Hi(keys, j, hi)) {
      if j < |cs| {
        assert SoundChild(cs[j], l, h - 1, Lo(ks, j, lo), Hi(ks, j, Some(key)));
      } else {
        assert SoundChild(cs'[j - |cs|], l, h - 1, Lo(ks', j - |cs|, Some(key)), Hi(ks', j - |cs|, hi));
      }
    }
  }

  // ----- insertion -----

  /** A subtree after an insertion: as sound as before, with the entries `es`, and no smaller. */
  ghost predicate SoundGrown<V>(g: Grown<V>, l: Limits, h: nat, lo: Option<int>, hi: Option<int>, es: seq<Entry<V>>,
                                size: nat) {
    match g
    case Whole(t) => Sound(t, l, h, lo, hi) && Size(t) >= size && Entries(t) == es
    case Halves(left, key, right) =>
      && SoundChild(left, l, h, lo, Some(key)) && SoundChild(right, l, h, Some(key), hi)
      && (lo.None? || lo.value < key) && LessThan(key, hi)
      && Entries(left) + Entries(right) == es
  }

  lemma InsertBounded<V>(es: seq<Entry<V>>, k: int, v: V, lo: Option<int>, hi: Option<int>)
    requires Bounded(es, lo, hi) && AtLeast(k, lo) && LessThan(k, hi)
    ensures Bounded(Insert(es, k, v), lo, hi)
  {
    hide Has;
  }

  lemma SplitLeafSound<V>(es: seq<Entry<V>>, l: Limits, lo: Option<int>, hi: Option<int>)
    requires LimitsOk(l) && |es| == l.leafMax && Sorted(es) && Bounded(es, lo, hi)
    ensures SoundGrown(SplitLeaf(es, l), l, 0, lo, hi, es, 0)
  {
    var m := LeafMin(l);
    assert es[m..l.leafMax] == es[m..];
    assert es[..m] + es[m..] == es;
    assert es[0].0 < es[m].0;
    assert Sound(Leaf(es[..m]), l, 0, lo, Some(es[m].0)) && Sound(Leaf(es[m..]), l, 0, Some(es[m].0), hi);
  }

  lemma InsertIntoLeaf<V>(es: seq<Entry<V>>, l: Limits, lo: Option<int>, hi: Option<int>, k: int, v: V)
    requires LimitsOk(l) && Sound(Leaf(es), l, 0, lo, hi) && AtLeast(k, lo) && LessThan(k, hi)
    ensures SoundGrown(InsertInto(Leaf(es), k, v, l, 0), l, 0, lo, hi, Insert(es, k, v), |es|)
  {
    var es' := Insert(es, k, v);
    InsertSorted(es, k, v);
    InsertBounded(es, k, v, lo, hi);
    assert |es'| <= |es| + 1 && (|es'| == |es| ==> es' == es);
    hide Insert, Sorted, Bounded;
    if |es'| == l.leafMax { SplitLeafSound(es', l, lo, hi); }
  }

  lemma SplitNodeSound<V>(keys: seq<int>, cs: seq<Tree<V>>, l: Limits, h: nat, lo: Option<int>, hi: Option<int>)
    requires LimitsOk(l) && |cs| == l.internalMax + 1 && SoundChildren(keys, cs, l, h, lo, hi)
             && Shaped(Node(keys, cs), h)
    ensures SoundGrown(SplitNode(keys, cs, l, h), l, h, lo, hi, All(cs), 0)
  {
    var m := NodeMin(l);
    ChildrenTaken(keys, cs, l, h, lo, hi, m);
    ChildrenDropped(keys, cs, l, h, lo, hi, m);
    assert cs == cs[..m] + cs[m..];
    AllConcat(cs[..m], cs[m..]);
    assert (lo.None? || lo.value < keys[m - 1]) && LessThan(keys[m - 1], hi);
    var left, right := Node(keys[..m - 1], cs[..m]), Node(keys[m..], cs[m..]);
    assert SoundChild(left, l, h, lo, Some(keys[m - 1]));
    assert SoundChild(right, l, h, Some(keys[m - 1]), hi);
    hide SoundChild;
  }

  lemma {:induction false} InsertIntoSound<V>(t: Tree<V>, l: Limits, h: nat, lo: Option<int>, hi: Option<int>, k: int,
                                              v: V)
    requires LimitsOk(l) && Sound(t, l, h, lo, hi) && AtLeast(k, lo) && LessThan(k, hi)
    ensures Shaped(t, h) && SoundGrown(InsertInto(t, k, v, l, h), l, h, lo, hi, Insert(Entries(t), k, v), Size(t))
  {
    SoundIsShaped(t, l, h, lo, hi);
    match t
    case Leaf(es) => InsertIntoLeaf(es, l, lo, hi, k, v);
    case Node(keys, cs) =>
      var i := ChildOf(keys, k);
      ChildOfSplits(keys, cs, l, h, lo, hi, k);
      assert SoundChild(cs[i], l, h - 1, Lo(keys, i, lo), Hi(keys, i, hi));
      InsertIntoSound(cs[i], l, h - 1, Lo(keys, i, lo), Hi(keys, i, hi), k, v);
      InsertIntoNode(keys, cs, l, h, lo, hi, k, v, InsertInto(cs[i], k, v, l, h - 1));
  }

  lemma WithChild<V>(keys: seq<int>, cs: seq<Tree<V>>, l: Limits, h: nat, lo: Option<int>, hi: Option<int>, i: nat,
                     c: Tree<V>)
    requires SoundChildren(keys, cs, l, h, lo, hi) && |cs| <= l.internalMax && i < |cs|
    requires SoundChild(c, l, h - 1, Lo(keys, i, lo), Hi(keys, i, hi))
    ensures Sound(Node(keys, cs[i := c]), l, h, lo, hi)
    ensures Entries(Node(keys, cs[i := c])) == All(cs[..i]) + Entries(c) + All(cs[i + 1..])
  {
    ChildrenReplaced(keys, cs, l, h, lo, hi, i, c);
    AllReplaced(cs, i, c);
  }

  /** A node whose child was split is one child larger, or is split itself. */
  lemma WithHalves<V>(keys: seq<int>, cs: seq<Tree<V>>, l: Limits, h: nat, lo: Option<int>, hi: Option<int>,
                      i: nat, left: Tree<V>, key: int, right: Tree<V>)
    requires LimitsOk(l) && SoundChildren(keys, cs, l, h, lo, hi) && |cs| <= l.internalMax && i < |cs|
    requires SoundChild(left, l, h - 1, Lo(keys, i, lo), Some(key))
             && SoundChild(right, l, h - 1, Some(key), Hi(keys, i, hi))
    requires (Lo(keys, i, lo).None? || Lo(keys, i, lo).value < key) && LessThan(key, Hi(keys, i, hi))
    ensures var keys', cs' := InsertAt(keys, i, key), InsertAt(cs[i := left], i + 1, right);
            && Shaped(Node(keys', cs'), h)
            && SoundGrown(if |cs| < l.internalMax then Whole(Node(keys', cs'))
                          else SplitNode(keys', cs', l, h), l, h, lo, hi,
                          All(cs[..i]) + (Entries(left) + Entries(right)) + All(cs[i + 1..]), |cs|)
  {
    var keys', cs' := InsertAt(keys, i, key), InsertAt(cs[i := left], i + 1, right);
    ChildrenInserted(keys, cs, l, h, lo, hi, i, left, key, right);
    AllSplit(cs, i, left, right);
    ChildrenShaped(keys', cs', l, h, lo, hi);
    hide SoundChildren, Shaped, All, SoundChild;
    if |cs| == l.internalMax { SplitNodeSound(keys', cs', l, h, lo, hi); }
  }

  lemma ChildrenShaped<V>(keys: seq<int>, cs: seq<Tree<V>>, l: Limits, h: nat, lo: Option<int>, hi: Option<int>)
    requires SoundChildren(keys, cs, l, h, lo, hi)
    ensures Shaped(Node(keys, cs), h)
  {
    forall i | 0 <= i < |cs| ensures Shaped(cs[i], h - 1) {
      assert SoundChild(cs[i], l, h - 1, Lo(keys, i, lo), Hi(keys, i, hi));
      SoundIsShaped(cs[i], l, h - 1, Lo(keys, i, lo), Hi(keys, i, hi));
    }
  }

  /** An insertion below a node happens in the entries of one child. */
  lemma InsertBelow<V>(keys: seq<int>, cs: seq<Tree<V>>, l: Limits, h: nat, lo: Option<int>, hi: Option<int>, k: int,
                       v: V)
    requires AtLeast(k, lo) && LessThan(k, hi) && SoundChildren(keys, cs, l, h, lo, hi)
    ensures var i := ChildOf(keys, k);
            Insert(All(cs), k, v) == All(cs[..i]) + Insert(Entries(cs[i]), k, v) + All(cs[i + 1..])
  {
    var i := ChildOf(keys, k);
    ChildOfSplits(keys, cs, l, h, lo, hi, k);
    AllAround(cs, i);
    InsertMiddle(All(cs[..i]), Entries(cs[i]), All(cs[i + 1..]), k, v);
  }

  /** The step at a node whose child stays one tree. */
  lemma InsertIntoWhole<V>(keys: seq<int>, cs: seq<Tree<V>>, l: Limits, h: nat, lo: Option<int>, hi: Option<int>,
                           i: nat, c: Tree<V>, es: seq<Entry<V>>)
    requires |cs| <= l.internalMax && SoundChildren(keys, cs, l, h, lo, hi) && i < |cs|
    requires SoundChild(cs[i], l, h - 1, Lo(keys, i, lo), Hi(keys, i, hi))
    requires SoundGrown(Whole(c), l, h - 1, Lo(keys, i, lo), Hi(keys, i, hi), es, Size(cs[i]))
    ensures SoundGrown(Whole(Node(keys, cs[i := c])), l, h, lo, hi, All(cs[..i]) + es + All(cs[i + 1..]), |cs|)
  {
    KindByHeight(c, l, h - 1, Lo(keys, i, lo), Hi(keys, i, hi));
    KindByHeight(cs[i], l, h - 1, Lo(keys, i, lo), Hi(keys, i, hi));
    WithChild(keys, cs, l, h, lo, hi, i, c);
  }

  /** The step at a node, given that the child was handled well. */
  lemma InsertIntoNode<V>(keys: seq<int>, cs: seq<Tree<V>>, l: Limits, h: nat, lo: Option<int>, hi: Option<int>, k: int,
                          v: V, g: Grown<V>)
    requires LimitsOk(l) && AtLeast(k, lo) && LessThan(k, hi) && |cs| <= l.internalMax
    requires SoundChildren(keys, cs, l, h, lo, hi) && Shaped(Node(keys, cs), h)
    requires g == InsertInto(cs[ChildOf(keys, k)], k, v, l, h - 1)
    requires var i := ChildOf(keys, k);
             && SoundChild(cs[i], l, h - 1, Lo(keys, i, lo), Hi(keys, i, hi))
             && SoundGrown(g, l, h - 1, Lo(keys, i, lo), Hi(keys, i, hi), Insert(Entries(cs[i]), k, v), Size(cs[i]))
    ensures SoundGrown(InsertInto(Node(keys, cs), k, v, l, h), l, h, lo, hi, Insert(All(cs), k, v), |cs|)
  {
    var i := ChildOf(keys, k);
    InsertBelow(keys, cs, l, h, lo, hi, k, v);
    match g
    case Whole(c) =>
      assert InsertInto(Node(keys, cs), k, v, l, h) == Whole(Node(keys, cs[i := c]));
      hide *;
      InsertIntoWhole(keys, cs, l, h, lo, hi, i, c, Insert(Entries(cs[i]), k, v));
    case Halves(left, key, right) =>
      WithHalves(keys, cs, l, h, lo, hi, i, left, key, right);
      hide All, Entries, Insert, ChildOf, Lo, Hi, SoundChildren, Shaped, Separators, SoundChild, SoundGrown;
  }

  lemma KindByHeight<V>(t: Tree<V>, l: Limits, h: nat, lo: Option<int>, hi: Option<int>)
    requires Sound(t, l, h, lo, hi)
    ensures t.Leaf? <==> h == 0
  {
  }

  // ----- removal: two neighbours -----

  /** Two neighbours on one level with a separator between them. */
  ghost predicate Neighbours<V>(left: Tree<V>, key: int, right: Tree<V>, l: Limits, h: nat, lo: Option<int>,
                                hi: Option<int>) {
    && Sound(left, l, h, lo, Some(key)) && Sound(right, l, h, Some(key), hi)
    && (lo.None? || lo.value < key) && LessThan(key, hi)
  }

  /** ... both at least half full. */
  ghost predicate GoodNeighbours<V>(r: (Tree<V>, int, Tree<V>), l: Limits, h: nat, lo: Option<int>, hi: Option<int>,
                                    es: seq<Entry<V>>) {
    && Neighbours(r.0, r.1, r.2, l, h, lo, hi)
    && Size(r.0) >= MinSize(r.0, l) && Size(r.2) >= MinSize(r.2, l)
    && Entries(r.0) + Entries(r.2) == es
  }

  lemma LastMoves<V>(a: seq<Tree<V>>, t: Tree<V>, c: seq<Tree<V>>)
    ensures All(a) + All([t] + c) == All(a + [t]) + All(c)
  {
    hide All, Entries;
    AllConcat(a, [t] + c);
    AllConcat(a + [t], c);
    assert a + ([t] + c) == (a + [t]) + c;
  }

  lemma FirstMoves<V>(cs: seq<Tree<V>>, cs': seq<Tree<V>>)
    requires cs' != []
    ensures All(cs + [cs'[0]]) + All(cs'[1..]) == All(cs) + All(cs')
  {
    hide All, Entries;
    AllConcat(cs, cs');
    AllConcat(cs + [cs'[0]], cs'[1..]);
    assert (cs + [cs'[0]]) + cs'[1..] == cs + cs';
  }

  lemma NodePair<V>(ks: seq<int>, cs: seq<Tree<V>>, key: int, ks': seq<int>, cs': seq<Tree<V>>, l: Limits, h: nat,
                    lo: Option<int>, hi: Option<int>)
    requires SoundChildren(ks, cs, l, h, lo, Some(key)) && SoundChildren(ks', cs', l, h, Some(key), hi) && h > 0
    requires NodeMin(l) <= |cs| <= l.internalMax && NodeMin(l) <= |cs'| <= l.internalMax
    requires (lo.None? || lo.value < key) && LessThan(key, hi)
    ensures GoodNeighbours((Node(ks, cs), key, Node(ks', cs')), l, h, lo, hi, All(cs) + All(cs'))
  {
    hide All, SoundChild, Separators;
  }

  lemma ShiftNodesRight<V>(ks: seq<int>, cs: seq<Tree<V>>, key: int, ks': seq<int>, cs': seq<Tree<V>>, l: Limits,
                           h: nat,
                           lo: Option<int>, hi: Option<int>)
    requires LimitsOk(l) && h > 0 && |cs| <= l.internalMax && |cs'| <= l.internalMax
    requires SoundChildren(ks, cs, l, h, lo, Some(key)) && SoundChildren(ks', cs', l, h, Some(key), hi)
    requires (lo.None? || lo.value < key) && LessThan(key, hi)
    requires |cs| > NodeMin(l) && |cs'| + 1 == NodeMin(l) && |cs| == |ks| + 1 && |cs'| == |ks'| + 1
    ensures GoodNeighbours((Node(ks[..|ks| - 1], cs[..|cs| - 1]), ks[|ks| - 1],
                            Node([key] + ks', [cs[|cs| - 1]] + cs')),
                           l, h, lo, hi, All(cs) + All(cs'))
  {
    var n, m := |cs| - 1, |ks| - 1;
    ChildrenTaken(ks, cs, l, h, lo, Some(key), n);
    LastChild(ks, cs, l, h, lo, Some(key));
    hide SoundChildren, All, Entries, GoodNeighbours;
    ChildrenJoined([], [cs[n]], key, ks', cs', l, h, Some(ks[m]), hi);
    assert [] + [key] + ks' == [key] + ks';
    assert All(cs[..n]) + All([cs[n]] + cs') == All(cs) + All(cs') by {
      LastMoves(cs[..n], cs[n], cs');
      Cut(cs, n);
    }
    NodePair(ks[..m], cs[..n], ks[m], [key] + ks', [cs[n]] + cs', l, h, lo, hi);
  }

  /** The last child, or the first, as a node of its own. */
  lemma LastChild<V>(ks: seq<int>, cs: seq<Tree<V>>, l: Limits, h: nat, lo: Option<int>, hi: Option<int>)
    requires SoundChildren(ks, cs, l, h, lo, hi) && |ks| > 0
    ensures SoundChildren([], [cs[|cs| - 1]], l, h, Some(ks[|ks| - 1]), hi)
    ensures (lo.None? || lo.value < ks[|ks| - 1]) && LessThan(ks[|ks| - 1], hi)
  {
    hide SoundChild;
    assert SoundChild(cs[|cs| - 1], l, h - 1, Lo(ks, |cs| - 1, lo), Hi(ks, |cs| - 1, hi));
  }

  lemma FirstChild<V>(ks: seq<int>, cs: seq<Tree<V>>, l: Limits, h: nat, lo: Option<int>, hi: Option<int>)
    requires SoundChildren(ks, cs, l, h, lo, hi) && |ks| > 0
    ensures SoundChildren([], [cs[0]], l, h, lo, Some(ks[0]))
    ensures (lo.None? || lo.value < ks[0]) && LessThan(ks[0], hi)
  {
    hide SoundChild;
    assert SoundChild(cs[0], l, h - 1, Lo(ks, 0, lo), Hi(ks, 0, hi));
  }

  lemma ShiftNodesLeft<V>(ks: seq<int>, cs: seq<Tree<V>>, key: int, ks': seq<int>, cs': seq<Tree<V>>, l: Limits, h: nat,
                          lo: Option<int>, hi: Option<int>)
    requires LimitsOk(l) && h > 0 && |cs| <= l.internalMax && |cs'| <= l.internalMax
    requires SoundChildren(ks, cs, l, h, lo, Some(key)) && SoundChildren(ks', cs', l, h, Some(key), hi)
    requires (lo.None? || lo.value < key) && LessThan(key, hi)
    requires |cs'| > NodeMin(l) && |cs| + 1 == NodeMin(l) && |cs| == |ks| + 1 && |cs'| == |ks'| + 1
    ensures GoodNeighbours((Node(ks + [key], cs + [cs'[0]]), ks'[0], Node(ks'[1..], cs'[1..])), l, h, lo, hi,
                           All(cs) + All(cs'))
  {
    ChildrenDropped(ks', cs', l, h, Some(key), hi, 1);
    FirstChild(ks', cs', l, h, Some(key), hi);
    FirstMoves(cs, cs');
    hide SoundChildren, All, Entries, GoodNeighbours;
    ChildrenJoined(ks, cs, key, [], [cs'[0]], l, h, lo, Some(ks'[0]));
    assert ks + [key] + [] == ks + [key];
    NodePair(ks + [key], cs + [cs'[0]], ks'[0], ks'[1..], cs'[1..], l, h, lo, hi);
  }

  lemma ShiftLeavesRight<V>(a: seq<Entry<V>>, key: int, b: seq<Entry<V>>, l: Limits, lo: Option<int>, hi: Option<int>)
    requires LimitsOk(l) && Neighbours(Leaf(a), key, Leaf(b), l, 0, lo, hi) && |a| > LeafMin(l) && |b| + 1 == LeafMin(l)
    ensures GoodNeighbours((Leaf(a[..|a| - 1]), a[|a| - 1].0, Leaf([a[|a| - 1]] + b)), l, 0, lo, hi, a + b)
  {
    var n := |a| - 1;
    assert a[..n] + ([a[n]] + b) == a + b;
    assert a[0].0 < a[n].0;
  }

  lemma ShiftLeavesLeft<V>(a: seq<Entry<V>>, key: int, b: seq<Entry<V>>, l: Limits, lo: Option<int>, hi: Option<int>)
    requires LimitsOk(l) && Neighbours(Leaf(a), key, Leaf(b), l, 0, lo, hi) && |b| > LeafMin(l) && |a| + 1 == LeafMin(l)
    ensures GoodNeighbours((Leaf(a + [b[0]]), b[1].0, Leaf(b[1..])), l, 0, lo, hi, a + b)
  {
    assert (a + [b[0]]) + b[1..] == a + b;
    assert b[0].0 < b[1].0;
  }

  lemma ShiftRightOfNodes<V>(ks: seq<int>, cs: seq<Tree<V>>, key: int, ks': seq<int>, cs': seq<Tree<V>>, h: nat)
    requires Shaped(Node(ks, cs), h) && Shaped(Node(ks', cs'), h) && |cs| > 1
    ensures ShiftRight(Node(ks, cs), key, Node(ks', cs'), h) ==
            (Node(ks[..|ks| - 1], cs[..|cs| - 1]), ks[|ks| - 1], Node([key] + ks', [cs[|cs| - 1]] + cs'))
  {
  }

  lemma ShiftLeftOfNodes<V>(ks: seq<int>, cs: seq<Tree<V>>, key: int, ks': seq<int>, cs': seq<Tree<V>>, h: nat)
    requires Shaped(Node(ks, cs), h) && Shaped(Node(ks', cs'), h) && |cs'| > 1
    ensures ShiftLeft(Node(ks, cs), key, Node(ks', cs'), h) ==
            (Node(ks + [key], cs + [cs'[0]]), ks'[0], Node(ks'[1..], cs'[1..]))
  {
  }

  lemma NodeChildren<V>(t: Tree<V>, l: Limits, h: nat, lo: Option<int>, hi: Option<int>)
    requires Sound(t, l, h, lo, hi) && t.Node?
    ensures SoundChildren(t.keys, t.children, l, h, lo, hi)
    ensures h > 0 && |t.children| <= l.internalMax && |t.children| == |t.keys| + 1
  {
  }

  /** Borrowing from the left neighbour makes both good. */
  lemma ShiftRightSound<V>(left: Tree<V>, key: int, right: Tree<V>, l: Limits, h: nat, lo: Option<int>, hi: Option<int>)
    requires LimitsOk(l) && Neighbours(left, key, right, l, h, lo, hi) && Shaped(left, h) && Shaped(right, h)
    requires Size(left) > MinSize(left, l) && Size(right) + 1 == MinSize(right, l)
    ensures Size(left) > 1 && GoodNeighbours(ShiftRight(left, key, right, h), l, h, lo, hi,
                                             Entries(left) + Entries(right))
  {
    KindByHeight(left, l, h, lo, Some(key));
    KindByHeight(right, l, h, Some(key), hi);
    match left
    case Leaf(a) =>
      hide GoodNeighbours;
      ShiftLeavesRight(a, key, right.entries, l, lo, hi);
    case Node(ks, cs) =>
      NodeChildren(left, l, h, lo, Some(key));
      NodeChildren(right, l, h, Some(key), hi);
      ShiftRightOfNodes(ks, cs, key, right.keys, right.children, h);
      hide GoodNeighbours, Sound, SoundChildren, Shaped, All, ShiftRight;
      ShiftNodesRight(ks, cs, key, right.keys, right.children, l, h, lo, hi);
  }

  /** Borrowing from the right neighbour does so too. */
  lemma ShiftLeftSound<V>(left: Tree<V>, key: int, right: Tree<V>, l: Limits, h: nat, lo: Option<int>, hi: Option<int>)
    requires LimitsOk(l) && Neighbours(left, key, right, l, h, lo, hi) && Shaped(left, h) && Shaped(right, h)
    requires Size(right) > MinSize(right, l) && Size(left) + 1 == MinSize(left, l)
    ensures Size(right) > 1 && GoodNeighbours(ShiftLeft(left, key, right, h), l, h, lo, hi,
                                              Entries(left) + Entries(right))
  {
    KindByHeight(left, l, h, lo, Some(key));
    KindByHeight(right, l, h, Some(key), hi);
    match left
    case Leaf(a) =>
      hide GoodNeighbours;
      ShiftLeavesLeft(a, key, right.entries, l, lo, hi);
    case Node(ks, cs) =>
      NodeChildren(left, l, h, lo, Some(key));
      NodeChildren(right, l, h, Some(key), hi);
      ShiftLeftOfNodes(ks, cs, key, right.keys, right.children, h);
      hide GoodNeighbours, Sound, SoundChildren, Shaped, All, ShiftLeft;
      ShiftNodesLeft(ks, cs, key, right.keys, right.children, l, h, lo, hi);
  }

  /** Two neighbours that hold little enough become one. */
  lemma CoalesceSound<V>(left: Tree<V>, key: int, right: Tree<V>, l: Limits, h: nat, lo: Option<int>, hi: Option<int>)
    requires LimitsOk(l) && Neighbours(left, key, right, l, h, lo, hi)
    requires Size(left) + Size(right) + 1 == 2 * MinSize(left, l)
    ensures Shaped(left, h) && Shaped(right, h)
    ensures SoundChild(Coalesce(left, key, right, h), l, h, lo, hi)
    ensures Entries(Coalesce(left, key, right, h)) == Entries(left) + Entries(right)
  {
    SoundIsShaped(left, l, h, lo, Some(key));
    SoundIsShaped(right, l, h, Some(key), hi);
    match left
    case Leaf(a) =>
      InOrderConcat(a, right.entries, lo, key, hi);
    case Node(ks, cs) =>
      ChildrenJoined(ks, cs, key, right.keys, right.children, l, h, lo, hi);
      AllConcat(cs, right.children);
  }

  // ----- removal: the node above -----

  /** Children of a node that are sound, except that child `i` may be too small. */
  ghost predicate SoundButOne<V>(keys: seq<int>, cs: seq<Tree<V>>, l: Limits, h: nat, lo: Option<int>, hi: Option<int>,
                                 i: nat) {
    && |cs| == |keys| + 1 && h > 0 && Separators(keys, lo, hi) && i < |cs|
    && (forall j :: 0 <= j < |cs| && j != i ==> SoundChild(cs[j], l, h - 1, Lo(keys, j, lo), Hi(keys, j, hi)))
    && Sound(cs[i], l, h - 1, Lo(keys, i, lo), Hi(keys, i, hi))
  }

  lemma NeighboursOf<V>(keys: seq<int>, cs: seq<Tree<V>>, l: Limits, h: nat, lo: Option<int>, hi: Option<int>, i: nat,
                        j: nat)
    requires SoundButOne(keys, cs, l, h, lo, hi, i) && j < |keys| && (i == j || i == j + 1)
    ensures Neighbours(cs[j], keys[j], cs[j + 1], l, h - 1, Lo(keys, j, lo), Hi(keys, j + 1, hi))
  {
    if i == j {
      assert SoundChild(cs[j + 1], l, h - 1, Lo(keys, j + 1, lo), Hi(keys, j + 1, hi));
    } else {
      assert SoundChild(cs[j], l, h - 1, Lo(keys, j, lo), Hi(keys, j, hi));
    }
  }

  /** Another separator and two other neighbours around it. */
  lemma PairReplaced<V>(keys: seq<int>, cs: seq<Tree<V>>, l: Limits, h: nat, lo: Option<int>, hi: Option<int>, i: nat,
                        j: nat,
                        r: (Tree<V>, int, Tree<V>))
    requires SoundButOne(keys, cs, l, h, lo, hi, i) && j < |keys| && (i == j || i == j + 1)
    requires SoundChild(r.0, l, h - 1, Lo(keys, j, lo), Some(r.1))
             && SoundChild(r.2, l, h - 1, Some(r.1), Hi(keys, j + 1, hi))
    requires (Lo(keys, j, lo).None? || Lo(keys, j, lo).value < r.1) && LessThan(r.1, Hi(keys, j + 1, hi))
    ensures SoundChildren(keys[j := r.1], cs[j := r.0][j + 1 := r.2], l, h, lo, hi)
  {
    var keys', cs' := keys[j := r.1], cs[j := r.0][j + 1 := r.2];
    SeparatorsReplaced(keys, j, r.1, lo, hi);
    hide SoundChild, Sound, Separators;
    forall n | 0 <= n < |cs'| ensures SoundChild(cs'[n], l, h - 1, Lo(keys', n, lo), Hi(keys', n, hi)) {
      if n != j && n != j + 1 {
        assert SoundChild(cs[n], l, h - 1, Lo(keys, n, lo), Hi(keys, n, hi));
      }
    }
  }

  lemma SeparatorsReplaced(keys: seq<int>, j: nat, key: int, lo: Option<int>, hi: Option<int>)
    requires Separators(keys, lo, hi) && j < |keys|
    requires (Lo(keys, j, lo).None? || Lo(keys, j, lo).value < key) && LessThan(key, Hi(keys, j + 1, hi))
    ensures Separators(keys[j := key], lo, hi)
  {
    if j > 0 { assert forall n :: 0 <= n < j ==> keys[n] <= keys[j - 1]; }
    if j + 1 < |keys| { assert forall n :: j < n < |keys| ==> keys[j + 1] <= keys[n]; }
  }

  lemma PairMerged<V>(keys: seq<int>, cs: seq<Tree<V>>, l: Limits, h: nat, lo: Option<int>, hi: Option<int>, i: nat,
                      j: nat, c: Tree<V>)
    requires SoundButOne(keys, cs, l, h, lo, hi, i) && j < |keys| && (i == j || i == j + 1)
    requires SoundChild(c, l, h - 1, Lo(keys, j, lo), Hi(keys, j + 1, hi))
    ensures SoundChildren(RemoveAt(keys, j), RemoveAt(cs[j := c], j + 1), l, h, lo, hi)
  {
    var keys', cs' := RemoveAt(keys, j), RemoveAt(cs[j := c], j + 1);
    SeparatorsRemoved(keys, j, lo, hi);
    RemovedAt(keys, j);
    RemovedAt(cs[j := c], j + 1);
    hide SoundChild, Sound, Separators, RemoveAt;
    forall n | 0 <= n < |cs'| ensures SoundChild(cs'[n], l, h - 1, Lo(keys', n, lo), Hi(keys', n, hi)) {
      if n < j {
        assert SoundChild(cs[n], l, h - 1, Lo(keys, n, lo), Hi(keys, n, hi));
      } else if n > j {
        assert SoundChild(cs[n + 1], l, h - 1, Lo(keys, n + 1, lo), Hi(keys, n + 1, hi));
      }
    }
  }

  lemma RemovedAt<T>(s: seq<T>, i: nat)
    requires i < |s|
    ensures |RemoveAt(s, i)| == |s| - 1
    ensures forall n :: 0 <= n < |s| - 1 ==> RemoveAt(s, i)[n] == if n < i then s[n] else s[n + 1]
  {
  }

  lemma SeparatorsRemoved(keys: seq<int>, j: nat, lo: Option<int>, hi: Option<int>)
    requires Separators(keys, lo, hi) && j < |keys|
    ensures Separators(RemoveAt(keys, j), lo, hi)
  {
    RemovedAt(keys, j);
    hide RemoveAt;
  }

  // the entries of a node whose neighbours were shifted or merged

  lemma AllPair<V>(a: seq<Tree<V>>, s: Tree<V>, t: Tree<V>, c: seq<Tree<V>>)
    ensures All(a + [s] + [t] + c) == All(a) + (Entries(s) + Entries(t)) + All(c)
  {
    AllThree(a + [s], t, c);
    AllConcat(a, [s]);
    AllOne(s);
    hide All, Entries;
    assert All(a) + Entries(s) + Entries(t) == All(a) + (Entries(s) + Entries(t));
  }

  lemma CutPair<T>(cs: seq<T>, j: nat, s: T, t: T)
    requires j + 1 < |cs|
    ensures cs[j := s][j + 1 := t] == cs[..j] + [s] + [t] + cs[j + 2..]
    ensures RemoveAt(cs[j := s], j + 1) == cs[..j] + [s] + cs[j + 2..]
    ensures cs == cs[..j] + [cs[j]] + [cs[j + 1]] + cs[j + 2..]
  {
  }

  lemma AllShifted<V>(cs: seq<Tree<V>>, j: nat, s: Tree<V>, t: Tree<V>)
    requires j + 1 < |cs| && Entries(s) + Entries(t) == Entries(cs[j]) + Entries(cs[j + 1])
    ensures All(cs[j := s][j + 1 := t]) == All(cs)
  {
    hide All, Entries;
    AllPair(cs[..j], s, t, cs[j + 2..]);
    AllPair(cs[..j], cs[j], cs[j + 1], cs[j + 2..]);
    CutPair(cs, j, s, t);
  }

  lemma AllMerged<V>(cs: seq<Tree<V>>, j: nat, s: Tree<V>)
    requires j + 1 < |cs| && Entries(s) == Entries(cs[j]) + Entries(cs[j + 1])
    ensures All(RemoveAt(cs[j := s], j + 1)) == All(cs)
  {
    hide All, Entries;
    AllThree(cs[..j], s, cs[j + 2..]);
    AllPair(cs[..j], cs[j], cs[j + 1], cs[j + 2..]);
    CutPair(cs, j, s, s);
  }

  /** Child `i` lacks one item: after the repair the node is sound, with the same entries and at most one child less. */
  ghost predicate Repaired<V>(t: Tree<V>, cs: seq<Tree<V>>, l: Limits, h: nat, lo: Option<int>, hi: Option<int>) {
    && t.Node? && SoundChildren(t.keys, t.children, l, h, lo, hi)
    && |cs| - 1 <= |t.children| <= |cs| && All(t.children) == All(cs)
  }

  lemma RepairByShift<V>(keys: seq<int>, cs: seq<Tree<V>>, l: Limits, h: nat, lo: Option<int>, hi: Option<int>, i: nat,
                         j: nat,
                         r: (Tree<V>, int, Tree<V>))
    requires SoundButOne(keys, cs, l, h, lo, hi, i) && j < |keys| && (i == j || i == j + 1)
    requires Shaped(Node(keys, cs), h) && Shaped(r.0, h - 1) && Shaped(r.2, h - 1)
    requires GoodNeighbours(r, l, h - 1, Lo(keys, j, lo), Hi(keys, j + 1, hi), Entries(cs[j]) + Entries(cs[j + 1]))
    ensures Repaired(Shifted(keys, cs, j, r, h), cs, l, h, lo, hi)
  {
    PairReplaced(keys, cs, l, h, lo, hi, i, j, r);
    AllShifted(cs, j, r.0, r.2);
    hide SoundChildren, All, Shaped, GoodNeighbours;
  }

  lemma RepairByMerge<V>(keys: seq<int>, cs: seq<Tree<V>>, l: Limits, h: nat, lo: Option<int>, hi: Option<int>, i: nat,
                         j: nat, c: Tree<V>)
    requires SoundButOne(keys, cs, l, h, lo, hi, i) && j < |keys| && (i == j || i == j + 1)
    requires Shaped(Node(keys, cs), h) && Shaped(c, h - 1)
    requires SoundChild(c, l, h - 1, Lo(keys, j, lo), Hi(keys, j + 1, hi))
             && Entries(c) == Entries(cs[j]) + Entries(cs[j + 1])
    ensures Repaired(Merged(keys, cs, j, c, h), cs, l, h, lo, hi)
  {
    PairMerged(keys, cs, l, h, lo, hi, i, j, c);
    AllMerged(cs, j, c);
    hide SoundChildren, All, Shaped, SoundChild;
  }

  lemma SameKind<V>(keys: seq<int>, cs: seq<Tree<V>>, l: Limits, h: nat, lo: Option<int>, hi: Option<int>, i: nat,
                    j: nat)
    requires SoundButOne(keys, cs, l, h, lo, hi, i) && j < |cs|
    ensures MinSize(cs[j], l) == MinSize(cs[i], l) && (j != i ==> Size(cs[j]) >= MinSize(cs[j], l))
  {
    KindByHeight(cs[i], l, h - 1, Lo(keys, i, lo), Hi(keys, i, hi));
    if j != i {
      assert SoundChild(cs[j], l, h - 1, Lo(keys, j, lo), Hi(keys, j, hi));
      KindByHeight(cs[j], l, h - 1, Lo(keys, j, lo), Hi(keys, j, hi));
    }
  }

  lemma RepairSound<V>(keys: seq<int>, cs: seq<Tree<V>>, l: Limits, h: nat, lo: Option<int>, hi: Option<int>, i: nat)
    requires LimitsOk(l) && SoundButOne(keys, cs, l, h, lo, hi, i) && Shaped(Node(keys, cs), h)
    requires |cs| >= 2 && Size(cs[i]) + 1 == MinSize(cs[i], l)
    ensures Repaired(Repair(keys, cs, i, l, h), cs, l, h, lo, hi)
  {
    var j := if i > 0 then i - 1 else 0;
    var s := if i > 0 then i - 1 else 1;
    NeighboursOf(keys, cs, l, h, lo, hi, i, j);
    SameKind(keys, cs, l, h, lo, hi, i, s);
    var lo', hi' := Lo(keys, j, lo), Hi(keys, j + 1, hi);
    if Size(cs[s]) > MinSize(cs[s], l) {
      if i > 0 {
        ShiftRightSound(cs[j], keys[j], cs[j + 1], l, h - 1, lo', hi');
      } else {
        ShiftLeftSound(cs[j], keys[j], cs[j + 1], l, h - 1, lo', hi');
      }
      hide Neighbours, GoodNeighbours, SoundButOne, Repaired, Entries, Shifted, ShiftLeft, ShiftRight;
      var r := if i > 0 then ShiftRight(cs[j], keys[j], cs[j + 1], h - 1)
               else ShiftLeft(cs[j], keys[j], cs[j + 1], h - 1);
      RepairByShift(keys, cs, l, h, lo, hi, i, j, r);
    } else {
      CoalesceSound(cs[j], keys[j], cs[j + 1], l, h - 1, lo', hi');
      hide Neighbours, SoundChild, SoundButOne, Repaired, Entries, Merged, Coalesce;
      RepairByMerge(keys, cs, l, h, lo, hi, i, j, Coalesce(cs[j], keys[j], cs[j + 1], h - 1));
    }
  }

  // ----- removal -----

  /** A subtree after a removal: as sound as before but for one missing item at the top. */
  ghost predicate SoundShrunk<V>(t: Tree<V>, l: Limits, h: nat, lo: Option<int>, hi: Option<int>, es: seq<Entry<V>>,
                                 size: nat) {
    Sound(t, l, h, lo, hi) && Size(t) + 1 >= size && Entries(t) == es
  }

  lemma RemoveFromLeaf<V>(es: seq<Entry<V>>, l: Limits, lo: Option<int>, hi: Option<int>, k: int)
    requires LimitsOk(l) && Sound(Leaf(es), l, 0, lo, hi)
    ensures SoundShrunk(RemoveFrom(Leaf(es), k, l, 0), l, 0, lo, hi, Delete(es, k), |es|)
  {
    DeleteSorted(es, k);
    DeleteBounded(es, k, lo, hi);
    hide Sorted, Bounded, Has;
  }

  lemma DeleteBounded<V>(es: seq<Entry<V>>, k: int, lo: Option<int>, hi: Option<int>)
    requires Bounded(es, lo, hi)
    ensures Bounded(Delete(es, k), lo, hi)
  {
  }

  lemma DeleteBelow<V>(keys: seq<int>, cs: seq<Tree<V>>, l: Limits, h: nat, lo: Option<int>, hi: Option<int>, k: int)
    requires AtLeast(k, lo) && LessThan(k, hi) && SoundChildren(keys, cs, l, h, lo, hi)
    ensures var i := ChildOf(keys, k);
            Delete(All(cs), k) == All(cs[..i]) + Delete(Entries(cs[i]), k) + All(cs[i + 1..])
  {
    var i := ChildOf(keys, k);
    ChildOfSplits(keys, cs, l, h, lo, hi, k);
    AllAround(cs, i);
    DeleteMiddle(All(cs[..i]), Entries(cs[i]), All(cs[i + 1..]), k);
  }

  lemma BecomesButOne<V>(keys: seq<int>, cs: seq<Tree<V>>, l: Limits, h: nat, lo: Option<int>, hi: Option<int>, i: nat,
                         c: Tree<V>)
    requires SoundChildren(keys, cs, l, h, lo, hi) && i < |cs| && Sound(c, l, h - 1, Lo(keys, i, lo), Hi(keys, i, hi))
    ensures SoundButOne(keys, cs[i := c], l, h, lo, hi, i)
  {
    hide SoundChild, Sound, Separators;
  }

  /** The step at a node whose child has lost an item. */
  lemma RemoveFromNode<V>(keys: seq<int>, cs: seq<Tree<V>>, l: Limits, h: nat, lo: Option<int>, hi: Option<int>, i: nat,
                          c: Tree<V>, es: seq<Entry<V>>)
    requires LimitsOk(l) && 2 <= |cs| <= l.internalMax && SoundChildren(keys, cs, l, h, lo, hi) && i < |cs|
    requires SoundChild(cs[i], l, h - 1, Lo(keys, i, lo), Hi(keys, i, hi))
    requires SoundShrunk(c, l, h - 1, Lo(keys, i, lo), Hi(keys, i, hi), es, Size(cs[i]))
             && Shaped(Node(keys, cs[i := c]), h)
    ensures SoundShrunk(if Size(c) >= MinSize(c, l) then Node(keys, cs[i := c]) else Repair(keys, cs[i := c], i, l, h),
                        l, h, lo, hi, All(cs[..i]) + es + All(cs[i + 1..]), |cs|)
  {
    KindByHeight(c, l, h - 1, Lo(keys, i, lo), Hi(keys, i, hi));
    KindByHeight(cs[i], l, h - 1, Lo(keys, i, lo), Hi(keys, i, hi));
    if Size(c) >= MinSize(c, l) {
      WithChild(keys, cs, l, h, lo, hi, i, c);
    } else {
      BecomesButOne(keys, cs, l, h, lo, hi, i, c);
      RepairSound(keys, cs[i := c], l, h, lo, hi, i);
      AllReplaced(cs, i, c);
      hide SoundChildren, SoundButOne, SoundChild, All, Shaped, Repair;
    }
  }

  lemma {:induction false} RemoveFromSound<V>(t: Tree<V>, l: Limits, h: nat, lo: Option<int>, hi: Option<int>, k: int)
    requires LimitsOk(l) && Sound(t, l, h, lo, hi) && AtLeast(k, lo) && LessThan(k, hi) && (t.Node? ==> Size(t) >= 2)
    ensures Shaped(t, h) && SoundShrunk(RemoveFrom(t, k, l, h), l, h, lo, hi, Delete(Entries(t), k), Size(t))
  {
    SoundIsShaped(t, l, h, lo, hi);
    match t
    case Leaf(es) => RemoveFromLeaf(es, l, lo, hi, k);
    case Node(keys, cs) =>
      var i := ChildOf(keys, k);
      ChildOfSplits(keys, cs, l, h, lo, hi, k);
      assert SoundChild(cs[i], l, h - 1, Lo(keys, i, lo), Hi(keys, i, hi));
      RemoveFromSound(cs[i], l, h - 1, Lo(keys, i, lo), Hi(keys, i, hi), k);
      DeleteBelow(keys, cs, l, h, lo, hi, k);
      RemoveFromNode(keys, cs, l, h, lo, hi, i, RemoveFrom(cs[i], k, l, h - 1), Delete(Entries(cs[i]), k));
  }

  // ----- the whole tree -----

  /** The contents of a tree are in order, and searching them is searching the tree. */
  lemma TreeIsMap<V>(root: Option<Tree<V>>, l: Limits, h: nat, k: int)
    requires LimitsOk(l) && SoundRoot(root, l, h)
    ensures Sorted(Contents(root))
    ensures root.Some? ==> Shaped(root.value, h) && GetValue(root.value, k, h) == Lookup(Contents(root), k)
    ensures root.None? <==> Contents(root) == []
  {
    if root.Some? {
      EntriesInOrder(root.value, l, h, None, None);
      GetValueFinds(root.value, l, h, None, None, k);
      NotEmpty(root.value, l, h, None, None);
    }
  }

  lemma {:induction false} NotEmpty<V>(t: Tree<V>, l: Limits, h: nat, lo: Option<int>, hi: Option<int>)
    requires Sound(t, l, h, lo, hi) && Size(t) >= 1 && LimitsOk(l)
    ensures Entries(t) != []
  {
    match t
    case Leaf(_) =>
    case Node(keys, cs) =>
      assert SoundChild(cs[0], l, h - 1, Lo(keys, 0, lo), Hi(keys, 0, hi));
      NotEmpty(cs[0], l, h - 1, Lo(keys, 0, lo), Hi(keys, 0, hi));
  }

  /** The height of the tree after an insertion. */
  ghost function HeightAfterInsert<V>(root: Option<Tree<V>>, k: int, v: V, l: Limits, h: nat): nat
    requires LimitsOk(l) && (root.Some? ==> Shaped(root.value, h))
  {
    if root.None? then 0 else if InsertInto(root.value, k, v, l, h).Whole? then h else h + 1
  }

  /** Insertion keeps the tree sound and inserts into its contents; a key that is there keeps its value. */
  lemma InsertRootSound<V>(root: Option<Tree<V>>, k: int, v: V, l: Limits, h: nat)
    requires LimitsOk(l) && SoundRoot(root, l, h)
    ensures root.Some? ==> Shaped(root.value, h)
    ensures SoundRoot(InsertRoot(root, k, v, l, h), l, HeightAfterInsert(root, k, v, l, h))
    ensures Contents(InsertRoot(root, k, v, l, h)) == Insert(Contents(root), k, v)
  {
    match root
    case None => assert Insert([], k, v) == [] + [(k, v)] + [];
    case Some(t) =>
      InsertIntoSound(t, l, h, None, None, k, v);
      match InsertInto(t, k, v, l, h)
      case Whole(t') =>
        KindByHeight(t, l, h, None, None);
        KindByHeight(t', l, h, None, None);
      case Halves(left, key, right) => NewRoot(left, key, right, l, h);
  }

  lemma NewRoot<V>(left: Tree<V>, key: int, right: Tree<V>, l: Limits, h: nat)
    requires LimitsOk(l) && SoundChild(left, l, h, None, Some(key)) && SoundChild(right, l, h, Some(key), None)
    ensures Sound(Node([key], [left, right]), l, h + 1, None, None)
    ensures Entries(Node([key], [left, right])) == Entries(left) + Entries(right)
  {
    assert SoundChildren([key], [left, right], l, h + 1, None, None) by { hide SoundChild; }
    AllPair([], left, right, []);
    assert [] + [left] + [right] + [] == [left, right];
    assert [] + (Entries(left) + Entries(right)) + [] == Entries(left) + Entries(right);
  }

  ghost function HeightAfterRemove<V>(root: Option<Tree<V>>, k: int, l: Limits, h: nat): nat
    requires LimitsOk(l) && (root.Some? ==> Shaped(root.value, h))
  {
    if root.None? || Size(RemoveFrom(root.value, k, l, h)) != 1 || h == 0 then h else h - 1
  }

  /** Removal keeps the tree sound and deletes from its contents. */
  lemma RemoveRootSound<V>(root: Option<Tree<V>>, k: int, l: Limits, h: nat)
    requires LimitsOk(l) && SoundRoot(root, l, h)
    ensures root.Some? ==> Shaped(root.value, h)
    ensures SoundRoot(RemoveRoot(root, k, l, h), l, HeightAfterRemove(root, k, l, h))
    ensures Contents(RemoveRoot(root, k, l, h)) == Delete(Contents(root), k)
  {
    match root
    case None =>
    case Some(t) =>
      RemoveFromSound(t, l, h, None, None, k);
      match RemoveFrom(t, k, l, h)
      case Leaf(es) =>
      case Node(keys, cs) =>
        if |cs| == 1 {
          assert SoundChildren(keys, cs, l, h, None, None);
          assert SoundChild(cs[0], l, h - 1, Lo(keys, 0, None), Hi(keys, 0, None));
          AllOne(cs[0]);
          assert cs == [cs[0]];
        }
  }
}
