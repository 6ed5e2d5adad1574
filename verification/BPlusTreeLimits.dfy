/** Why a leaf must be able to hold two entries and a node three children, and that nothing else is needed. */
module BPlusTreeLimits {
  import opened Options
  import opened SortedEntries
  import opened BPlusTree
  import opened BPlusTreeProofs

  /** A leaf for one entry: the split leaves the left half empty and drops the greater entry. */
  lemma OneEntryLeaves<V>(a: Entry<V>, b: Entry<V>, l: Limits)
    requires a.0 < b.0 && l.leafMax == 1 && l.internalMax >= 1
    ensures InsertRoot(InsertRoot(None, a.0, a.1, l, 0), b.0, b.1, l, 0) == Some(Node([a.0], [Leaf([]), Leaf([a])]))
    ensures Lookup(Contents(InsertRoot(Some(Leaf([a])), b.0, b.1, l, 0)), b.0) == None
  {
    var es := Insert([a], b.0, b.1);
    assert es == [a, b];
    assert InsertInto(Leaf([a]), b.0, b.1, l, 0) == SplitLeaf(es, l);
    assert es[..0] == [] && es[0..1] == [a];
    var cs: seq<Tree<V>> := [Leaf([]), Leaf([a])];
    assert All(cs) == Entries(cs[0]) + All(cs[1..]) && All(cs[1..]) == Entries(cs[1]) + All(cs[2..]);
    assert LowerBound([a], b.0) == 1;
  }

  /** The tree after 1, 2 and 3 were inserted into an index whose nodes have two children at most. */
  function ThreeInserted<V>(v: V): Tree<V> {
    Node([2], [Node([], [Leaf([(1, v)])]), Node([3], [Leaf([(2, v)]), Leaf([(3, v)])])])
  }

  lemma ShapedThree<V>(v: V)
    ensures Shaped(ThreeInserted(v), 2)
  {
    var x, y := Node([], [Leaf([(1, v)])]), Node([3], [Leaf([(2, v)]), Leaf([(3, v)])]);
    assert Shaped(x, 1) && Shaped(y, 1);
  }

  /** A leaf for two entries is split when it gets the second. */
  lemma PairSplits<V>(a: Entry<V>, b: Entry<V>)
    requires a.0 < b.0
    ensures InsertInto(Leaf([a]), b.0, b.1, Limits(2, 2), 0) == Halves(Leaf([a]), b.0, Leaf([b]))
  {
    assert Insert([a], b.0, b.1) == [a, b];
    assert [a, b][..1] == [a] && [a, b][1..2] == [b];
  }

  lemma TwoFirst<V>(v: V)
    ensures InsertRoot(InsertRoot(None, 1, v, Limits(2, 2), 0), 2, v, Limits(2, 2), 0) ==
            Some(Node([2], [Leaf([(1, v)]), Leaf([(2, v)])]))
    ensures Shaped(Node([2], [Leaf([(1, v)]), Leaf([(2, v)])]), 1)
  {
    PairSplits((1, v), (2, v));
  }

  lemma ThenThree<V>(v: V)
    ensures Shaped(Node([2], [Leaf([(1, v)]), Leaf([(2, v)])]), 1)
    ensures InsertRoot(Some(Node([2], [Leaf([(1, v)]), Leaf([(2, v)])])), 3, v, Limits(2, 2), 1) ==
            Some(ThreeInserted(v))
  {
    var a, b, c: Tree<V> := Leaf([(1, v)]), Leaf([(2, v)]), Leaf([(3, v)]);
    PairSplits((2, v), (3, v));
    assert ChildOf([2], 3) == 1;
    assert InsertAt([2], 1, 3) == [2, 3] && InsertAt([a, b][1 := b], 2, c) == [a, b, c];
    assert [2, 3][..0] == [] && [2, 3][1..] == [3] && [a, b, c][..1] == [a] && [a, b, c][1..] == [b, c];
    hide Insert, SplitLeaf;
  }

  /**
   A node for two children: the split gives a node with one child, and a leaf below it stays when it becomes empty.
   */
  lemma TwoChildNodes<V>(v: V)
    ensures var l, two := Limits(2, 2), Node([2], [Leaf([(1, v)]), Leaf([(2, v)])]);
            && InsertRoot(InsertRoot(None, 1, v, l, 0), 2, v, l, 0) == Some(two) && Shaped(two, 1)
            && InsertRoot(Some(two), 3, v, l, 1) == Some(ThreeInserted(v)) && Shaped(ThreeInserted(v), 2)
    ensures RemoveRoot(Some(ThreeInserted(v)), 1, Limits(2, 2), 2)
            == Some(Node([2], [Node([], [Leaf([])]), Node([3], [Leaf([(2, v)]), Leaf([(3, v)])])]))
  {
    TwoFirst(v);
    ThenThree(v);
    ShapedThree(v);
    hide InsertRoot, InsertInto;
    var l := Limits(2, 2);
    var leaf: Tree<V> := Leaf([(1, v)]);
    var x, y := Node([], [leaf]), Node([3], [Leaf([(2, v)]), Leaf([(3, v)])]);
    assert Delete([(1, v)], 1) == [];
    assert RemoveFrom(leaf, 1, l, 0) == Leaf([]);
    assert ChildOf([], 1) == 0 && [leaf][0 := Leaf([])] == [Leaf([])];
    assert RemoveFrom(x, 1, l, 1) == Node([], [Leaf([])]);
    assert ChildOf([2], 1) == 0;
    assert [x, y][0 := Node([], [Leaf([])])] == [Node([], [Leaf([])]), y];
  }

  // ----- exactly which limits work -----

  /** Sound at some height. */
  ghost predicate SoundSomehow<V>(root: Option<Tree<V>>, l: Limits) {
    exists h: nat :: SoundRoot(root, l, h)
  }

  /** Inserting any entry into any sound tree gives a sound tree. */
  ghost predicate InsertionWorks<V(!new)>(l: Limits)
    requires l.leafMax >= 1 && l.internalMax >= 1
  {
    forall root: Option<Tree<V>>, k, v, h: nat ::
      SoundRoot(root, l, h) && (root.Some? ==> Shaped(root.value, h)) ==>
        SoundSomehow(InsertRoot(root, k, v, l, h), l)
  }

  ghost predicate RemovalWorks<V(!new)>(l: Limits)
    requires l.leafMax >= 2 && l.internalMax >= 1
  {
    forall root: Option<Tree<V>>, k, h: nat ::
      SoundRoot(root, l, h) && (root.Some? ==> Shaped(root.value, h)) ==>
        SoundSomehow(RemoveRoot(root, k, l, h), l)
  }

  /** The entries `from`, `from + 1`, ... */
  function Run<V>(from: int, n: nat, v: V): (r: seq<Entry<V>>)
    ensures |r| == n && Sorted(r) && forall i :: 0 <= i < n ==> r[i] == (from + i, v)
    decreases n
  {
    if n == 0 then [] else [(from, v)] + Run(from + 1, n - 1, v)
  }

  /** A leaf for one entry: a root leaf with an entry is full already. */
  lemma OneEntryFails<V(!new)>(v: V, l: Limits)
    requires l.leafMax == 1 && l.internalMax >= 1
    ensures !InsertionWorks<V>(l)
  {
    var none: Option<Tree<V>> := None;
    assert SoundRoot(none, l, 0);
    assert forall h': nat :: !SoundRoot(InsertRoot(none, 0, v, l, 0), l, h');
  }

  /** A node for one child: a split root leaf has a root above it with two. */
  lemma OneChildFails<V(!new)>(v: V, l: Limits)
    requires l.leafMax >= 2 && l.internalMax == 1
    ensures !InsertionWorks<V>(l)
  {
    var n := l.leafMax - 1;
    var root := Some(Leaf(Run(0, n, v)));
    assert SoundRoot(root, l, 0);
    LowerBoundIs(Run(0, n, v), n, n);
    assert |Insert(Run(0, n, v), n, v)| == l.leafMax;
    var root' := InsertRoot(root, n, v, l, 0);
    assert root'.value.Node? && |root'.value.children| == 2;
    assert forall h': nat :: !SoundRoot(root', l, h');
  }

  /** Three leaves, the first of them an only child. */
  function LonelyLeaf<V>(m: nat, v: V): Tree<V> {
    Node([m], [Node([], [Leaf(Run(0, m, v))]), Node([2 * m], [Leaf(Run(m, m, v)), Leaf(Run(2 * m, m, v))])])
  }

  lemma RunLeaf<V>(from: int, n: nat, v: V, l: Limits, lo: Option<int>, hi: Option<int>)
    requires LeafMin(l) <= n < l.leafMax && AtLeast(from, lo) && (hi.None? || from + n <= hi.value)
    ensures SoundChild(Leaf(Run(from, n, v)), l, 0, lo, hi)
  {
    hide Run;
  }

  lemma FirstChildSound<V>(t: Tree<V>, l: Limits, h: nat, lo: Option<int>, hi: Option<int>)
    requires t.Node? && Sound(t, l, h, lo, hi)
    ensures h > 0 && |t.children| == |t.keys| + 1
    ensures SoundChild(t.children[0], l, h - 1, lo, if t.keys == [] then hi else Some(t.keys[0]))
  {
    assert SoundChild(t.children[0], l, h - 1, Lo(t.keys, 0, lo), Hi(t.keys, 0, hi));
  }

  lemma OneSound<V>(x: Tree<V>, l: Limits, h: nat, lo: Option<int>, hi: Option<int>)
    requires h > 0 && l.internalMax >= 1 && NodeMin(l) == 1 && SoundChild(x, l, h - 1, lo, hi)
    ensures SoundChild(Node([], [x]), l, h, lo, hi)
  {
    assert SoundChildren([], [x], l, h, lo, hi);
  }

  lemma PairSound<V>(key: int, x: Tree<V>, y: Tree<V>, l: Limits, h: nat, lo: Option<int>, hi: Option<int>)
    requires h > 0 && l.internalMax >= 2 && NodeMin(l) == 1 && (lo.None? || lo.value < key) && LessThan(key, hi)
    requires SoundChild(x, l, h - 1, lo, Some(key)) && SoundChild(y, l, h - 1, Some(key), hi)
    ensures SoundChild(Node([key], [x, y]), l, h, lo, hi)
  {
    assert Size(Node([key], [x, y])) == 2;
    assert SoundChildren([key], [x, y], l, h, lo, hi);
  }

  lemma LonelyLeafSound<V>(v: V, l: Limits)
    requires l.leafMax >= 2 && l.internalMax == 2
    ensures SoundRoot(Some(LonelyLeaf(LeafMin(l), v)), l, 2)
  {
    var m := LeafMin(l);
    var a, b, c := Leaf(Run(0, m, v)), Leaf(Run(m, m, v)), Leaf(Run(2 * m, m, v));
    RunLeaf(0, m, v, l, None, Some(m));
    RunLeaf(m, m, v, l, Some(m), Some(2 * m));
    RunLeaf(2 * m, m, v, l, Some(2 * m), None);
    var x, y := Node([], [a]), Node([2 * m], [b, c]);
    assert NodeMin(l) == 1;
    OneSound(a, l, 1, None, Some(m));
    PairSound(2 * m, b, c, l, 1, Some(m), None);
    PairSound(m, x, y, l, 2, None, None);
    assert LonelyLeaf(m, v) == Node([m], [x, y]);
  }

  /** An only child has no neighbour to borrow from or to merge with, and stays too small. */
  lemma LonelyLeafShrinks<V>(v: V, l: Limits, h: nat)
    requires l.leafMax >= 2 && l.internalMax == 2
    requires Shaped(LonelyLeaf(LeafMin(l), v), 2)
    ensures !SoundRoot(RemoveRoot(Some(LonelyLeaf(LeafMin(l), v)), 0, l, 2), l, h)
  {
    var m := LeafMin(l);
    var t, a := LonelyLeaf(m, v), Leaf(Run(0, m, v));
    var x, y := t.children[0], t.children[1];
    LowerBoundIs(Run(0, m, v), 0, 0);
    var a' := Leaf(Delete(Run(0, m, v), 0));
    assert |a'.entries| == m - 1;
    assert RemoveFrom(a, 0, l, 0) == a';
    assert ChildOf([], 0) == 0 && [a][0 := a'] == [a'];
    assert RemoveFrom(x, 0, l, 1) == Node([], [a']);
    assert ChildOf([m], 0) == 0 && [x, y][0 := Node([], [a'])] == [Node([], [a']), y];
    var t' := Node([m], [Node([], [a']), y]);
    assert RemoveRoot(Some(t), 0, l, 2) == Some(t');
    if Sound(t', l, h, None, None) {
      var x' := t'.children[0];
      FirstChildSound(t', l, h, None, None);
      FirstChildSound(x', l, h - 1, None, Some(m));
      assert false;
    }
  }

  lemma TwoChildrenFail<V(!new)>(v: V, l: Limits)
    requires l.leafMax >= 2 && l.internalMax == 2
    ensures !RemovalWorks<V>(l)
  {
    var root := Some(LonelyLeaf(LeafMin(l), v));
    LonelyLeafSound(v, l);
    SoundIsShaped(root.value, l, 2, None, None);
    forall h: nat ensures !SoundRoot(RemoveRoot(root, 0, l, 2), l, h) { LonelyLeafShrinks(v, l, h); }
  }

  /**
   Insertion and removal keep every sound tree sound exactly with leaves for two entries and nodes for three children.
   */
  lemma LimitsIff<V(!new)>(v: V, l: Limits)
    requires l.leafMax >= 1 && l.internalMax >= 1
    ensures InsertionWorks<V>(l) ==> l.leafMax >= 2
    ensures InsertionWorks<V>(l) && RemovalWorks<V>(l) <==> LimitsOk(l)
  {
    if LimitsOk(l) {
      AllWorks<V>(l);
    } else if l.leafMax == 1 {
      OneEntryFails(v, l);
    } else if l.internalMax == 1 {
      OneChildFails(v, l);
    } else {
      TwoChildrenFail(v, l);
    }
  }

  lemma AllWorks<V(!new)>(l: Limits)
    requires LimitsOk(l)
    ensures InsertionWorks<V>(l) && RemovalWorks<V>(l)
  {
    hide SoundRoot, InsertRoot, RemoveRoot, Shaped;
    forall root: Option<Tree<V>>, k, v, h: nat | SoundRoot(root, l, h) && (root.Some? ==> Shaped(root.value, h))
      ensures SoundSomehow(InsertRoot(root, k, v, l, h), l)
    {
      InsertRootSound(root, k, v, l, h);
    }
    forall root: Option<Tree<V>>, k, h: nat | SoundRoot(root, l, h) && (root.Some? ==> Shaped(root.value, h))
      ensures SoundSomehow(RemoveRoot(root, k, l, h), l)
    {
      RemoveRootSound(root, k, l, h);
    }
  }
}
