/**
 The B+ tree as a value.  A leaf holds entries, an inner node separators and one more child; the code
 keeps the separators behind an unused first one in the same array.  Keys stand for their places in
 the comparator's order.
 */
module BPlusTree {
  import opened Options
  import opened SortedEntries

  datatype Tree<V> = Leaf(entries: seq<Entry<V>>) | Node(keys: seq<int>, children: seq<Tree<V>>)

  datatype Limits = Limits(leafMax: nat, internalMax: nat)

  /** Both halves of a split leaf have an entry, and both halves of a split node two children. */
  predicate LimitsOk(l: Limits) {
    l.leafMax >= 2 && l.internalMax >= 3
  }

  function LeafMin(l: Limits): nat {
    l.leafMax / 2
  }

  function NodeMin(l: Limits): nat {
    (l.internalMax + 1) / 2
  }

  function Size<V>(t: Tree<V>): nat {
    if t.Leaf? then |t.entries| else |t.children|
  }

  function MinSize<V>(t: Tree<V>, l: Limits): nat {
    if t.Leaf? then LeafMin(l) else NodeMin(l)
  }

  /** All leaves are `h` levels down, and a node has one child more than separators. */
  ghost predicate Shaped<V>(t: Tree<V>, h: nat) {
    match t
    case Leaf(_) => h == 0
    case Node(keys, cs) => h > 0 && |cs| == |keys| + 1 && forall i :: 0 <= i < |cs| ==> Shaped(cs[i], h - 1)
  }

  // ----- what a tree stands for -----

  /** The entries of the leaves, from left to right. */
  function Entries<V>(t: Tree<V>): seq<Entry<V>> {
    match t
    case Leaf(es) => es
    case Node(_, cs) => All(cs)
  }

  function All<V>(cs: seq<Tree<V>>): seq<Entry<V>> {
    if cs == [] then [] else Entries(cs[0]) + All(cs[1..])
  }

  // ----- the invariant -----

  /** A bound is none at the ends of the tree. */
  predicate AtLeast(k: int, lo: Option<int>) {
    lo.None? || lo.value <= k
  }

  predicate LessThan(k: int, hi: Option<int>) {
    hi.None? || k < hi.value
  }

  ghost predicate Bounded<V>(s: seq<Entry<V>>, lo: Option<int>, hi: Option<int>) {
    forall i :: 0 <= i < |s| ==> AtLeast(s[i].0, lo) && LessThan(s[i].0, hi)
  }

  /** Separators ascend, strictly between the bounds. */
  ghost predicate Separators(keys: seq<int>, lo: Option<int>, hi: Option<int>) {
    && (forall i :: 0 <= i < |keys| ==> (lo.None? || lo.value < keys[i]) && LessThan(keys[i], hi))
    && (forall i, j :: 0 <= i < j < |keys| ==> keys[i] < keys[j])
  }

  /** The bounds of child `i`. */
  function Lo(keys: seq<int>, i: nat, lo: Option<int>): Option<int>
    requires i <= |keys|
  {
    if i == 0 then lo else Some(keys[i - 1])
  }

  function Hi(keys: seq<int>, i: nat, hi: Option<int>): Option<int>
    requires i <= |keys|
  {
    if i == |keys| then hi else Some(keys[i])
  }

  /**
   A tree of height `h` with keys from `lo` up to `hi`: ordered, balanced, no node too large, and all nodes
   below the topmost at least half full.
   */
  ghost predicate Sound<V>(t: Tree<V>, l: Limits, h: nat, lo: Option<int>, hi: Option<int>)
    decreases t, 0
  {
    match t
    case Leaf(es) => h == 0 && |es| < l.leafMax && Sorted(es) && Bounded(es, lo, hi)
    case Node(keys, cs) => h > 0 && |cs| <= l.internalMax && SoundChildren(keys, cs, l, h, lo, hi)
  }

  /** Children of a node of height `h`, each between its separators. */
  ghost predicate SoundChildren<V>(keys: seq<int>, cs: seq<Tree<V>>, l: Limits, h: nat, lo: Option<int>,
                                   hi: Option<int>)
    decreases cs, 0
  {
    && |cs| == |keys| + 1 && h > 0 && Separators(keys, lo, hi)
    && forall i :: 0 <= i < |cs| ==> SoundChild(cs[i], l, h - 1, Lo(keys, i, lo), Hi(keys, i, hi))
  }

  ghost predicate SoundChild<V>(t: Tree<V>, l: Limits, h: nat, lo: Option<int>, hi: Option<int>)
    decreases t, 1
  {
    Sound(t, l, h, lo, hi) && Size(t) >= MinSize(t, l)
  }

  /** The whole tree: a root leaf has an entry, a root node two children. */
  ghost predicate SoundRoot<V>(root: Option<Tree<V>>, l: Limits, h: nat) {
    root.Some? ==> Sound(root.value, l, h, None, None) && Size(root.value) >= if root.value.Leaf? then 1 else 2
  }

  ghost function Contents<V>(root: Option<Tree<V>>): seq<Entry<V>> {
    if root.None? then [] else Entries(root.value)
  }

  // ----- search -----

  /** The position of the first separator not less than `k`. */
  function LowerKey(keys: seq<int>, k: int): (i: nat)
    ensures i <= |keys| && (i < |keys| ==> keys[i] >= k) && forall j :: 0 <= j < i ==> keys[j] < k
  {
    if keys == [] || keys[0] >= k then 0 else 1 + LowerKey(keys[1..], k)
  }

  /** The child in which `k` belongs. */
  function ChildOf(keys: seq<int>, k: int): (i: nat)
    ensures i <= |keys|
  {
    var i := LowerKey(keys, k);
    if i < |keys| && keys[i] == k then i + 1 else i
  }

  function GetValue<V>(t: Tree<V>, k: int, ghost h: nat): Option<V>
    requires Shaped(t, h)
  {
    match t
    case Leaf(es) => Lookup(es, k)
    case Node(keys, cs) => GetValue(cs[ChildOf(keys, k)], k, h - 1)
  }

  // ----- insertion -----

  /** A subtree after an insertion: one tree, or two with the key between them. */
  datatype Grown<V> = Whole(tree: Tree<V>) | Halves(left: Tree<V>, key: int, right: Tree<V>)

  /** The right half gets as many entries as make a full leaf together with the left one. */
  function SplitLeaf<V>(es: seq<Entry<V>>, l: Limits): Grown<V>
    requires |es| >= l.leafMax >= 1
  {
    var m := LeafMin(l);
    Halves(Leaf(es[..m]), es[m].0, Leaf(es[m..l.leafMax]))
  }

  function SplitNode<V>(keys: seq<int>, cs: seq<Tree<V>>, l: Limits, ghost h: nat): (g: Grown<V>)
    requires Shaped(Node(keys, cs), h) && 0 < NodeMin(l) <= |keys|
    ensures ShapedGrown(g, h)
  {
    var m := NodeMin(l);
    Halves(Node(keys[..m - 1], cs[..m]), keys[m - 1], Node(keys[m..], cs[m..]))
  }

  function InsertAt<T>(s: seq<T>, i: nat, x: T): seq<T>
    requires i <= |s|
  {
    s[..i] + [x] + s[i..]
  }

  ghost predicate ShapedGrown<V>(g: Grown<V>, h: nat) {
    match g
    case Whole(t) => Shaped(t, h)
    case Halves(left, _, right) => Shaped(left, h) && Shaped(right, h)
  }

  lemma ShapedInsert<V>(keys: seq<int>, cs: seq<Tree<V>>, i: nat, left: Tree<V>, key: int, right: Tree<V>, h: nat)
    requires Shaped(Node(keys, cs), h) && i < |cs| && Shaped(left, h - 1) && Shaped(right, h - 1)
    ensures Shaped(Node(InsertAt(keys, i, key), InsertAt(cs[i := left], i + 1, right)), h)
  {
    var cs' := InsertAt(cs[i := left], i + 1, right);
    forall j | 0 <= j < |cs'| ensures Shaped(cs'[j], h - 1) {
      assert cs'[j] == if j < i then cs[j] else if j == i then left else if j == i + 1 then right else cs[j - 1];
    }
  }

  function InsertInto<V>(t: Tree<V>, k: int, v: V, l: Limits, ghost h: nat): (g: Grown<V>)
    requires l.leafMax >= 1 && l.internalMax >= 1 && Shaped(t, h)
    ensures ShapedGrown(g, h)
  {
    match t
    case Leaf(es) =>
      var es' := Insert(es, k, v);
      if |es'| == |es| then Whole(t)
      else if |es'| < l.leafMax then Whole(Leaf(es'))
      else SplitLeaf(es', l)
    case Node(keys, cs) =>
      var i := ChildOf(keys, k);
      match InsertInto(cs[i], k, v, l, h - 1)
      case Whole(c) => Whole(Node(keys, cs[i := c]))
      case Halves(left, key, right) =>
        var keys', cs' := InsertAt(keys, i, key), InsertAt(cs[i := left], i + 1, right);
        ShapedInsert(keys, cs, i, left, key, right, h);
        if |cs| < l.internalMax then Whole(Node(keys', cs')) else SplitNode(keys', cs', l, h)
  }

  function InsertRoot<V>(root: Option<Tree<V>>, k: int, v: V, l: Limits, ghost h: nat): Option<Tree<V>>
    requires l.leafMax >= 1 && l.internalMax >= 1 && (root.Some? ==> Shaped(root.value, h))
  {
    match root
    case None => Some(Leaf([(k, v)]))
    case Some(t) =>
      match InsertInto(t, k, v, l, h)
      case Whole(t') => Some(t')
      case Halves(left, key, right) => Some(Node([key], [left, right]))
  }

  // ----- removal -----

  function RemoveAt<T>(s: seq<T>, i: nat): seq<T>
    requires i < |s|
  {
    s[..i] + s[i + 1..]
  }

  /** The last item of `left` moves to the front of `right`; gives the new separator too. */
  function ShiftRight<V>(left: Tree<V>, key: int, right: Tree<V>, ghost h: nat): (r: (Tree<V>, int, Tree<V>))
    requires Shaped(left, h) && Shaped(right, h) && Size(left) > 1
    ensures Shaped(r.0, h) && Shaped(r.2, h)
  {
    match left
    case Leaf(es) =>
      var n := |es| - 1;
      (Leaf(es[..n]), es[n].0, Leaf([es[n]] + right.entries))
    case Node(keys, cs) =>
      var n, m := |cs| - 1, |keys| - 1;
      (Node(keys[..m], cs[..n]), keys[m], Node([key] + right.keys, [cs[n]] + right.children))
  }

  /** The first item of `right` moves to the end of `left`. */
  function ShiftLeft<V>(left: Tree<V>, key: int, right: Tree<V>, ghost h: nat): (r: (Tree<V>, int, Tree<V>))
    requires Shaped(left, h) && Shaped(right, h) && Size(right) > 1
    ensures Shaped(r.0, h) && Shaped(r.2, h)
  {
    match right
    case Leaf(es) => (Leaf(left.entries + [es[0]]), es[1].0, Leaf(es[1..]))
    case Node(keys, cs) => (Node(left.keys + [key], left.children + [cs[0]]), keys[0], Node(keys[1..], cs[1..]))
  }

  function Coalesce<V>(left: Tree<V>, key: int, right: Tree<V>, ghost h: nat): (t: Tree<V>)
    requires Shaped(left, h) && Shaped(right, h)
    ensures Shaped(t, h)
  {
    match left
    case Leaf(es) => Leaf(es + right.entries)
    case Node(keys, cs) => Node(keys + [key] + right.keys, cs + right.children)
  }

  /** Two neighbours after a shift. */
  function Shifted<V>(keys: seq<int>, cs: seq<Tree<V>>, i: nat, r: (Tree<V>, int, Tree<V>), ghost h: nat): (t: Tree<V>)
    requires Shaped(Node(keys, cs), h) && i < |keys| && Shaped(r.0, h - 1) && Shaped(r.2, h - 1)
    ensures Shaped(t, h) && t.Node?
  {
    Node(keys[i := r.1], cs[i := r.0][i + 1 := r.2])
  }

  /** Two neighbours after a merge. */
  function Merged<V>(keys: seq<int>, cs: seq<Tree<V>>, i: nat, c: Tree<V>, ghost h: nat): (t: Tree<V>)
    requires Shaped(Node(keys, cs), h) && i < |keys| && Shaped(c, h - 1)
    ensures Shaped(t, h) && t.Node?
  {
    Node(RemoveAt(keys, i), RemoveAt(cs[i := c], i + 1))
  }

  /** Child `i` has become too small: it borrows from a neighbour, the left one first, or merges with it. */
  function Repair<V>(keys: seq<int>, cs: seq<Tree<V>>, i: nat, l: Limits, ghost h: nat): (t: Tree<V>)
    requires l.leafMax >= 2 && l.internalMax >= 1 && Shaped(Node(keys, cs), h) && i < |cs|
    ensures Shaped(t, h) && t.Node?
  {
    if i > 0 then
      if Size(cs[i - 1]) > MinSize(cs[i - 1], l)
      then Shifted(keys, cs, i - 1, ShiftRight(cs[i - 1], keys[i - 1], cs[i], h - 1), h)
      else Merged(keys, cs, i - 1, Coalesce(cs[i - 1], keys[i - 1], cs[i], h - 1), h)
    else if |cs| > 1 then
      if Size(cs[1]) > MinSize(cs[1], l)
      then Shifted(keys, cs, 0, ShiftLeft(cs[0], keys[0], cs[1], h - 1), h)
      else Merged(keys, cs, 0, Coalesce(cs[0], keys[0], cs[1], h - 1), h)
    else Node(keys, cs)
  }

  function RemoveFrom<V>(t: Tree<V>, k: int, l: Limits, ghost h: nat): (t': Tree<V>)
    requires l.leafMax >= 2 && l.internalMax >= 1 && Shaped(t, h)
    ensures Shaped(t', h)
  {
    match t
    case Leaf(es) => Leaf(Delete(es, k))
    case Node(keys, cs) =>
      var i := ChildOf(keys, k);
      var c := RemoveFrom(cs[i], k, l, h - 1);
      if Size(c) >= MinSize(c, l) then Node(keys, cs[i := c]) else Repair(keys, cs[i := c], i, l, h)
  }

  /** A root node with one child gives way to it, and an empty root leaf to the empty tree. */
  function RemoveRoot<V>(root: Option<Tree<V>>, k: int, l: Limits, ghost h: nat): Option<Tree<V>>
    requires l.leafMax >= 2 && l.internalMax >= 1 && (root.Some? ==> Shaped(root.value, h))
  {
    match root
    case None => None
    case Some(t) =>
      match RemoveFrom(t, k, l, h)
      case Leaf(es) => if es == [] then None else Some(Leaf(es))
      case Node(keys, cs) => if |cs| == 1 then Some(cs[0]) else Some(Node(keys, cs))
  }
}
