/** Iterating over the index: from the first entry, or from a key on. */
module BPlusTreeIterator {
  import opened Options
  import SE = SortedEntries
  import opened BPlusTree
  import opened BPlusTreeProofs
  import opened BPlusTreePaths
  import opened BPlusTreePages
  import opened BPlusTreeLinks
  import opened BPlusTreeLeaves
  import opened BPlusTreeLatches
  import opened BPlusTreeSteps
  import opened BPlusTreeIndex

  // ----- places on pages -----

  /** No page, or the end of the last leaf. */
  predicate AtEnd<V>(pages: Pages<V>, page: int, index: nat)
    requires page == NO_PAGE || (page in pages && pages[page].LeafPage?)
  {
    page == NO_PAGE || (pages[page].next == NO_PAGE && index == |pages[page].entries|)
  }

  /** One place further: to the next leaf after the last entry of a leaf that has one. */
  function Advance<V>(pages: Pages<V>, page: int, index: nat): (int, nat)
    requires page in pages && pages[page].LeafPage?
  {
    if index + 1 == |pages[page].entries| && pages[page].next != NO_PAGE then (pages[page].next, 0)
    else (page, index + 1)
  }

  /** A place at the end of a leaf that is not the last, or beyond it. */
  ghost predicate Astray<V>(pages: Pages<V>, page: int, index: nat) {
    page in pages && page != NO_PAGE && pages[page].LeafPage? && pages[page].next != NO_PAGE
    && index >= |pages[page].entries|
  }

  ghost function AdvanceBy<V>(pages: Pages<V>, page: int, index: nat, steps: nat): (int, nat)
    requires Astray(pages, page, index)
    decreases steps
  {
    if steps == 0 then (page, index)
    else var p := Advance(pages, page, index); AdvanceBy(pages, p.0, p.1, steps - 1)
  }

  /** From such a place no number of steps comes to an entry or to the end. */
  lemma {:induction false} AstrayForever<V>(pages: Pages<V>, page: int, index: nat, steps: nat)
    requires Astray(pages, page, index)
    ensures var p := AdvanceBy(pages, page, index, steps); Astray(pages, p.0, p.1) && !AtEnd(pages, p.0, p.1)
    decreases steps
  {
    if steps > 0 {
      var p := Advance(pages, page, index);
      AstrayForever(pages, p.0, p.1, steps - 1);
    }
  }

  // ----- places in the tree -----

  /** Where an iterator stands: at entry `index` of leaf `n`, with the entries `rest` to come. */
  ghost predicate Standing<V>(tree: Option<Placed<V>>, page: int, index: nat, n: nat, rest: seq<SE.Entry<V>>) {
    if tree.None? then page == NO_PAGE && rest == []
    else Place(Leaves(tree.value), n, index, rest) && page == Leaves(tree.value)[n].id
  }

  ghost predicate LeavesKept<V>(pages: Pages<V>, t: Placed<V>) {
    && LeavesAre(Leaves(t), Entries(Plain(t)), Links(t)) && LeavesOnPages(pages, Leaves(t)) && Leaves(t) != []
    && Chained(Links(t)) && NO_PAGE !in pages
  }

  lemma StoredLeaves<V>(limits: Limits, root: int, pages: Pages<V>, nextId: int, tree: Option<Placed<V>>, height: nat)
    requires Stored(limits, root, pages, nextId, tree, height) && tree.Some?
    ensures LeavesKept(pages, tree.value)
  {
    LeavesOf(tree.value);
    LeavesPlaced(pages, tree.value, NO_PAGE, limits, height, None, None);
  }

  /** What an iterator sees of its place, and the place after it. */
  lemma StandingSeen<V>(pages: Pages<V>, tree: Option<Placed<V>>, page: int, index: nat, n: nat, rest: seq<SE.Entry<V>>)
    requires Standing(tree, page, index, n, rest) && (tree.Some? ==> LeavesKept(pages, tree.value))
    ensures page == NO_PAGE || (page in pages && pages[page].LeafPage?)
    ensures AtEnd(pages, page, index) <==> rest == []
    ensures rest != [] ==> page in pages && index < |pages[page].entries| && rest[0] == pages[page].entries[index]
    ensures rest != [] ==> var p := Advance(pages, page, index); exists n' :: Standing(tree, p.0, p.1, n', rest[1..])
  {
    if tree.Some? {
      var ls := Leaves(tree.value);
      PlaceEnd(pages, ls, Links(tree.value), Entries(Plain(tree.value)), n, index, rest);
      if rest != [] {
        PlaceNext(pages, ls, n, index, rest);
        var p := Advance(pages, page, index);
        assert Standing(tree, p.0, p.1, if index + 1 == |ls[n].entries| && n + 1 < |ls| then n + 1 else n, rest[1..]);
      }
    }
  }

  // ----- the leaf of a key -----

  ghost function LeafFor<V>(t: Placed<V>, key: int): Placed<V> {
    match t
    case PLeaf(_, _, _) => t
    case PNode(_, keys, cs) => if ChildOf(keys, key) < |cs| then LeafFor(cs[ChildOf(keys, key)], key) else t
  }

  /** The leaf in which the key belongs has an entry from the key on, or is the last one. */
  ghost predicate Within<V>(t: Placed<V>, key: int) {
    var leaf := LeafFor(t, key);
    leaf.PLeaf? && (SE.LowerBound(leaf.entries, key) < |leaf.entries| || leaf.next == NO_PAGE)
  }

  lemma {:induction false} LeafForPlug<V>(path: seq<PStep<V>>, t: Placed<V>, key: int)
    requires Leads(PlainPath(path), key)
    ensures LeafFor(PPlug(path, t), key) == LeafFor(t, key)
    decreases |path|
  {
    if path != [] {
      var s, rest := path[|path| - 1], path[..|path| - 1];
      assert PlainPath(path)[..|path| - 1] == PlainPath(rest) && PlainPath(path)[|path| - 1] == PlainStep(s);
      assert Leads(PlainPath(rest), key);
      LeafForPlug(rest, PFill(s, t), key);
      assert (s.left + [t] + s.right)[|s.left|] == t;
    }
  }

  lemma KeyStands<V>(pages: Pages<V>, tree: Placed<V>, key: int, height: nat, path: seq<PStep<V>>, leaf: Placed<V>,
                     l: Limits)
    requires LimitsOk(l) && SoundRoot(Some(Plain(tree)), l, height) && LeavesKept(pages, tree)
             && FoundLeaf(tree, key, height, path, leaf, l)
    ensures LeafFor(tree, key) == leaf
    ensures var es := Entries(Plain(tree));
            Within(tree, key) ==> Standing(Some(tree), leaf.id, SE.LowerBound(leaf.entries, key), |LeavesBefore(path)|,
                                           es[SE.LowerBound(es, key)..])
  {
    LeafForPlug(path, leaf, key);
    if Within(tree, key) {
      KeyStandsAt(pages, tree, key, height, path, leaf, l);
    }
  }

  lemma KeyStandsAt<V>(pages: Pages<V>, tree: Placed<V>, key: int, height: nat, path: seq<PStep<V>>, leaf: Placed<V>,
                       l: Limits)
    requires LimitsOk(l) && SoundRoot(Some(Plain(tree)), l, height) && LeavesKept(pages, tree)
             && FoundLeaf(tree, key, height, path, leaf, l)
    requires SE.LowerBound(leaf.entries, key) < |leaf.entries| || leaf.next == NO_PAGE
    ensures var es := Entries(Plain(tree));
            Standing(Some(tree), leaf.id, SE.LowerBound(leaf.entries, key), |LeavesBefore(path)|,
                     es[SE.LowerBound(es, key)..])
  {
    var a, c := LeavesBefore(path), LeavesAfter(path);
    LeavesPlug(path, leaf);
    assert Leaves(tree) == a + [leaf] + c;
    MiddleAt(a, leaf, c);
    PlainPlug(path, leaf);
    var _, _ := SearchSplits(PlainPath(path), Plain(leaf), l, 0, key);
    BeforeIs(path);
    SplitFlat(a, leaf, c);
    LastHasNone(pages, Leaves(tree), Links(tree), Entries(Plain(tree)), |a|);
    hide Leaves, LeavesBefore, LeavesAfter, Flat, SE.LowerBound, SE.Below, SE.Above, EntriesBefore, EntriesAfter,
         Entries, PPlug, PlainPath;
    PlaceOf(Leaves(tree), a, leaf, c, Entries(Plain(tree)), key);
  }

  lemma SplitFlat<V>(a: seq<Placed<V>>, leaf: Placed<V>, c: seq<Placed<V>>)
    requires (forall l :: l in a ==> l.PLeaf?) && (forall l :: l in c ==> l.PLeaf?) && leaf.PLeaf?
    ensures forall l :: l in a + [leaf] + c ==> l.PLeaf?
    ensures Flat(a + [leaf] + c) == Flat(a) + leaf.entries + Flat(c)
  {
    FlatConcat(a + [leaf], c);
    FlatConcat(a, [leaf]);
    assert [leaf][1..] == [];
    assert Flat([leaf]) == leaf.entries + Flat([leaf][1..]);
  }

  lemma LastHasNone<V>(pages: Pages<V>, ls: seq<Placed<V>>, links: seq<Link>, es: seq<SE.Entry<V>>, n: nat)
    requires n < |ls| && LeavesAre(ls, es, links) && LeavesOnPages(pages, ls) && Chained(links) && NO_PAGE !in pages
    ensures ls[n].next == NO_PAGE <==> n + 1 == |ls|
  {
    assert Follows(links, n);
    assert n + 1 < |ls| ==> LeafOnPage(pages, ls[n + 1]);
  }

  // ----- the ends -----

  /** A walk down one side of the tree has come to `t`. */
  ghost predicate WalkedTo<V>(pages: Pages<V>, tree: Placed<V>, height: nat, path: seq<PStep<V>>, t: Placed<V>,
                              leftmost: bool) {
    && PPlug(path, t) == tree && Rep(pages, t, ParentOf(path)) && |path| <= height && Shaped(Plain(t), height - |path|)
    && (if leftmost then LeavesBefore(path) == [] else LeavesAfter(path) == [])
  }

  lemma WalkStarts<V>(pages: Pages<V>, tree: Placed<V>, l: Limits, height: nat, leftmost: bool)
    requires Held(pages, tree) && SoundRoot(Some(Plain(tree)), l, height)
    ensures WalkedTo(pages, tree, height, [], tree, leftmost)
  {
    SoundIsShaped(Plain(tree), l, height, None, None);
  }

  lemma WalkSeen<V>(pages: Pages<V>, tree: Placed<V>, height: nat, path: seq<PStep<V>>, t: Placed<V>, leftmost: bool)
    requires WalkedTo(pages, tree, height, path, t, leftmost)
    ensures t.id in pages
    ensures if t.PLeaf? then pages[t.id] == LeafPage(ParentOf(path), t.next, t.entries)
            else pages[t.id] == InternalPage(ParentOf(path), t.keys, IdsOf(t.children)) && |t.children| == |t.keys| + 1
  {
    NodeOnPage(pages, t, ParentOf(path), height - |path|);
  }

  lemma WalkSteps<V>(pages: Pages<V>, tree: Placed<V>, height: nat, path: seq<PStep<V>>, t: Placed<V>, leftmost: bool)
    requires WalkedTo(pages, tree, height, path, t, leftmost) && t.PNode? && |t.children| == |t.keys| + 1
    ensures var i := if leftmost then 0 else |t.children| - 1;
            && IdsOf(t.children)[i] == t.children[i].id
            && WalkedTo(pages, tree, height, path + [PStep(t.id, t.keys, t.children[..i], t.children[i + 1..])],
                        t.children[i], leftmost)
  {
    var i := if leftmost then 0 else |t.children| - 1;
    var s := PStep(t.id, t.keys, t.children[..i], t.children[i + 1..]);
    PlainAt(t.children, i);
    NodeOnPage(pages, t, ParentOf(path), height - |path|);
    Cut(t.children, i);
    assert (path + [s])[..|path|] == path && PFill(s, t.children[i]) == t;
    assert if leftmost then s.left == [] else s.right == [];
    hide Rep, Shaped, Plain, IdsOf, PlainAll;
  }

  lemma WalkEnds<V>(pages: Pages<V>, tree: Placed<V>, height: nat, path: seq<PStep<V>>, leaf: Placed<V>, leftmost: bool)
    requires WalkedTo(pages, tree, height, path, leaf, leftmost) && leaf.PLeaf? && LeavesKept(pages, tree)
    ensures if leftmost then Standing(Some(tree), leaf.id, 0, 0, Entries(Plain(tree)))
            else Standing(Some(tree), leaf.id, |leaf.entries|, |LeavesBefore(path)|, [])
  {
    LeavesPlug(path, leaf);
    BeforeIs(path);
    var ls, a, c := Leaves(tree), LeavesBefore(path), LeavesAfter(path);
    if leftmost {
      assert ls == [leaf] + c && LeafOnPage(pages, ls[0]);
      FirstPlace(leaf, c);
    } else {
      assert ls == a + [leaf];
      LastPlace(a, leaf);
    }
  }

  /** The first or the last leaf. */
  method OutermostLeaf<V>(tree: Index<V>, leftmost: bool)
    returns (id: int, ghost path: seq<PStep<V>>, ghost leaf: Placed<V>)
    requires tree.Valid() && tree.root != NO_PAGE
    ensures WalkedTo(tree.pages, tree.tree.value, tree.height, path, leaf, leftmost) && leaf.PLeaf? && leaf.id == id
    ensures id in tree.pages && tree.pages[id] == LeafPage(ParentOf(path), leaf.next, leaf.entries)
  {
    id, path, leaf := tree.root, [], tree.tree.value;
    WalkStarts(tree.pages, leaf, tree.limits, tree.height, leftmost);
    hide WalkedTo;
    WalkSeen(tree.pages, tree.tree.value, tree.height, path, leaf, leftmost);
    while tree.pages[id].InternalPage?
      invariant WalkedTo(tree.pages, tree.tree.value, tree.height, path, leaf, leftmost) && leaf.id == id
                && id in tree.pages
      decreases leaf
    {
      WalkSeen(tree.pages, tree.tree.value, tree.height, path, leaf, leftmost);
      var node := tree.pages[id];
      var i := if leftmost then 0 else |node.children| - 1;
      id := node.children[i];
      ghost var step := PStep(leaf.id, leaf.keys, leaf.children[..i], leaf.children[i + 1..]);
      WalkSteps(tree.pages, tree.tree.value, tree.height, path, leaf, leftmost);
      path, leaf := path + [step], leaf.children[i];
      WalkSeen(tree.pages, tree.tree.value, tree.height, path, leaf, leftmost);
    }
    WalkSeen(tree.pages, tree.tree.value, tree.height, path, leaf, leftmost);
  }

  // ----- the iterator -----

  class IndexIterator<V> {
    const tree: Index<V>
    var page: int
    var index: nat
    ghost var leaf: nat
    ghost var rest: seq<SE.Entry<V>>

    /** `rest` are the entries to come. */
    ghost predicate Valid()
      reads this, tree
    {
      tree.Valid() && Standing(tree.tree, page, index, leaf, rest)
    }

    constructor (tree: Index<V>, page: int, index: nat, ghost leaf: nat, ghost rest: seq<SE.Entry<V>>)
      ensures this.tree == tree && this.page == page && this.index == index && this.leaf == leaf && this.rest == rest
    {
      this.tree, this.page, this.index, this.leaf, this.rest := tree, page, index, leaf, rest;
    }

    lemma Seen()
      requires Valid()
      ensures page == NO_PAGE || (page in tree.pages && tree.pages[page].LeafPage?)
      ensures AtEnd(tree.pages, page, index) <==> rest == []
      ensures rest != [] ==>
                page in tree.pages && index < |tree.pages[page].entries|
                && rest[0] == tree.pages[page].entries[index]
      ensures rest != [] ==> var p := Advance(tree.pages, page, index);
              exists n' :: Standing(tree.tree, p.0, p.1, n', rest[1..])
    {
      if tree.tree.Some? {
        StoredLeaves(tree.limits, tree.root, tree.pages, tree.nextId, tree.tree, tree.height);
      }
      StandingSeen(tree.pages, tree.tree, page, index, leaf, rest);
    }

    method IsEnd() returns (r: bool)
      requires Valid()
      ensures r <==> rest == []
    {
      Seen();
      r := page == NO_PAGE || (tree.pages[page].next == NO_PAGE && index == |tree.pages[page].entries|);
    }

    method Item() returns (e: SE.Entry<V>)
      requires Valid() && rest != []
      ensures e == rest[0]
    {
      Seen();
      e := tree.pages[page].entries[index];
    }

    method Next()
      requires Valid() && rest != []
      modifies this
      ensures Valid() && rest == old(rest)[1..]
    {
      Seen();
      if index + 1 == |tree.pages[page].entries| && tree.pages[page].next != NO_PAGE {
        page, index := tree.pages[page].next, 0;
      } else {
        index := index + 1;
      }
      rest := rest[1..];
      ghost var n :| Standing(tree.tree, page, index, n, rest);
      leaf := n;
    }
  }

  /** An iterator over all entries. */
  method Begin<V>(tree: Index<V>) returns (it: IndexIterator<V>)
    requires tree.Valid()
    ensures fresh(it) && it.tree == tree && it.Valid() && it.rest == tree.Entries()
  {
    if tree.root == NO_PAGE {
      it := new IndexIterator(tree, NO_PAGE, 0, 0, []);
      return;
    }
    var id;
    ghost var path, leaf;
    id, path, leaf := OutermostLeaf(tree, true);
    StoredLeaves(tree.limits, tree.root, tree.pages, tree.nextId, tree.tree, tree.height);
    WalkEnds(tree.pages, tree.tree.value, tree.height, path, leaf, true);
    it := new IndexIterator(tree, id, 0, 0, tree.Entries());
  }

  /** The iterator past the last entry. */
  method End<V>(tree: Index<V>) returns (it: IndexIterator<V>)
    requires tree.Valid()
    ensures fresh(it) && it.tree == tree && it.Valid() && it.rest == []
  {
    if tree.root == NO_PAGE {
      it := new IndexIterator(tree, NO_PAGE, 0, 0, []);
      return;
    }
    var id;
    ghost var path, leaf;
    id, path, leaf := OutermostLeaf(tree, false);
    StoredLeaves(tree.limits, tree.root, tree.pages, tree.nextId, tree.tree, tree.height);
    WalkEnds(tree.pages, tree.tree.value, tree.height, path, leaf, false);
    it := new IndexIterator(tree, id, |tree.pages[id].entries|, |LeavesBefore(path)|, []);
  }

  /**
   An iterator over the entries from a key on; it is one exactly if the key is within its leaf, as stored keys are.
   */
  method BeginAt<V>(tree: Index<V>, key: int) returns (it: IndexIterator<V>)
    requires tree.Valid()
    ensures fresh(it) && it.tree == tree
    ensures tree.root == NO_PAGE || Within(tree.tree.value, key) ==>
            it.Valid() && it.rest == tree.Entries()[SE.LowerBound(tree.Entries(), key)..]
    ensures tree.root != NO_PAGE && !Within(tree.tree.value, key) ==> Astray(tree.pages, it.page, it.index)
    ensures key in tree.Contents() ==> it.Valid() && it.rest != [] && it.rest[0].0 == key
  {
    tree.InOrder(key);
    if tree.root == NO_PAGE {
      it := new IndexIterator(tree, NO_PAGE, 0, 0, []);
      return;
    }
    var id, queue, rootLatched;
    ghost var path, leaf, k;
    id, queue, rootLatched, path, leaf, k := tree.FindLeaf(key, SEARCH);
    StoredLeaves(tree.limits, tree.root, tree.pages, tree.nextId, tree.tree, tree.height);
    KeyStands(tree.pages, tree.tree.value, key, tree.height, path, leaf, tree.limits);
    FoundInLeaf(tree.tree.value, key, tree.height, path, leaf, tree.limits);
    it := new IndexIterator(tree, id, SE.LowerBound(tree.pages[id].entries, key), |LeavesBefore(path)|,
                            tree.Entries()[SE.LowerBound(tree.Entries(), key)..]);
  }

  /** What a scan of the whole index reads. */
  method Scan<V>(tree: Index<V>) returns (entries: seq<SE.Entry<V>>)
    requires tree.Valid()
    ensures entries == tree.Entries()
  {
    hide *;
    entries := [];
    var it := Begin(tree);
    var end := it.IsEnd();
    while !end
      invariant it.tree == tree && fresh(it) && it.Valid() && (end <==> it.rest == [])
      invariant entries + it.rest == tree.Entries()
      decreases |it.rest|
    {
      var e := it.Item();
      entries := entries + [e];
      it.Next();
      end := it.IsEnd();
    }
  }

  /** A key between the last of one leaf and the first of the next: 2 in an index that holds 1 and 3. */
  lemma KeyBetweenLeaves(v: int)
    ensures var t := PNode(3, [3], [PLeaf(1, 2, [(1, v)]), PLeaf(2, NO_PAGE, [(3, v)])]);
            var pages := map[1 := LeafPage(3, 2, [(1, v)]), 2 := LeafPage(3, NO_PAGE, [(3, v)]),
                             3 := InternalPage(NO_PAGE, [3], [1, 2])];
            Stored(Limits(2, 3), 3, pages, 4, Some(t), 1) && !Within(t, 2)
  {
    var a, b := PLeaf(1, 2, [(1, v)]), PLeaf(2, NO_PAGE, [(3, v)]);
    var t := PNode(3, [3], [a, b]);
    var pages: Pages<int> := map[1 := LeafPage(3, 2, [(1, v)]), 2 := LeafPage(3, NO_PAGE, [(3, v)]),
                                 3 := InternalPage(NO_PAGE, [3], [1, 2])];
    PlainTwo(a, b);
    PairIds(a, b);
    PairLinks(a, b);
    assert TreePlaced(pages, t);
    assert pages.Keys == Ids(t);
    assert Links(t) == [(1, 2), (2, NO_PAGE)];
    assert Held(pages, t);
    NewRoot(Plain(a), 3, Plain(b), Limits(2, 3), 0);
    assert SoundRoot(Some(Plain(t)), Limits(2, 3), 1);
    assert ChildOf([3], 2) == 0;
    assert LeafFor(t, 2) == LeafFor(a, 2) == a;
    assert SE.LowerBound([(1, v)], 2) == 1;
    assert !Within(t, 2);
  }
}
