/** The B+ tree index: a root and pages that are changed in place. */
module BPlusTreeIndex {
  import opened Options
  import SE = SortedEntries
  import opened BPlusTree
  import opened BPlusTreeProofs
  import opened BPlusTreePages
  import opened BPlusTreeLinks
  import opened BPlusTreeLatches
  import S = BPlusTreeShifts
  import opened BPlusTreeSteps
  import opened BPlusTreeRepairs

  /** The position of a page among the children of its parent. */
  method ValueIndex(children: seq<int>, id: int) returns (i: nat)
    requires id in children
    ensures i < |children| && children[i] == id && id !in children[..i]
  {
    i := 0;
    while children[i] != id
      invariant i < |children| && id !in children[..i] && id in children[i..]
      decreases |children| - i
    {
      assert children[i..] == [children[i]] + children[i + 1..];
      assert children[..i + 1] == children[..i] + [children[i]];
      i := i + 1;
    }
  }

  class Index<V> {
    const limits: Limits
    var root: int
    var pages: Pages<V>
    var nextId: int
    var deleted: set<int>
    ghost var tree: Option<Placed<V>>
    ghost var height: nat

    ghost predicate Valid()
      reads this
    {
      Stored(limits, root, pages, nextId, tree, height) && deleted == {}
    }

    /** The entries of the index, in order. */
    ghost function Entries(): seq<SE.Entry<V>>
      reads this
    {
      EntriesOf(tree)
    }

    /** What the index stands for. */
    ghost function Contents(): map<int, V>
      reads this
    {
      SE.Map(Entries())
    }

    lemma InOrder(key: int)
      requires Valid()
      ensures SE.Sorted(Entries())
      ensures SE.Lookup(Entries(), key) == if key in Contents() then Some(Contents()[key]) else None
    {
      TreeIsMap(if tree.Some? then Some(Plain(tree.value)) else None, limits, height, key);
      SE.InMap(Entries(), key);
    }

    constructor (limits: Limits)
      requires LimitsOk(limits)
      ensures Valid() && Entries() == []
    {
      this.limits := limits;
      root, pages, nextId, deleted := NO_PAGE, map[], HEADER_PAGE + 1, {};
      tree, height := None, 0;
    }

    /**
     Walks down to the leaf in which the key belongs.  `queue` are the ancestors still latched, from the node of
     depth `k` on, and `rootLatched` says whether the id of the root is.
     */
    method FindLeaf(key: int, op: Operation)
      returns (id: int, queue: seq<int>, rootLatched: bool, ghost path: seq<PStep<V>>, ghost leaf: Placed<V>,
               ghost k: nat)
      requires Stored(limits, root, pages, nextId, tree, height) && tree.Some?
      ensures FoundLeaf(tree.value, key, height, path, leaf, limits) && leaf.PLeaf?
      ensures leaf.id == id && id in pages && pages[id] == LeafPage(ParentOf(path), leaf.next, leaf.entries)
      ensures LatchedAt(tree.value, key, op, limits, path, leaf, k, rootLatched) && Queued(queue, path, k)
    {
      hide *;
      ghost var nodes;
      id, path, nodes, leaf, k, queue := root, [], [], tree.value, 0, [];
      StoredFacts(limits, root, pages, nextId, tree, height);
      SearchStarts(pages, leaf, key, limits, height);
      OnPage(pages, tree.value, key, height, path, leaf);
      rootLatched := !Safe(op, true, pages[id].LeafPage?, PageSize(pages[id]), limits);
      WayStarts(leaf, key, op, limits, rootLatched);
      while pages[id].InternalPage?
        invariant SearchedTo(pages, tree.value, key, height, path, leaf) && leaf.id == id && id in pages
        invariant OnWay(tree.value, key, op, limits, path, nodes, leaf, k, rootLatched, queue)
        decreases leaf
      {
        OnPage(pages, tree.value, key, height, path, leaf);
        var node := pages[id];
        var i := ChildOf(node.keys, key);
        ghost var step := StepOf(leaf, key);
        SearchSteps(pages, tree.value, key, height, path, leaf);
        WaySteps(tree.value, key, op, limits, path, nodes, leaf, k, rootLatched, queue);
        queue, id := queue + [id], node.children[i];
        path, nodes, leaf := path + [step], nodes + [leaf], leaf.children[i];
        OnPage(pages, tree.value, key, height, path, leaf);
        NotTheHeader(pages, nextId, id);
        assert id > HEADER_PAGE;
        if Safe(op, false, pages[id].LeafPage?, PageSize(pages[id]), limits) {
          queue, rootLatched, k := [], false, |path|;
        }
      }
      OnPage(pages, tree.value, key, height, path, leaf);
      SearchFinds(pages, tree.value, key, height, path, leaf, limits);
      WayEnds(tree.value, key, op, limits, path, nodes, leaf, k, rootLatched, queue);
    }

    /** The code asserts that the tree is not empty. */
    method GetValue(key: int) returns (result: Option<V>)
      requires Valid() && root != NO_PAGE
      ensures result == if key in Contents() then Some(Contents()[key]) else None
    {
      InOrder(key);
      hide Contents;
      ghost var path, leaf, k;
      var id, queue, rootLatched;
      id, queue, rootLatched, path, leaf, k := FindLeaf(key, SEARCH);
      result := SE.Lookup(pages[id].entries, key);
      FoundInLeaf(tree.value, key, height, path, leaf, limits);
    }

    /** Inserts the entry unless its key is there already.  Only pages that stayed latched get other contents. */
    method Insert(key: int, value: V) returns (ok: bool, rootLatched: bool, ghost k: nat)
      requires Valid()
      modifies this
      ensures Valid()
      ensures ok <==> key !in old(Contents())
      ensures Entries() == SE.Insert(old(Entries()), key, value)
      ensures Contents() == if ok then old(Contents())[key := value] else old(Contents())
      ensures root != old(root) ==> rootLatched
      ensures old(tree).Some? ==> LatchRule(SearchNodes(old(tree.value), key), INSERT, limits, k, rootLatched)
      ensures old(tree).Some? ==> Kept(old(pages), pages, LatchedIds(old(tree.value), key, k))
    {
      InOrder(key);
      SE.InsertMap(Entries(), key, value);
      hide SE.Map, SE.Insert, SE.LowerBound;
      if root == NO_PAGE {
        StartNewTree(key, value);
        SE.InsertFirst(key, value);
        return true, true, 0;
      }
      ok, rootLatched, k := InsertIntoLeaf(key, value);
    }

    method StartNewTree(key: int, value: V)
      requires Valid() && root == NO_PAGE
      modifies this
      ensures Valid() && Entries() == [(key, value)]
    {
      root := nextId;
      nextId := nextId + 1;
      pages := pages[root := LeafPage(NO_PAGE, NO_PAGE, [(key, value)])];
      tree, height := Some(PLeaf(root, NO_PAGE, [(key, value)])), 0;
    }

    method InsertIntoLeaf(key: int, value: V) returns (ok: bool, rootLatched: bool, ghost k: nat)
      requires Stored(limits, root, pages, nextId, tree, height) && tree.Some?
      modifies `pages, `root, `nextId, `tree, `height
      ensures Stored(limits, root, pages, nextId, tree, height)
      ensures ok <==> !SE.Has(old(EntriesOf(tree)), key)
      ensures EntriesOf(tree) == SE.Insert(old(EntriesOf(tree)), key, value)
      ensures root != old(root) ==> rootLatched
      ensures LatchRule(SearchNodes(old(tree.value), key), INSERT, limits, k, rootLatched)
      ensures Kept(old(pages), pages, LatchedIds(old(tree.value), key, k))
    {
      hide *;
      ghost var path, leaf;
      var id, queue;
      id, queue, rootLatched, path, leaf, k := FindLeaf(key, INSERT);
      StoredFacts(limits, root, pages, nextId, tree, height);
      FoundInLeaf(tree.value, key, height, path, leaf, limits);
      LatchedAre(tree.value, key, INSERT, limits, path, leaf, k, rootLatched);
      var page := pages[id];
      var entries := SE.Insert(page.entries, key, value);
      SE.InsertSize(page.entries, key, value);
      SE.InsertSize(EntriesOf(tree), key, value);
      if |entries| == |page.entries| {
        KeptSame(pages, LatchedIds(tree.value, key, k));
        return false, rootLatched, k;
      }
      InsertNew(id, key, value, path, leaf, k, rootLatched);
      ok := true;
    }

    /** The key is not in the leaf. */
    method InsertNew(id: int, key: int, value: V, ghost path: seq<PStep<V>>, ghost leaf: Placed<V>, ghost k: nat,
                     ghost rootLatched: bool)
      requires Stored(limits, root, pages, nextId, tree, height) && tree.Some?
      requires FoundLeaf(tree.value, key, height, path, leaf, limits) && leaf.PLeaf?
      requires leaf.id == id && id in pages && pages[id] == LeafPage(ParentOf(path), leaf.next, leaf.entries)
      requires |SE.Insert(leaf.entries, key, value)| == |leaf.entries| + 1
      requires LatchedAt(tree.value, key, INSERT, limits, path, leaf, k, rootLatched)
      modifies `pages, `root, `nextId, `tree, `height
      ensures Stored(limits, root, pages, nextId, tree, height)
      ensures EntriesOf(tree) == SE.Insert(old(EntriesOf(tree)), key, value)
      ensures Kept(old(pages), pages, {id} + Steps(path, k)) && (root != old(root) ==> rootLatched)
    {
      hide *;
      StoredFacts(limits, root, pages, nextId, tree, height);
      var page := pages[id];
      var entries := SE.Insert(page.entries, key, value);
      ghost var t;
      if |entries| < limits.leafMax {
        LeafGrows(pages, tree.value, key, value, height, path, leaf, limits);
        InRangeKept(pages, id, LeafPage(page.parent, page.next, entries), nextId);
        KeptUpdate(pages, id, LeafPage(page.parent, page.next, entries));
        KeptMore(pages, pages[id := LeafPage(page.parent, page.next, entries)], {id}, {id} + Steps(path, k));
        pages := pages[id := LeafPage(page.parent, page.next, entries)];
        t := PPlug(path, PLeaf(id, page.next, entries));
      } else {
        InsertClimbs(tree.value, key, limits, height, path, leaf, k, rootLatched);
        t := SplitLeafPage(id, key, value, path, leaf, k, !rootLatched);
      }
      Inserted(tree.value, t, path, leaf, key, value, limits, height);
      height := GrownHeight(tree.value, key, value, limits, height);
      tree := Some(t);
      NowStored(limits, root, pages, nextId, t, height);
    }

    /** Splits a full leaf around the new entry. */
    method SplitLeafPage(id: int, key: int, value: V, ghost path: seq<PStep<V>>, ghost leaf: Placed<V>, ghost k: nat,
                         ghost safe: bool)
      returns (ghost t: Placed<V>)
      requires LimitsOk(limits) && InRange(pages, nextId) && tree.Some? && Held(pages, tree.value)
               && root == tree.value.id
      requires FoundLeaf(tree.value, key, height, path, leaf, limits) && leaf.PLeaf?
      requires leaf.id == id && id in pages && pages[id] == LeafPage(ParentOf(path), leaf.next, leaf.entries)
      requires |leaf.entries| < |SE.Insert(leaf.entries, key, value)|
               && |SE.Insert(leaf.entries, key, value)| >= limits.leafMax
      requires InsertStops(path, k, safe, limits)
      modifies `pages, `root, `nextId
      ensures InRange(pages, nextId) && Held(pages, t) && t.id == root
      ensures InsertedInto(path, leaf, key, value, limits, t)
      ensures Kept(old(pages), pages, {id} + Steps(path, k)) && (safe ==> root == old(root))
    {
      hide *;
      var page, n, m := pages[id], nextId, LeafMin(limits);
      var entries := SE.Insert(page.entries, key, value);
      NextIsNew(pages, n);
      LeafSplits(pages, tree.value, key, value, height, path, leaf, limits, n);
      ghost var was, a, b := pages, PLeaf(id, n, entries[..m]), PLeaf(n, page.next, entries[m..limits.leafMax]);
      nextId := nextId + 1;
      KeptLeafSplit(pages, id, LeafPage(page.parent, n, entries[..m]), n,
                    LeafPage(page.parent, page.next, entries[m..limits.leafMax]));
      pages := pages[id := LeafPage(page.parent, n, entries[..m])]
                    [n := LeafPage(page.parent, page.next, entries[m..limits.leafMax])];
      assert pages.Keys == was.Keys + {n};
      InRangeGrown(was, pages, n);
      ghost var split := pages;
      t := InsertIntoParent(id, entries[m].0, n, path, a, b, 0, k, safe);
      LeafCarried(path, leaf, key, value, limits, a, entries[m].0, b, t);
      KeptThen(was, split, pages, {id}, Steps(path, k), {id} + Steps(path, k));
    }

    /** A node was split; puts the new half next to the old one, which may split the parent, and so on up. */
    method InsertIntoParent(id: int, key: int, newId: int, ghost path: seq<PStep<V>>, ghost l: Placed<V>,
                            ghost r: Placed<V>, ghost h: nat,
                            ghost k: nat, ghost safe: bool)
      returns (ghost t: Placed<V>)
      requires LimitsOk(limits) && InRange(pages, nextId) && SplitAt(pages, path, l, r, h, root) && l.id == id
               && r.id == newId
      requires InsertStops(path, k, safe, limits)
      modifies `pages, `root, `nextId
      ensures InRange(pages, nextId) && Held(pages, t) && t.id == root && CarriedTo(path, l, key, r, limits, h, t)
      ensures Kept(old(pages), pages, Steps(path, k)) && (safe ==> root == old(root))
      decreases |path|, 2
    {
      SplitOnPage(pages, path, l, r, h, root);
      if pages[id].parent == NO_PAGE {
        t := NewRoot(id, key, newId, l, r, h);
        KeptMore(old(pages), pages, {}, Steps(path, k));
        return;
      }
      ParentIsPage(pages, path, l, r, h, root);
      hide *;
      ghost var s := path[|path| - 1];
      var parentId := pages[id].parent;
      var parent := pages[parentId];
      var i := ValueIndex(parent.children, id);
      PositionIs(s, id, parent.children, i);
      NewParentIs(s, l, key, r, parentId);
      var keys, children := InsertAt(parent.keys, i, key), InsertAt(parent.children, i + 1, newId);
      t := StoreParent(parentId, keys, children, key, path, l, r, h, k, safe);
    }

    /** Puts a new root above a split one. */
    method NewRoot(id: int, key: int, newId: int, ghost l: Placed<V>, ghost r: Placed<V>, ghost h: nat)
      returns (ghost t: Placed<V>)
      requires LimitsOk(limits) && InRange(pages, nextId) && SplitAt(pages, [], l, r, h, root) && l.id == id
               && r.id == newId
      modifies `pages, `root, `nextId
      ensures InRange(pages, nextId) && Held(pages, t) && t.id == root && CarriedTo([], l, key, r, limits, h, t)
      ensures Kept(old(pages), pages, {})
    {
      var n := nextId;
      RootSplit(pages, l, key, r, limits, h, root, n);
      KeptRoot(pages, id, newId, n, InternalPage(NO_PAGE, [key], [id, newId]));
      hide SplitAt, CarriedTo, Held, LimitsOk;
      nextId, root := nextId + 1, n;
      pages := pages[n := InternalPage(NO_PAGE, [key], [id, newId])]
                    [id := pages[id].(parent := n)][newId := pages[newId].(parent := n)];
      t := PNode(n, [key], [l, r]);
    }

    /** Stores a parent with one more child, in two pages if it is too long for one. */
    method StoreParent(id: int, keys: seq<int>, children: seq<int>, ghost key: int, ghost path: seq<PStep<V>>,
                       ghost l: Placed<V>, ghost r: Placed<V>, ghost h: nat,
                       ghost k: nat, ghost safe: bool)
      returns (ghost t: Placed<V>)
      requires LimitsOk(limits) && InRange(pages, nextId) && SplitAt(pages, path, l, r, h, root) && path != []
      requires NewParent(path[|path| - 1], l, key, r, id, keys, children)
      requires InsertStops(path, k, safe, limits)
      modifies `pages, `root, `nextId
      ensures InRange(pages, nextId) && Held(pages, t) && t.id == root && CarriedTo(path, l, key, r, limits, h, t)
      ensures Kept(old(pages), pages, Steps(path, k)) && (safe ==> root == old(root))
      decreases |path|, 1
    {
      ghost var s, rest := path[|path| - 1], path[..|path| - 1];
      hide *;
      ParentOnPage(pages, path, l, key, r, h, root, id, keys, children);
      if |children| <= limits.internalMax {
        RoomForBoth(pages, path, l, key, r, limits, h, root, keys, children);
        InRangeKept(pages, id, InternalPage(pages[id].parent, keys, children), nextId);
        StopsAbove(path, k, safe, l, key, r, id, keys, children, limits);
        KeptUpdate(pages, id, InternalPage(pages[id].parent, keys, children));
        KeptMore(pages, pages[id := InternalPage(pages[id].parent, keys, children)], {id}, Steps(path, k));
        pages := pages[id := InternalPage(pages[id].parent, keys, children)];
        t := PPlug(rest, PNode(s.id, keys, WithBoth(s, l, r)));
      } else {
        t := SplitParent(id, keys, children, key, path, l, r, h, k, safe);
      }
    }

    method SplitParent(id: int, keys: seq<int>, children: seq<int>, ghost key: int, ghost path: seq<PStep<V>>,
                       ghost l: Placed<V>, ghost r: Placed<V>, ghost h: nat,
                       ghost k: nat, ghost safe: bool)
      returns (ghost t: Placed<V>)
      requires LimitsOk(limits) && InRange(pages, nextId) && SplitAt(pages, path, l, r, h, root) && path != []
      requires NewParent(path[|path| - 1], l, key, r, id, keys, children) && |children| > limits.internalMax
      requires InsertStops(path, k, safe, limits)
      modifies `pages, `root, `nextId
      ensures InRange(pages, nextId) && Held(pages, t) && t.id == root && CarriedTo(path, l, key, r, limits, h, t)
      ensures Kept(old(pages), pages, Steps(path, k)) && (safe ==> root == old(root))
      decreases |path|, 0
    {
      ghost var was, top := pages, root;
      hide *;
      NextIsNew(pages, nextId);
      ParentOnPage(pages, path, l, key, r, h, root, id, keys, children);
      ghost var l', r' := ParentSplits(pages, path, l, key, r, limits, h, root, nextId, keys, children);
      StopsAbove(path, k, safe, l, key, r, id, keys, children, limits);
      KeptSplit(pages, id, pages[id].parent, keys, children, limits, nextId);
      var n, rising := Split(id, keys, children);
      InRangeGrown(was, pages, n);
      ghost var split := pages;
      t := InsertIntoParent(id, rising, n, path[..|path| - 1], l', r', h + 1, k, safe);
      KeptThen(was, split, pages, {id}, Steps(path[..|path| - 1], k), Steps(path, k));
      CarriesOn(was, path, l, key, r, limits, h, top, n, keys, children, l', r', t);
    }

    /** Splits an internal page whose new contents are too long; gives the new page and the key between the two. */
    method Split(id: int, keys: seq<int>, children: seq<int>) returns (n: int, key: int)
      requires id in pages && 0 < NodeMin(limits) <= |keys| < |children|
      requires InRange(pages, nextId) && forall i :: 0 <= i < |children| ==> children[i] in pages
      modifies `pages, `nextId
      ensures n == old(nextId) && nextId == n + 1 && key == keys[NodeMin(limits) - 1]
      ensures pages == SplitInternal(old(pages), id, old(pages[id].parent), keys, children, limits, n)
    {
      var m, parent := NodeMin(limits), pages[id].parent;
      n, key := nextId, keys[m - 1];
      nextId := nextId + 1;
      pages := pages[id := InternalPage(parent, keys[..m - 1], children[..m])]
                    [n := InternalPage(parent, keys[m..], children[m..])];
      AdoptAll(children[m..], n);
    }

    /** Makes a page the parent of others. */
    method AdoptAll(ids: seq<int>, parent: int)
      requires forall i :: 0 <= i < |ids| ==> ids[i] in pages
      modifies `pages
      ensures pages == Adopt(old(pages), ids, parent)
    {
      var j := 0;
      while j < |ids|
        invariant j <= |ids| && (forall i :: 0 <= i < |ids| ==> ids[i] in pages)
        invariant Adopt(pages, ids[j..], parent) == Adopt(old(pages), ids, parent)
      {
        pages := pages[ids[j] := pages[ids[j]].(parent := parent)];
        j := j + 1;
      }
    }

    // ----- removal -----

    /**
     Removes the entry with the key, if there is one.  Only latched pages and neighbours, which are latched first, get
     other contents.
     */
    method Remove(key: int) returns (rootLatched: bool, ghost k: nat)
      requires Valid()
      modifies this
      ensures Valid() && Entries() == SE.Delete(old(Entries()), key) && Contents() == old(Contents()) - {key}
      ensures root != old(root) ==> rootLatched
      ensures old(tree).Some? ==> LatchRule(SearchNodes(old(tree.value), key), DELETE, limits, k, rootLatched)
      ensures old(tree).Some? ==>
              Kept(old(pages), pages, LatchedIds(old(tree.value), key, k) + NeighbourIds(old(tree.value), key, k))
    {
      InOrder(key);
      SE.DeleteMap(Entries(), key);
      hide SE.Map, SE.Sorted;
      if root == NO_PAGE {
        return true, 0;
      }
      ghost var path, leaf;
      var id, queue;
      id, queue, rootLatched, path, leaf, k := FindLeaf(key, DELETE);
      FoundInLeaf(tree.value, key, height, path, leaf, limits);
      ghost var reach := LatchedIds(tree.value, key, k) + NeighbourIds(tree.value, key, k);
      GraspIs(tree.value, key, limits, path, leaf, k, rootLatched);
      var page := pages[id];
      var entries := SE.Delete(page.entries, key);
      if |entries| == |page.entries| {
        KeptSame(pages, reach);
        return;
      }
      RemoveFromLeaf(id, key, path, leaf, k, rootLatched);
      KeptMore(old(pages), pages, Grasp(path, k, id), reach);
    }

    method RemoveFromLeaf(id: int, key: int, ghost path: seq<PStep<V>>, ghost leaf: Placed<V>, ghost k: nat,
                          ghost rootLatched: bool)
      requires Stored(limits, root, pages, nextId, tree, height) && deleted == {} && tree.Some?
      requires FoundLeaf(tree.value, key, height, path, leaf, limits) && leaf.PLeaf?
      requires leaf.id == id && id in pages && pages[id] == LeafPage(ParentOf(path), leaf.next, leaf.entries)
      requires |SE.Delete(leaf.entries, key)| + 1 == |leaf.entries|
      requires LatchedAt(tree.value, key, DELETE, limits, path, leaf, k, rootLatched)
      modifies this
      ensures Stored(limits, root, pages, nextId, tree, height) && deleted == {}
      ensures EntriesOf(tree) == SE.Delete(old(EntriesOf(tree)), key)
      ensures Kept(old(pages), pages, Grasp(path, k, id)) && (root != old(root) ==> rootLatched)
    {
      hide *;
      StoredFacts(limits, root, pages, nextId, tree, height);
      ghost var t := ShrinkLeaf(id, key, path, leaf, k, rootLatched);
      Removed(tree.value, t, path, leaf, key, limits, height);
      height := ShrunkHeight(tree.value, key, limits, height);
      NowStoredBut(limits, root, pages, nextId, t, height, deleted);
      KeptDropped(old(pages), pages, deleted, Grasp(path, k, id));
      pages, deleted := pages - deleted, {};
      tree := t;
    }

    /** Takes the entry out of its leaf and repairs the tree; `deleted` are then the pages no longer used. */
    method ShrinkLeaf(id: int, key: int, ghost path: seq<PStep<V>>, ghost leaf: Placed<V>, ghost k: nat,
                      ghost rootLatched: bool)
      returns (ghost t: Option<Placed<V>>)
      requires LimitsOk(limits) && InRange(pages, nextId) && tree.Some? && Held(pages, tree.value)
               && root == tree.value.id && deleted == {}
      requires FoundLeaf(tree.value, key, height, path, leaf, limits) && leaf.PLeaf?
      requires leaf.id == id && id in pages && pages[id] == LeafPage(ParentOf(path), leaf.next, leaf.entries)
      requires |SE.Delete(leaf.entries, key)| + 1 == |leaf.entries|
      requires LatchedAt(tree.value, key, DELETE, limits, path, leaf, k, rootLatched)
      modifies `pages, `root, `deleted
      ensures InRange(pages, nextId) && Ended(pages, root, t, deleted)
      ensures RepairedTo(path, PLeaf(leaf.id, leaf.next, SE.Delete(leaf.entries, key)), limits, 0, t)
      ensures Kept(old(pages), pages, Grasp(path, k, id)) && deleted <= Grasp(path, k, id)
              && (root != old(root) ==> rootLatched)
    {
      InGrasp(path, k, id);
      hide *;
      LeafShrinks(pages, tree.value, key, height, path, leaf, limits);
      var page := pages[id];
      var entries := SE.Delete(page.entries, key);
      RemoveClimbs(tree.value, key, limits, height, path, leaf, PLeaf(id, page.next, entries), k, rootLatched);
      InRangeKept(pages, id, LeafPage(page.parent, page.next, entries), nextId);
      KeptUpdate(pages, id, LeafPage(page.parent, page.next, entries));
      pages := pages[id := LeafPage(page.parent, page.next, entries)];
      ghost var shrunk := pages;
      NoneAdded({});
      var gone;
      gone, t := CoalesceOrRedistribute(id, path, PLeaf(id, page.next, entries), 0, {}, k, !rootLatched);
      KeptThen(old(pages), shrunk, pages, {id}, Grasp(path, k, id), Grasp(path, k, id));
      NoneAdded(deleted);
      if gone {
        deleted := deleted + {id};
      }
    }

    /**
     A node has become smaller; gives whether its page is no longer used.  `pending` are pages that callers will delete.
     */
    method CoalesceOrRedistribute(id: int, ghost path: seq<PStep<V>>, ghost t: Placed<V>, ghost h: nat,
                                  ghost pending: set<int>, ghost k: nat, ghost safe: bool)
      returns (gone: bool, ghost t': Option<Placed<V>>)
      requires InRange(pages, nextId) && Shrunk(pages, path, t, limits, h, root, deleted + pending) && t.id == id
      requires RemoveStops(path, t, k, safe, limits)
      modifies `pages, `root, `deleted
      ensures InRange(pages, nextId) && RepairedTo(path, t, limits, h, t')
      ensures Ended(pages, root, t', deleted + pending + if gone then {id} else {})
      ensures Kept(old(pages), pages, Grasp(path, k, id)) && deleted <= old(deleted) + Grasp(path, k, id)
              && (safe ==> root == old(root))
      decreases |path|, 2
    {
      ShrunkOnPage(pages, path, t, limits, h, root, deleted + pending);
      var page := pages[id];
      if page.parent == NO_PAGE {
        gone, t' := AdjustRoot(id, t, h, pending, k, safe);
        KeptMore(old(pages), pages, {}, Grasp(path, k, id));
        return;
      }
      if PageSize(page) >= MinPageSize(page, limits) {
        EnoughLeft(pages, path, t, limits, h, root, deleted + pending);
        KeptSame(pages, Grasp(path, k, id));
        gone, t' := false, Some(PPlug(path, t));
        return;
      }
      var i := ValueIndex(pages[page.parent].children, id);
      PositionIs(path[|path| - 1], id, pages[page.parent].children, i);
      if i > 0 {
        gone, t' := WithLeft(id, page.parent, i, path, t, h, pending, k, safe);
      } else {
        gone, t' := WithRight(id, page.parent, path, t, h, pending, k, safe);
      }
    }

    /** An empty root leaf goes, and a root with one child gives way to it. */
    method AdjustRoot(id: int, ghost t: Placed<V>, ghost h: nat, ghost pending: set<int>, ghost k: nat,
                      ghost safe: bool)
      returns (gone: bool, ghost t': Option<Placed<V>>)
      requires InRange(pages, nextId) && Shrunk(pages, [], t, limits, h, root, deleted + pending) && t.id == id
      requires RemoveStops([], t, k, safe, limits)
      modifies `pages, `root
      ensures InRange(pages, nextId) && RepairedTo([], t, limits, h, t')
      ensures Ended(pages, root, t', deleted + pending + if gone then {id} else {})
      ensures Kept(old(pages), pages, {}) && (safe ==> root == old(root))
    {
      ShrunkOnPage(pages, [], t, limits, h, root, deleted + pending);
      if safe { StopsHere([], t, k, safe, limits); }
      var page := pages[id];
      if page.InternalPage? && |page.children| == 1 {
        RootReplaced(pages, t, limits, h, root, deleted + pending);
        root := page.children[0];
        InRangeKept(pages, root, pages[root].(parent := NO_PAGE), nextId);
        KeptParent(pages, root, NO_PAGE);
        pages := pages[root := pages[root].(parent := NO_PAGE)];
        gone, t' := true, Some(t.children[0]);
      } else if page.LeafPage? && page.entries == [] {
        RootGone(pages, t, limits, h, root, deleted + pending);
        KeptSame(pages, {});
        root := NO_PAGE;
        gone, t' := true, None;
      } else {
        RootKept(pages, t, limits, h, root, deleted + pending);
        KeptSame(pages, {});
        gone, t' := false, Some(t);
      }
    }

    /** Borrows from the left neighbour, or merges into it. */
    method WithLeft(id: int, parent: int, i: nat, ghost path: seq<PStep<V>>, ghost t: Placed<V>, ghost h: nat,
                    ghost pending: set<int>,
                    ghost k: nat, ghost safe: bool)
      returns (gone: bool, ghost t': Option<Placed<V>>)
      requires InRange(pages, nextId) && Shrunk(pages, path, t, limits, h, root, deleted + pending) && t.id == id
               && path != []
      requires parent == path[|path| - 1].id && i == |path[|path| - 1].left| > 0
               && Size(Plain(t)) < MinSize(Plain(t), limits)
      requires RemoveStops(path, t, k, safe, limits)
      modifies `pages, `root, `deleted
      ensures InRange(pages, nextId) && RepairedTo(path, t, limits, h, t')
      ensures Ended(pages, root, t', deleted + pending + if gone then {id} else {})
      ensures Kept(old(pages), pages, Grasp(path, k, id)) && deleted <= old(deleted) + Grasp(path, k, id)
              && (safe ==> root == old(root))
      decreases |path|, 1
    {
      ghost var q, a := LeftPair(pages, path, t, limits, h, root, deleted + pending);
      BesideSeen(pages, path, t, q, a, t, limits, h, deleted + pending);
      StopsHigher(pages, path, t, k, safe, q, a, t, limits, h, deleted + pending);
      hide *;
      var sibling := pages[parent].children[i - 1];
      if PageSize(pages[sibling]) > MinPageSize(pages[sibling], limits) {
        ghost var tree' := BorrowedRight(pages, path, t, q, a, limits, h, root, deleted + pending);
        var page := pages[parent];
        S.KeptRight(pages, sibling, id, page.keys[i - 1]);
        var key := MoveLastToFrontOf(sibling, id, page.keys[i - 1]);
        InRangeSame(old(pages), pages, parent, InternalPage(page.parent, page.keys[i - 1 := key], page.children),
                    nextId);
        KeptThree(old(pages), pages, sibling, id, parent,
                  InternalPage(page.parent, page.keys[i - 1 := key], page.children), Grasp(path, k, id));
        pages := pages[parent := InternalPage(page.parent, page.keys[i - 1 := key], page.children)];
        gone, t' := false, Some(tree');
        NoneAdded(deleted + pending);
      } else {
        var up;
        up, t' := Coalesce(sibling, id, parent, i - 1, path, t, q, a, t, h, pending, k, safe);
        Collected(deleted, pending, id, up, parent);
        if up {
          deleted := deleted + {parent};
        }
        gone := true;
      }
    }

    /** Borrows from the right neighbour, or merges it into the node. */
    method WithRight(id: int, parent: int, ghost path: seq<PStep<V>>, ghost t: Placed<V>, ghost h: nat,
                     ghost pending: set<int>, ghost k: nat, ghost safe: bool)
      returns (gone: bool, ghost t': Option<Placed<V>>)
      requires InRange(pages, nextId) && Shrunk(pages, path, t, limits, h, root, deleted + pending) && t.id == id
               && path != []
      requires parent == path[|path| - 1].id && path[|path| - 1].left == []
               && Size(Plain(t)) < MinSize(Plain(t), limits)
      requires RemoveStops(path, t, k, safe, limits)
      modifies `pages, `root, `deleted
      ensures InRange(pages, nextId) && RepairedTo(path, t, limits, h, t')
      ensures Ended(pages, root, t', deleted + pending + if gone then {id} else {})
      ensures Kept(old(pages), pages, Grasp(path, k, id)) && deleted <= old(deleted) + Grasp(path, k, id)
              && (safe ==> root == old(root))
      decreases |path|, 1
    {
      ghost var q, b := RightPair(pages, path, t, limits, h, root, deleted + pending);
      BesideSeen(pages, path, t, q, t, b, limits, h, deleted + pending);
      StopsHigher(pages, path, t, k, safe, q, t, b, limits, h, deleted + pending);
      hide *;
      var sibling := pages[parent].children[1];
      if PageSize(pages[sibling]) > MinPageSize(pages[sibling], limits) {
        ghost var tree' := BorrowedLeft(pages, path, t, q, b, limits, h, root, deleted + pending);
        var page := pages[parent];
        S.KeptLeft(pages, id, sibling, page.keys[0]);
        var key := MoveFirstToEndOf(id, sibling, page.keys[0]);
        InRangeSame(old(pages), pages, parent, InternalPage(page.parent, page.keys[0 := key], page.children), nextId);
        KeptThree(old(pages), pages, id, sibling, parent, InternalPage(page.parent, page.keys[0 := key], page.children),
                  Grasp(path, k, id));
        pages := pages[parent := InternalPage(page.parent, page.keys[0 := key], page.children)];
        gone, t' := false, Some(tree');
        NoneAdded(deleted + pending);
      } else {
        var up;
        up, t' := Coalesce(id, sibling, parent, 0, path, t, q, t, b, h, pending, k, safe);
        CollectedToo(deleted, pending, sibling, up, parent);
        deleted := deleted + {sibling};
        if up {
          deleted := deleted + {parent};
        }
        gone := false;
      }
    }

    /**
     Merges two neighbours into the first and repairs their parent; gives whether the parent's page is no longer used.
     */
    method Coalesce(i: int, j: int, p: int, n: nat, ghost path: seq<PStep<V>>, ghost t: Placed<V>, ghost q: PStep<V>,
                    ghost a: Placed<V>, ghost b: Placed<V>,
                    ghost h: nat, ghost pending: set<int>, ghost k: nat, ghost safe: bool)
      returns (up: bool, ghost t': Option<Placed<V>>)
      requires InRange(pages, nextId) && Shrunk(pages, path, t, limits, h, root, deleted + pending) && path != []
      requires Beside(pages, path, t, q, a, b, limits, h, deleted + pending) && i == a.id && j == b.id && p == q.id
               && n == |q.left|
      requires var m := |path[|path| - 1].left|;
               if m > 0 then n == m - 1 && Size(Plain(a)) <= MinSize(Plain(a), limits)
               else n == 0 && Size(Plain(b)) <= MinSize(Plain(b), limits)
      requires RemoveStops(path, t, k, safe, limits)
      modifies `pages, `root, `deleted
      ensures InRange(pages, nextId) && RepairedTo(path, t, limits, h, t')
      ensures Ended(pages, root, t', deleted + (pending + {j}) + if up then {p} else {})
      ensures Kept(old(pages), pages, Grasp(path, k, t.id)) && deleted <= old(deleted) + Grasp(path, k, t.id)
              && (safe ==> root == old(root))
      decreases |path|, 0
    {
      ghost var was, extra := pages, deleted + pending;
      ghost var node := MergePages(i, j, p, n, path, t, q, a, b, h, extra, k, safe);
      hide *;
      ghost var merged := pages;
      OneMore(deleted, pending, j);
      up, t' := CoalesceOrRedistribute(p, path[..|path| - 1], node, h + 1, pending + {j}, k, safe);
      KeptThen(was, merged, pages, Grasp(path, k, t.id), Grasp(path[..|path| - 1], k, p), Grasp(path, k, t.id));
      MergedMeans(was, path, t, q, a, b, limits, h, old(root), extra, node, t');
    }

    method MergePages(i: int, j: int, p: int, n: nat, ghost path: seq<PStep<V>>, ghost t: Placed<V>, ghost q: PStep<V>,
                      ghost a: Placed<V>, ghost b: Placed<V>,
                      ghost h: nat, ghost extra: set<int>, ghost k: nat, ghost safe: bool)
      returns (ghost node: Placed<V>)
      requires InRange(pages, nextId) && Shrunk(pages, path, t, limits, h, root, extra) && path != []
      requires Beside(pages, path, t, q, a, b, limits, h, extra) && i == a.id && j == b.id && p == q.id && n == |q.left|
      requires var m := |path[|path| - 1].left|;
               if m > 0 then n == m - 1 && Size(Plain(a)) <= MinSize(Plain(a), limits)
               else n == 0 && Size(Plain(b)) <= MinSize(Plain(b), limits)
      requires RemoveStops(path, t, k, safe, limits)
      modifies `pages
      ensures InRange(pages, nextId) && Shrunk(pages, path[..|path| - 1], node, limits, h + 1, root, extra + {j})
              && node.id == p
      ensures ParentIs(path, q, a, b, limits, h, node) && RemoveStops(path[..|path| - 1], node, k, safe, limits)
      ensures Kept(old(pages), pages, Grasp(path, k, t.id)) && Grasp(path[..|path| - 1], k, p) <= Grasp(path, k, t.id)
    {
      hide *;
      node := MergedInto(pages, path, t, q, a, b, limits, h, root, extra);
      BesideSeen(pages, path, t, q, a, b, limits, h, extra);
      StopsHigher(pages, path, t, k, safe, q, a, b, limits, h, extra);
      var page := pages[p];
      S.KeptJoin(pages, i, j, page.keys[n]);
      MoveAllTo(i, j, page.keys[n]);
      InRangeSame(old(pages), pages, p,
                  InternalPage(page.parent, RemoveAt(page.keys, n), RemoveAt(page.children, n + 1)), nextId);
      KeptThree(old(pages), pages, i, j, p,
                InternalPage(page.parent, RemoveAt(page.keys, n), RemoveAt(page.children, n + 1)),
                  Grasp(path, k, t.id));
      pages := pages[p := InternalPage(page.parent, RemoveAt(page.keys, n), RemoveAt(page.children, n + 1))];
    }

    method MoveLastToFrontOf(i: int, k: int, key: int) returns (last: int)
      requires S.Siblings(pages, i, k) && PageSize(pages[i]) > 1
      modifies `pages
      ensures pages == S.RightPages(old(pages), i, k, key) && last == S.LastKey(old(pages[i]))
    {
      var a, b := pages[i], pages[k];
      var n := PageSize(a) - 1;
      if a.LeafPage? {
        last := a.entries[n].0;
        pages := pages[i := LeafPage(a.parent, a.next, a.entries[..n])]
                      [k := LeafPage(b.parent, b.next, [a.entries[n]] + b.entries)];
      } else {
        last := a.keys[n - 1];
        pages := pages[i := InternalPage(a.parent, a.keys[..n - 1], a.children[..n])]
                      [k := InternalPage(b.parent, [key] + b.keys, [a.children[n]] + b.children)];
        AdoptAll([a.children[n]], k);
      }
    }

    method MoveFirstToEndOf(i: int, k: int, key: int) returns (second: int)
      requires S.Siblings(pages, i, k) && PageSize(pages[k]) > 1
      modifies `pages
      ensures pages == S.LeftPages(old(pages), i, k, key) && second == S.SecondKey(old(pages[k]))
    {
      var a, b := pages[i], pages[k];
      if a.LeafPage? {
        second := b.entries[1].0;
        pages := pages[i := LeafPage(a.parent, a.next, a.entries + [b.entries[0]])]
                      [k := LeafPage(b.parent, b.next, b.entries[1..])];
      } else {
        second := b.keys[0];
        pages := pages[i := InternalPage(a.parent, a.keys + [key], a.children + [b.children[0]])]
                      [k := InternalPage(b.parent, b.keys[1..], b.children[1..])];
        AdoptAll([b.children[0]], i);
      }
    }

    method MoveAllTo(i: int, k: int, key: int)
      requires S.Siblings(pages, i, k)
      modifies `pages
      ensures pages == S.JoinPages(old(pages), i, k, key)
    {
      var a, b := pages[i], pages[k];
      if a.LeafPage? {
        pages := pages[i := LeafPage(a.parent, b.next, a.entries + b.entries)][k := LeafPage(b.parent, b.next, [])];
      } else {
        pages := pages[i := InternalPage(a.parent, a.keys + [key] + b.keys, a.children + b.children)]
                      [k := InternalPage(b.parent, [], [])];
        AdoptAll(b.children, i);
      }
    }
  }
}
