/**
 The latches of an operation.  On the way down a page is latched before its parent is released, and all
 ancestors are released at a page that the operation cannot split or merge.
 */
module BPlusTreeLatches {
  import opened BPlusTree
  import opened BPlusTreePages

  datatype Operation = SEARCH | INSERT | DELETE

  /** Nothing above a page of this size will change. */
  predicate Safe(op: Operation, isRoot: bool, isLeaf: bool, size: nat, lim: Limits) {
    match op
    case SEARCH => true
    case INSERT => if isLeaf then size + 1 < lim.leafMax else size < lim.internalMax
    case DELETE => if isRoot then size > 2 else size > if isLeaf then LeafMin(lim) else NodeMin(lim)
  }

  // ----- the pages of a search -----

  /** The nodes from the root to the leaf in which the key belongs. */
  ghost function SearchNodes<V>(t: Placed<V>, key: int): seq<Placed<V>> {
    match t
    case PLeaf(_, _, _) => [t]
    case PNode(_, keys, cs) => [t] + if ChildOf(keys, key) < |cs| then SearchNodes(cs[ChildOf(keys, key)], key) else []
  }

  ghost predicate SafeNode<V>(nodes: seq<Placed<V>>, i: nat, op: Operation, lim: Limits)
    requires i < |nodes|
  {
    Safe(op, i == 0, nodes[i].PLeaf?, PSize(nodes[i]), lim)
  }

  /** The latches held: from the last safe node on, or from the root on with the latch of the root's id. */
  ghost predicate LatchRule<V>(nodes: seq<Placed<V>>, op: Operation, lim: Limits, k: nat, rootLatched: bool) {
    && k < |nodes| && (if rootLatched then k == 0 && !SafeNode(nodes, 0, op, lim) else SafeNode(nodes, k, op, lim))
    && forall i :: k < i < |nodes| ==> !SafeNode(nodes, i, op, lim)
  }

  // ----- what a step changes -----

  /** The same but for the parent. */
  ghost predicate SameContents<V>(a: PageNode<V>, b: PageNode<V>) {
    match a
    case LeafPage(_, next, es) => b.LeafPage? && b.next == next && b.entries == es
    case InternalPage(_, keys, cs) => b.InternalPage? && b.keys == keys && b.children == cs
  }

  /** No page outside `ids` is lost or gets other contents. */
  ghost predicate Kept<V>(pages: Pages<V>, pages': Pages<V>, ids: set<int>) {
    forall p :: p in pages && p !in ids ==> p in pages' && SameContents(pages'[p], pages[p])
  }

  lemma KeptSame<V>(pages: Pages<V>, ids: set<int>)
    ensures Kept(pages, pages, ids)
  {
  }

  lemma KeptThen<V>(pages: Pages<V>, pages1: Pages<V>, pages2: Pages<V>, ids: set<int>, ids': set<int>, all: set<int>)
    requires Kept(pages, pages1, ids) && Kept(pages1, pages2, ids') && ids <= all && ids' <= all
    ensures Kept(pages, pages2, all)
  {
    forall p | p in pages && p !in all ensures p in pages2 && SameContents(pages2[p], pages[p]) {
      assert p in pages1 && SameContents(pages1[p], pages[p]) && SameContents(pages2[p], pages1[p]);
    }
  }

  lemma KeptMore<V>(pages: Pages<V>, pages': Pages<V>, ids: set<int>, all: set<int>)
    requires Kept(pages, pages', ids) && ids <= all
    ensures Kept(pages, pages', all)
  {
  }

  lemma KeptUpdate<V>(pages: Pages<V>, id: int, page: PageNode<V>)
    ensures Kept(pages, pages[id := page], {id})
  {
  }

  lemma KeptParent<V>(pages: Pages<V>, id: int, parent: int)
    requires id in pages
    ensures Kept(pages, pages[id := pages[id].(parent := parent)], {})
  {
  }

  lemma {:induction false} KeptAdopt<V>(pages: Pages<V>, ids: seq<int>, parent: int)
    requires forall i :: 0 <= i < |ids| ==> ids[i] in pages
    ensures Kept(pages, Adopt(pages, ids, parent), {})
  {
    if ids != [] {
      var pages1 := pages[ids[0] := pages[ids[0]].(parent := parent)];
      KeptParent(pages, ids[0], parent);
      KeptAdopt(pages1, ids[1..], parent);
      KeptThen(pages, pages1, Adopt(pages, ids, parent), {}, {}, {});
    }
  }

  // ----- along the path -----

  ghost predicate HasStep<V>(t: Placed<V>, key: int) {
    t.PNode? && ChildOf(t.keys, key) < |t.children|
  }

  ghost function StepOf<V>(t: Placed<V>, key: int): PStep<V>
    requires HasStep(t, key)
  {
    var i := ChildOf(t.keys, key);
    PStep(t.id, t.keys, t.children[..i], t.children[i + 1..])
  }

  /** The path goes through the nodes of the search. */
  ghost predicate Through<V>(path: seq<PStep<V>>, nodes: seq<Placed<V>>, key: int) {
    |path| <= |nodes| && forall i :: 0 <= i < |path| ==> HasStep(nodes[i], key) && path[i] == StepOf(nodes[i], key)
  }

  /** A search has come to `t` after `nodes`, and holds the latches from `k` on. */
  ghost predicate OnWay<V>(tree: Placed<V>, key: int, op: Operation, lim: Limits, path: seq<PStep<V>>,
                           nodes: seq<Placed<V>>, t: Placed<V>,
                           k: nat, rootLatched: bool, queue: seq<int>) {
    && |nodes| == |path| && nodes + SearchNodes(t, key) == SearchNodes(tree, key) && Through(path, nodes, key)
    && LatchRule(nodes + [t], op, lim, k, rootLatched) && Queued(queue, path, k)
  }

  /** The pages waiting to be released. */
  ghost predicate Queued<V>(queue: seq<int>, path: seq<PStep<V>>, k: nat) {
    k <= |path| && |queue| == |path| - k && forall i :: 0 <= i < |queue| ==> queue[i] == path[k + i].id
  }

  lemma WayStarts<V>(tree: Placed<V>, key: int, op: Operation, lim: Limits, rootLatched: bool)
    requires rootLatched == !Safe(op, true, tree.PLeaf?, PSize(tree), lim)
    ensures OnWay(tree, key, op, lim, [], [], tree, 0, rootLatched, [])
  {
    assert [] + SearchNodes(tree, key) == SearchNodes(tree, key);
    assert ([] + [tree])[0] == tree;
  }

  lemma WaySteps<V>(tree: Placed<V>, key: int, op: Operation, lim: Limits, path: seq<PStep<V>>, nodes: seq<Placed<V>>,
                    t: Placed<V>,
                    k: nat, rootLatched: bool, queue: seq<int>)
    requires OnWay(tree, key, op, lim, path, nodes, t, k, rootLatched, queue) && HasStep(t, key)
    ensures var c, path', nodes' := t.children[ChildOf(t.keys, key)], path + [StepOf(t, key)], nodes + [t];
            if Safe(op, false, c.PLeaf?, PSize(c), lim)
            then OnWay(tree, key, op, lim, path', nodes', c, |path'|, false, [])
            else OnWay(tree, key, op, lim, path', nodes', c, k, rootLatched, queue + [t.id])
  {
    var c, path', nodes' := t.children[ChildOf(t.keys, key)], path + [StepOf(t, key)], nodes + [t];
    NodesOn(nodes, t, key);
    ThroughOn(path, nodes, t, key);
    RuleOn(nodes', c, op, lim, k, rootLatched);
    QueuedOn(queue, path, StepOf(t, key), k);
    hide SearchNodes, Through, LatchRule, Queued, StepOf, Safe;
  }

  lemma NodesOn<V>(nodes: seq<Placed<V>>, t: Placed<V>, key: int)
    requires HasStep(t, key)
    ensures (nodes + [t]) + SearchNodes(t.children[ChildOf(t.keys, key)], key) == nodes + SearchNodes(t, key)
  {
    assert SearchNodes(t, key) == [t] + SearchNodes(t.children[ChildOf(t.keys, key)], key);
    hide SearchNodes;
  }

  lemma ThroughOn<V>(path: seq<PStep<V>>, nodes: seq<Placed<V>>, t: Placed<V>, key: int)
    requires Through(path, nodes, key) && |path| == |nodes| && HasStep(t, key)
    ensures Through(path + [StepOf(t, key)], nodes + [t], key)
  {
    hide HasStep, StepOf;
  }

  lemma RuleOn<V>(nodes: seq<Placed<V>>, c: Placed<V>, op: Operation, lim: Limits, k: nat, rootLatched: bool)
    requires LatchRule(nodes, op, lim, k, rootLatched)
    ensures if Safe(op, false, c.PLeaf?, PSize(c), lim) then LatchRule(nodes + [c], op, lim, |nodes|, false)
            else LatchRule(nodes + [c], op, lim, k, rootLatched)
  {
    hide Safe, PSize;
    assert forall i :: 0 <= i < |nodes| ==> (nodes + [c])[i] == nodes[i];
    assert forall i :: 0 <= i < |nodes| ==> SafeNode(nodes + [c], i, op, lim) == SafeNode(nodes, i, op, lim);
    assert SafeNode(nodes + [c], |nodes|, op, lim) == Safe(op, false, c.PLeaf?, PSize(c), lim);
  }

  lemma QueuedOn<V>(queue: seq<int>, path: seq<PStep<V>>, s: PStep<V>, k: nat)
    requires Queued(queue, path, k)
    ensures Queued(queue + [s.id], path + [s], k) && Queued([], path + [s], |path| + 1)
  {
  }

  /** The latches an operation holds at its leaf. */
  ghost predicate LatchedAt<V>(tree: Placed<V>, key: int, op: Operation, lim: Limits, path: seq<PStep<V>>,
                               leaf: Placed<V>, k: nat, rootLatched: bool) {
    && |SearchNodes(tree, key)| == |path| + 1 && SearchNodes(tree, key)[|path|] == leaf
    && Through(path, SearchNodes(tree, key), key)
    && LatchRule(SearchNodes(tree, key), op, lim, k, rootLatched)
  }

  lemma WayEnds<V>(tree: Placed<V>, key: int, op: Operation, lim: Limits, path: seq<PStep<V>>, nodes: seq<Placed<V>>,
                   leaf: Placed<V>,
                   k: nat, rootLatched: bool, queue: seq<int>)
    requires OnWay(tree, key, op, lim, path, nodes, leaf, k, rootLatched, queue) && leaf.PLeaf?
    ensures LatchedAt(tree, key, op, lim, path, leaf, k, rootLatched) && Queued(queue, path, k)
  {
    assert SearchNodes(leaf, key) == [leaf];
    assert forall i :: 0 <= i < |nodes| ==> (nodes + [leaf])[i] == nodes[i];
  }

  // ----- pages along the path -----

  /** The pages of the path from step `k` on. */
  ghost function Steps<V>(path: seq<PStep<V>>, k: nat): set<int> {
    set i | k <= i < |path| :: path[i].id
  }

  /** The neighbour a node that is too small turns to: the left one if there is one. */
  ghost function Neighbour<V>(s: PStep<V>): int {
    if s.left != [] then s.left[|s.left| - 1].id else if s.right != [] then s.right[0].id else NO_PAGE
  }

  ghost function StepNeighbours<V>(path: seq<PStep<V>>, k: nat): set<int> {
    set i | k <= i < |path| :: Neighbour(path[i])
  }

  lemma StepsUp<V>(path: seq<PStep<V>>, k: nat)
    requires path != [] && k < |path|
    ensures var s, rest := path[|path| - 1], path[..|path| - 1];
            Steps(path, k) == Steps(rest, k) + {s.id}
            && StepNeighbours(path, k) == StepNeighbours(rest, k) + {Neighbour(s)}
  {
    var s, rest := path[|path| - 1], path[..|path| - 1];
    assert forall i :: 0 <= i < |rest| ==> rest[i] == path[i];
    assert path[|path| - 1].id in Steps(path, k) && Neighbour(path[|path| - 1]) in StepNeighbours(path, k);
    forall x ensures x in Steps(path, k) <==> x in Steps(rest, k) + {s.id} {
      if x in Steps(path, k) && x != s.id {
        var i :| k <= i < |path| && path[i].id == x;
        assert rest[i].id == x;
      }
      if x in Steps(rest, k) {
        var i :| k <= i < |rest| && rest[i].id == x;
        assert path[i].id == x;
      }
    }
    forall x ensures x in StepNeighbours(path, k) <==> x in StepNeighbours(rest, k) + {Neighbour(s)} {
      if x in StepNeighbours(path, k) && x != Neighbour(s) {
        var i :| k <= i < |path| && Neighbour(path[i]) == x;
        assert Neighbour(rest[i]) == x;
      }
      if x in StepNeighbours(rest, k) {
        var i :| k <= i < |rest| && Neighbour(rest[i]) == x;
        assert Neighbour(path[i]) == x;
      }
    }
  }

  // ----- what the latches are for -----

  /** The search's own view of the pages: its nodes from `k` on, and the neighbours of those below them. */
  ghost function LatchedIds<V>(tree: Placed<V>, key: int, k: nat): set<int> {
    set i | k <= i < |SearchNodes(tree, key)| :: SearchNodes(tree, key)[i].id
  }

  ghost function NeighbourIds<V>(tree: Placed<V>, key: int, k: nat): set<int> {
    set i | k <= i < |SearchNodes(tree, key)| && HasStep(SearchNodes(tree, key)[i], key) ::
      Neighbour(StepOf(SearchNodes(tree, key)[i], key))
  }

  lemma StepsAre<V>(path: seq<PStep<V>>, nodes: seq<Placed<V>>, key: int, k: nat, x: int)
    requires Through(path, nodes, key) && |nodes| == |path| + 1 && k <= |path|
    ensures x in Steps(path, k) || x == nodes[|path|].id <==> exists i :: k <= i < |nodes| && nodes[i].id == x
  {
    if x in Steps(path, k) {
      var i :| k <= i < |path| && path[i].id == x;
      assert nodes[i].id == x;
    }
    if i :| k <= i < |nodes| && nodes[i].id == x {
      assert i < |path| ==> path[i].id == x;
    }
  }

  lemma LatchedAre<V>(tree: Placed<V>, key: int, op: Operation, lim: Limits, path: seq<PStep<V>>, leaf: Placed<V>,
                      k: nat, rootLatched: bool)
    requires LatchedAt(tree, key, op, lim, path, leaf, k, rootLatched)
    ensures {leaf.id} + Steps(path, k) == LatchedIds(tree, key, k)
    ensures LatchRule(SearchNodes(tree, key), op, lim, k, rootLatched)
  {
    forall x ensures x in {leaf.id} + Steps(path, k) <==> x in LatchedIds(tree, key, k) {
      StepsAre(path, SearchNodes(tree, key), key, k, x);
    }
  }

  lemma NeighboursAre<V>(tree: Placed<V>, key: int, op: Operation, lim: Limits, path: seq<PStep<V>>, leaf: Placed<V>,
                         k: nat, rootLatched: bool)
    requires LatchedAt(tree, key, op, lim, path, leaf, k, rootLatched)
    ensures StepNeighbours(path, k) <= NeighbourIds(tree, key, k)
  {
    var nodes := SearchNodes(tree, key);
    forall x | x in StepNeighbours(path, k) ensures x in NeighbourIds(tree, key, k) {
      var i :| k <= i < |path| && Neighbour(path[i]) == x;
      assert HasStep(nodes[i], key) && Neighbour(StepOf(nodes[i], key)) == x;
    }
  }

  /** An insertion stops at step `k`, or goes up to the root. */
  ghost predicate InsertStops<V>(path: seq<PStep<V>>, k: nat, safe: bool, lim: Limits) {
    if safe then k < |path| && |path[k].keys| + 1 < lim.internalMax else k == 0
  }

  lemma InsertLatched<V>(tree: Placed<V>, key: int, lim: Limits, path: seq<PStep<V>>, leaf: Placed<V>, k: nat,
                         rootLatched: bool)
    requires LatchedAt(tree, key, INSERT, lim, path, leaf, k, rootLatched) && leaf.PLeaf?
             && |leaf.entries| + 1 >= lim.leafMax
    requires forall i :: 0 <= i < |path| ==> |path[i].left| + |path[i].right| == |path[i].keys|
    ensures InsertStops(path, k, !rootLatched, lim)
  {
    var nodes := SearchNodes(tree, key);
    assert nodes[|path|] == leaf;
    if !rootLatched {
      assert SafeNode(nodes, k, INSERT, lim);
      if k < |path| {
        assert path[k] == StepOf(nodes[k], key);
        assert |path[k].left| + |path[k].right| + 1 == |nodes[k].children|;
      }
    }
  }

  /** The node at the end of the path is large enough. */
  ghost predicate Enough<V>(path: seq<PStep<V>>, t: Placed<V>, lim: Limits) {
    if path == [] then (if t.PLeaf? then t.entries != [] else |t.children| >= 2)
    else PSize(t) >= if t.PLeaf? then LeafMin(lim) else NodeMin(lim)
  }

  /** A removal stops at step `k`, at the node itself, or goes up to the root. */
  ghost predicate RemoveStops<V>(path: seq<PStep<V>>, t: Placed<V>, k: nat, safe: bool, lim: Limits) {
    if !safe then k == 0
    else if k < |path| then |path[k].keys| + 1 > if k == 0 then 2 else NodeMin(lim)
    else k == |path| && Enough(path, t, lim)
  }

  lemma RemoveLatched<V>(tree: Placed<V>, key: int, lim: Limits, path: seq<PStep<V>>, leaf: Placed<V>, leaf': Placed<V>,
                         k: nat, rootLatched: bool)
    requires LatchedAt(tree, key, DELETE, lim, path, leaf, k, rootLatched) && leaf.PLeaf? && leaf'.PLeaf?
             && |leaf'.entries| + 1 == |leaf.entries|
    requires forall i :: 0 <= i < |path| ==> |path[i].left| + |path[i].right| == |path[i].keys|
    ensures RemoveStops(path, leaf', k, !rootLatched, lim)
  {
    var nodes := SearchNodes(tree, key);
    assert nodes[|path|] == leaf;
    if !rootLatched {
      assert SafeNode(nodes, k, DELETE, lim);
      if k < |path| {
        assert path[k] == StepOf(nodes[k], key);
        assert |path[k].left| + |path[k].right| + 1 == |nodes[k].children|;
      }
    }
  }
}
