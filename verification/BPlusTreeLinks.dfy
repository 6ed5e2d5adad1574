/**
 What the pages of an index hold besides the tree: no page that is not in it, and leaves linked from left to right.
 */
module BPlusTreeLinks {
  import opened SortedEntries
  import opened BPlusTreePages

  /** The page of every leaf and the page it names as the next one. */
  type Link = (int, int)

  ghost function Links<V>(t: Placed<V>): seq<Link> {
    match t
    case PLeaf(id, next, _) => [(id, next)]
    case PNode(_, _, cs) => AllLinks(cs)
  }

  ghost function AllLinks<V>(cs: seq<Placed<V>>): seq<Link> {
    if cs == [] then [] else Links(cs[0]) + AllLinks(cs[1..])
  }

  /** Every leaf names the one after it, the last one none. */
  ghost predicate Chained(ls: seq<Link>) {
    forall i :: 0 <= i < |ls| ==> Follows(ls, i)
  }

  ghost predicate Follows(ls: seq<Link>, i: nat)
    requires i < |ls|
  {
    ls[i].1 == if i + 1 < |ls| then ls[i + 1].0 else NO_PAGE
  }

  lemma {:induction false} AllLinksConcat<V>(a: seq<Placed<V>>, b: seq<Placed<V>>)
    ensures AllLinks(a + b) == AllLinks(a) + AllLinks(b)
  {
    if a == [] {
      assert a + b == b;
    } else {
      assert (a + b)[1..] == a[1..] + b;
      AllLinksConcat(a[1..], b);
    }
  }

  lemma OneLink<V>(t: Placed<V>)
    ensures AllLinks([t]) == Links(t)
  {
    assert [t][1..] == [];
    assert AllLinks([t][1..]) == [];
  }

  /** The links left and right of the end of a path. */
  ghost function Before<V>(path: seq<PStep<V>>): seq<Link>
    decreases |path|
  {
    if path == [] then [] else Before(path[..|path| - 1]) + AllLinks(path[|path| - 1].left)
  }

  ghost function After<V>(path: seq<PStep<V>>): seq<Link>
    decreases |path|
  {
    if path == [] then [] else AllLinks(path[|path| - 1].right) + After(path[..|path| - 1])
  }

  ghost function Surrounded<V>(path: seq<PStep<V>>, ls: seq<Link>): seq<Link> {
    Before(path) + ls + After(path)
  }

  lemma SurroundedStep<V>(path: seq<PStep<V>>, ls: seq<Link>)
    requires path != []
    ensures var s, rest := path[|path| - 1], path[..|path| - 1];
            Surrounded(path, ls) == Surrounded(rest, AllLinks(s.left) + ls + AllLinks(s.right))
  {
  }

  lemma ThreeLinks<V>(a: seq<Placed<V>>, b: seq<Placed<V>>, c: seq<Placed<V>>)
    ensures AllLinks(a + b + c) == AllLinks(a) + AllLinks(b) + AllLinks(c)
  {
    AllLinksConcat(a + b, c);
    AllLinksConcat(a, b);
  }

  lemma {:induction false} PlugLinks<V>(path: seq<PStep<V>>, t: Placed<V>)
    ensures Links(PPlug(path, t)) == Surrounded(path, Links(t))
    decreases |path|
  {
    if path != [] {
      var s, rest := path[|path| - 1], path[..|path| - 1];
      PlugLinks(rest, PFill(s, t));
      ThreeLinks(s.left, [t], s.right);
      OneLink(t);
      SurroundedStep(path, Links(t));
      hide Surrounded, AllLinks;
    }
  }

  lemma SplitChain(a: seq<Link>, c: seq<Link>, x: int, n: int, y: int)
    requires Chained(a + [(x, y)] + c)
    ensures Chained(a + [(x, n), (n, y)] + c)
  {
    var s, s' := a + [(x, y)] + c, a + [(x, n), (n, y)] + c;
    forall i | 0 <= i < |s'| ensures Follows(s', i) {
      if i < |a| {
        assert Follows(s, i) && s'[i] == s[i] && s'[i + 1].0 == s[i + 1].0;
      } else if i > |a| {
        assert Follows(s, i - 1) && s'[i].1 == s[i - 1].1 && (i + 1 < |s'| ==> s'[i + 1] == s[i]);
      }
    }
  }

  lemma MergeChain(a: seq<Link>, c: seq<Link>, x: int, n: int, m: int, y: int)
    requires Chained(a + [(x, n), (m, y)] + c)
    ensures Chained(a + [(x, y)] + c)
  {
    var s, s' := a + [(x, n), (m, y)] + c, a + [(x, y)] + c;
    forall i | 0 <= i < |s'| ensures Follows(s', i) {
      if i < |a| {
        assert Follows(s, i) && s'[i] == s[i] && s'[i + 1].0 == s[i + 1].0;
      } else {
        assert Follows(s, i + 1) && s'[i].1 == s[i + 1].1 && (i + 1 < |s'| ==> s'[i + 1] == s[i + 2]);
      }
    }
  }

  // ----- insertion -----

  /** The pages hold the tree and nothing else. */
  ghost predicate Held<V>(pages: Pages<V>, t: Placed<V>) {
    TreePlaced(pages, t) && pages.Keys == Ids(t) && Chained(Links(t))
  }

  /** The pages hold a tree in which a node was split, and nothing else. */
  ghost predicate HalvesHeld<V>(pages: Pages<V>, path: seq<PStep<V>>, l: Placed<V>, r: Placed<V>) {
    && HalvesPlaced(pages, path, l, r) && pages.Keys == PathIds(path) + Ids(l) + Ids(r)
    && Chained(Surrounded(path, Links(l) + Links(r)))
  }

  /** Other entries in a leaf. */
  lemma LeafHeld<V>(pages: Pages<V>, path: seq<PStep<V>>, leaf: Placed<V>, leaf': Placed<V>)
    requires Held(pages, PPlug(path, leaf)) && leaf.PLeaf? && leaf'.PLeaf? && leaf'.id == leaf.id
             && leaf'.next == leaf.next
    ensures Held(pages[leaf.id := LeafPage(ParentOf(path), leaf'.next, leaf'.entries)], PPlug(path, leaf'))
  {
    LeafPlaced(pages, path, leaf, leaf');
    LeafPlacedDistinct(path, leaf, leaf');
    PlugIds(path, leaf);
    PlugLinks(path, leaf);
    PlugLinks(path, leaf');
    assert leaf.id in pages.Keys;
    hide TreePlaced, PPlug, Surrounded, Distinct, DistinctPath;
  }

  lemma LeafHalvesHeld<V>(pages: Pages<V>, path: seq<PStep<V>>, leaf: Placed<V>, a: seq<Entry<V>>, b: seq<Entry<V>>,
                          n: int)
    requires Held(pages, PPlug(path, leaf)) && leaf.PLeaf? && n !in pages
    ensures HalvesHeld(pages[leaf.id := LeafPage(ParentOf(path), n, a)][n := LeafPage(ParentOf(path), leaf.next, b)],
                       path, PLeaf(leaf.id, n, a), PLeaf(n, leaf.next, b))
  {
    LeafHalvesPlaced(pages, path, leaf, a, b, n);
    PlugIds(path, leaf);
    PlugLinks(path, leaf);
    SplitChain(Before(path), After(path), leaf.id, n, leaf.next);
    assert [(leaf.id, n)] + [(n, leaf.next)] == [(leaf.id, n), (n, leaf.next)];
    hide TreePlaced, HalvesPlaced, PPlug, Distinct, DistinctPath;
  }

  lemma PairLinks<V>(l: Placed<V>, r: Placed<V>)
    ensures AllLinks([l, r]) == Links(l) + Links(r)
  {
    assert [l, r] == [l] + [r];
    AllLinksConcat([l], [r]);
    OneLink(l);
    OneLink(r);
  }

  lemma NewRootHeld<V>(pages: Pages<V>, l: Placed<V>, key: int, r: Placed<V>, n: int)
    requires HalvesHeld(pages, [], l, r) && n !in pages
    ensures l.id in pages && r.id in pages && l.id != r.id
    ensures var root := InternalPage(NO_PAGE, [key], [l.id, r.id]);
            Held(pages[n := root][l.id := pages[l.id].(parent := n)][r.id := pages[r.id].(parent := n)],
                 PNode(n, [key], [l, r]))
  {
    NewRootPlaced(pages, l, key, r, n);
    PairIds(l, r);
    PairLinks(l, r);
    assert Surrounded<V>([], Links(l) + Links(r)) == Links(l) + Links(r);
    hide TreePlaced, HalvesPlaced, AllIds, AllLinks;
  }

  lemma BothHeld<V>(pages: Pages<V>, path: seq<PStep<V>>, l: Placed<V>, r: Placed<V>, keys: seq<int>)
    requires HalvesHeld(pages, path, l, r) && path != []
    ensures var s, rest := path[|path| - 1], path[..|path| - 1];
            var cs := WithBoth(s, l, r);
            Held(pages[s.id := InternalPage(ParentOf(rest), keys, IdsOf(cs))], PPlug(rest, PNode(s.id, keys, cs)))
  {
    var s, rest := path[|path| - 1], path[..|path| - 1];
    var cs := WithBoth(s, l, r);
    BothPlaced(pages, path, l, r, keys);
    WithBothIds(s, l, r);
    PlugIds(rest, PNode(s.id, keys, cs));
    PlugLinks(rest, PNode(s.id, keys, cs));
    ThreeLinks(s.left, [l, r], s.right);
    PairLinks(l, r);
    SurroundedStep(path, Links(l) + Links(r));
    assert Ids(PNode(s.id, keys, cs)) == {s.id} + AllIds(cs);
    assert Links(PNode(s.id, keys, cs)) == AllLinks(cs);
    assert PathIds(path) == PathIds(rest) + StepIds(s);
    hide TreePlaced, HalvesPlaced, AllIds, AllLinks, Links, Ids, PPlug, Surrounded, DistinctPath, PathIds, Distinct;
  }

  lemma SplitKeys<V>(pages: Pages<V>, id: int, n: int, parent: int, kl: seq<int>, kr: seq<int>, cs: seq<Placed<V>>,
                     m: nat)
    requires m <= |cs| && RepAll(pages, cs, id) && id in pages
    ensures SplitPages(pages, id, n, parent, kl, kr, cs, m).Keys == pages.Keys + {n}
  {
    IdsInPages(pages, cs, id);
    AdoptKeys(pages[id := InternalPage(parent, kl, IdsOf(cs)[..m])]
                   [n := InternalPage(parent, kr, IdsOf(cs)[m..])], IdsOf(cs)[m..], n);
  }

  lemma {:induction false} AdoptKeys<V>(pages: Pages<V>, ids: seq<int>, parent: int)
    requires forall i :: 0 <= i < |ids| ==> ids[i] in pages
    ensures Adopt(pages, ids, parent).Keys == pages.Keys
  {
    if ids != [] {
      AdoptKeys(pages[ids[0] := pages[ids[0]].(parent := parent)], ids[1..], parent);
    }
  }

  lemma SplitHeld<V>(pages: Pages<V>, path: seq<PStep<V>>, l: Placed<V>, r: Placed<V>, kl: seq<int>, kr: seq<int>,
                     m: nat, n: int)
    requires HalvesHeld(pages, path, l, r) && path != [] && n !in pages && m <= |WithBoth(path[|path| - 1], l, r)|
    ensures var s, rest := path[|path| - 1], path[..|path| - 1];
            var cs := WithBoth(s, l, r);
            && RepAll(pages, cs, s.id)
            && HalvesHeld(SplitPages(pages, s.id, n, ParentOf(rest), kl, kr, cs, m), rest, PNode(s.id, kl, cs[..m]),
                          PNode(n, kr, cs[m..]))
  {
    var s, rest := path[|path| - 1], path[..|path| - 1];
    var cs := WithBoth(s, l, r);
    SplitPlaced(pages, path, l, r, kl, kr, m, n);
    assert PathIds(path) == PathIds(rest) + StepIds(s);
    SplitKeys(pages, s.id, n, ParentOf(rest), kl, kr, cs, m);
    WithBothIds(s, l, r);
    Halve(cs, m);
    AllIdsConcat(cs[..m], cs[m..]);
    AllLinksConcat(cs[..m], cs[m..]);
    ThreeLinks(s.left, [l, r], s.right);
    PairLinks(l, r);
    SurroundedStep(path, Links(l) + Links(r));
    assert Ids(PNode(s.id, kl, cs[..m])) == {s.id} + AllIds(cs[..m])
           && Ids(PNode(n, kr, cs[m..])) == {n} + AllIds(cs[m..]);
    assert Links(PNode(s.id, kl, cs[..m])) == AllLinks(cs[..m]) && Links(PNode(n, kr, cs[m..])) == AllLinks(cs[m..]);
    hide HalvesPlaced, AllIds, AllLinks, Links, Ids, Surrounded, PathIds, SplitPages, Rep, RepAll;
  }
}
