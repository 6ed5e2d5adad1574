/** The moves between neighbours that a removal makes, on pages and in the tree. */
module BPlusTreeShifts {
  import opened BPlusTree
  import opened BPlusTreePages
  import opened BPlusTreeLinks
  import opened BPlusTreeLatches
  import opened BPlusTreeMoves

  // ----- in the tree -----

  ghost predicate Alike<V>(a: Placed<V>, b: Placed<V>) {
    || (a.PLeaf? && b.PLeaf?)
    || (a.PNode? && b.PNode? && |a.children| == |a.keys| + 1 && |b.children| == |b.keys| + 1)
  }

  ghost function MoveRight<V>(a: Placed<V>, key: int, b: Placed<V>): (Placed<V>, int, Placed<V>)
    requires Alike(a, b) && PSize(a) > 1
  {
    var n := PSize(a) - 1;
    if a.PLeaf? then
      (PLeaf(a.id, a.next, a.entries[..n]), a.entries[n].0, PLeaf(b.id, b.next, [a.entries[n]] + b.entries))
    else
      (PNode(a.id, a.keys[..n - 1], a.children[..n]), a.keys[n - 1],
       PNode(b.id, [key] + b.keys, [a.children[n]] + b.children))
  }

  ghost function MoveLeft<V>(a: Placed<V>, key: int, b: Placed<V>): (Placed<V>, int, Placed<V>)
    requires Alike(a, b) && PSize(b) > 1
  {
    if a.PLeaf? then
      (PLeaf(a.id, a.next, a.entries + [b.entries[0]]), b.entries[1].0, PLeaf(b.id, b.next, b.entries[1..]))
    else
      (PNode(a.id, a.keys + [key], a.children + [b.children[0]]), b.keys[0], PNode(b.id, b.keys[1..], b.children[1..]))
  }

  ghost function Join<V>(a: Placed<V>, key: int, b: Placed<V>): Placed<V>
    requires Alike(a, b)
  {
    if a.PLeaf? then PLeaf(a.id, b.next, a.entries + b.entries)
    else PNode(a.id, a.keys + [key] + b.keys, a.children + b.children)
  }

  ghost function Emptied<V>(b: Placed<V>): Placed<V> {
    if b.PLeaf? then PLeaf(b.id, b.next, []) else PNode(b.id, [], [])
  }

  lemma ShapedAlike<V>(a: Placed<V>, b: Placed<V>, h: nat)
    requires Shaped(Plain(a), h) && Shaped(Plain(b), h)
    ensures Alike(a, b) && PSize(a) == Size(Plain(a)) && PSize(b) == Size(Plain(b))
  {
  }

  lemma LastChild<V>(cs: seq<Placed<V>>)
    requires cs != []
    ensures var n := |cs| - 1;
            && PlainAll(cs[..n]) == PlainAll(cs)[..n] && IdsOf(cs[..n]) == IdsOf(cs)[..n]
            && PlainAll(cs)[n] == Plain(cs[n]) && IdsOf(cs)[n] == cs[n].id && cs == cs[..n] + [cs[n]]
  {
    CutNames(cs, |cs| - 1);
    PlainAt(cs, |cs| - 1);
  }

  lemma FirstChild<V>(cs: seq<Placed<V>>)
    requires cs != []
    ensures PlainAll(cs[1..]) == PlainAll(cs)[1..] && IdsOf(cs[1..]) == IdsOf(cs)[1..]
    ensures PlainAll(cs)[0] == Plain(cs[0]) && IdsOf(cs)[0] == cs[0].id && cs == [cs[0]] + cs[1..]
  {
    CutNames(cs, 1);
    PlainAt(cs, 0);
  }

  lemma InFront<V>(c: Placed<V>, cs: seq<Placed<V>>)
    ensures PlainAll([c] + cs) == [Plain(c)] + PlainAll(cs) && IdsOf([c] + cs) == [c.id] + IdsOf(cs)
  {
    PlainConcat([c], cs);
    PlainOne(c);
  }

  lemma AtEnd<V>(cs: seq<Placed<V>>, c: Placed<V>)
    ensures PlainAll(cs + [c]) == PlainAll(cs) + [Plain(c)] && IdsOf(cs + [c]) == IdsOf(cs) + [c.id]
  {
    PlainConcat(cs, [c]);
    PlainOne(c);
  }

  lemma PlainRight<V>(a: Placed<V>, key: int, b: Placed<V>, h: nat)
    requires Shaped(Plain(a), h) && Shaped(Plain(b), h) && Size(Plain(a)) > 1
    ensures Alike(a, b) && PSize(a) == Size(Plain(a))
    ensures var r := MoveRight(a, key, b); (Plain(r.0), r.1, Plain(r.2)) == ShiftRight(Plain(a), key, Plain(b), h)
  {
    ShapedAlike(a, b, h);
    if a.PNode? {
      LastChild(a.children);
      InFront(a.children[|a.children| - 1], b.children);
      hide PlainAll, IdsOf;
    }
  }

  lemma PlainLeft<V>(a: Placed<V>, key: int, b: Placed<V>, h: nat)
    requires Shaped(Plain(a), h) && Shaped(Plain(b), h) && Size(Plain(b)) > 1
    ensures Alike(a, b) && PSize(b) == Size(Plain(b))
    ensures var r := MoveLeft(a, key, b); (Plain(r.0), r.1, Plain(r.2)) == ShiftLeft(Plain(a), key, Plain(b), h)
  {
    ShapedAlike(a, b, h);
    if a.PNode? {
      FirstChild(b.children);
      AtEnd(a.children, b.children[0]);
      hide PlainAll, IdsOf;
    }
  }

  lemma PlainJoin<V>(a: Placed<V>, key: int, b: Placed<V>, h: nat)
    requires Shaped(Plain(a), h) && Shaped(Plain(b), h)
    ensures Alike(a, b) && Plain(Join(a, key, b)) == Coalesce(Plain(a), key, Plain(b), h)
  {
    ShapedAlike(a, b, h);
    if a.PNode? {
      PlainConcat(a.children, b.children);
      hide PlainAll, IdsOf;
    }
  }

  // ----- on pages -----

  /** Two pages of a kind. */
  ghost predicate Siblings<V>(pages: Pages<V>, i: int, j: int) {
    && i in pages && j in pages && i != j
    && match pages[i]
       case LeafPage(_, _, _) => pages[j].LeafPage?
       case InternalPage(_, ks, xs) =>
         && pages[j].InternalPage? && |xs| == |ks| + 1 && |pages[j].children| == |pages[j].keys| + 1
         && (forall n :: 0 <= n < |xs| ==> xs[n] in pages)
         && (forall n :: 0 <= n < |pages[j].children| ==> pages[j].children[n] in pages)
  }

  /** The key of the last item, and the one that will separate the pages when the first item is gone. */
  function LastKey<V>(p: PageNode<V>): int
    requires PageSize(p) > 1 && (p.InternalPage? ==> |p.children| == |p.keys| + 1)
  {
    if p.LeafPage? then p.entries[|p.entries| - 1].0 else p.keys[|p.keys| - 1]
  }

  function SecondKey<V>(p: PageNode<V>): int
    requires PageSize(p) > 1 && (p.InternalPage? ==> |p.children| == |p.keys| + 1)
  {
    if p.LeafPage? then p.entries[1].0 else p.keys[0]
  }

  /** The last item of page `i` goes to the front of page `j`; `key` is what separates them. */
  ghost function RightPages<V>(pages: Pages<V>, i: int, j: int, key: int): Pages<V>
    requires Siblings(pages, i, j) && PageSize(pages[i]) > 1
  {
    var a, b, n := pages[i], pages[j], PageSize(pages[i]) - 1;
    if a.LeafPage? then
      pages[i := LeafPage(a.parent, a.next, a.entries[..n])]
           [j := LeafPage(b.parent, b.next, [a.entries[n]] + b.entries)]
    else
      Adopt(pages[i := InternalPage(a.parent, a.keys[..n - 1], a.children[..n])]
                 [j := InternalPage(b.parent, [key] + b.keys, [a.children[n]] + b.children)], [a.children[n]], j)
  }

  /** The first item of page `j` goes to the end of page `i`. */
  ghost function LeftPages<V>(pages: Pages<V>, i: int, j: int, key: int): Pages<V>
    requires Siblings(pages, i, j) && PageSize(pages[j]) > 1
  {
    var a, b := pages[i], pages[j];
    if a.LeafPage? then
      pages[i := LeafPage(a.parent, a.next, a.entries + [b.entries[0]])]
           [j := LeafPage(b.parent, b.next, b.entries[1..])]
    else
      Adopt(pages[i := InternalPage(a.parent, a.keys + [key], a.children + [b.children[0]])]
                 [j := InternalPage(b.parent, b.keys[1..], b.children[1..])], [b.children[0]], i)
  }

  /** All items of page `j` go to the end of page `i`. */
  ghost function JoinPages<V>(pages: Pages<V>, i: int, j: int, key: int): Pages<V>
    requires Siblings(pages, i, j)
  {
    var a, b := pages[i], pages[j];
    if a.LeafPage? then
      pages[i := LeafPage(a.parent, b.next, a.entries + b.entries)][j := LeafPage(b.parent, b.next, [])]
    else
      Adopt(pages[i := InternalPage(a.parent, a.keys + [key] + b.keys, a.children + b.children)]
                 [j := InternalPage(b.parent, [], [])],
            b.children, i)
  }

  /** The pages of two nodes below `parent` changed, and now hold two others. */
  ghost predicate Becomes<V>(pages: Pages<V>, pages': Pages<V>, parent: int, a: Placed<V>, b: Placed<V>, a': Placed<V>,
                             b': Placed<V>) {
    && TwoNodes(pages', parent, a', b') && Untouched(pages, pages', Ids(a) + Ids(b)) && pages'.Keys == pages.Keys
    && Ids(a') + Ids(b') == Ids(a) + Ids(b) && a'.id == a.id && b'.id == b.id
  }

  lemma AreSiblings<V>(pages: Pages<V>, parent: int, a: Placed<V>, b: Placed<V>)
    requires TwoNodes(pages, parent, a, b) && Alike(a, b)
    ensures Siblings(pages, a.id, b.id) && PageSize(pages[a.id]) == PSize(a) && PageSize(pages[b.id]) == PSize(b)
    ensures pages[a.id] == PageOf(a, parent) && pages[b.id] == PageOf(b, parent)
  {
    OwnId(a);
    OwnId(b);
    if a.PNode? {
      NodeParts(pages, a, parent);
      NodeParts(pages, b, parent);
      IdsInPages(pages, a.children, a.id);
      IdsInPages(pages, b.children, b.id);
    }
  }

  ghost function PageOf<V>(t: Placed<V>, parent: int): PageNode<V> {
    if t.PLeaf? then LeafPage(parent, t.next, t.entries) else InternalPage(parent, t.keys, IdsOf(t.children))
  }

  lemma LeavesBecome<V>(pages: Pages<V>, parent: int, a: Placed<V>, b: Placed<V>, a': Placed<V>, b': Placed<V>)
    requires TwoNodes(pages, parent, a, b) && a.PLeaf? && b.PLeaf? && a'.PLeaf? && b'.PLeaf? && a'.id == a.id
             && b'.id == b.id
    ensures Becomes(pages, pages[a.id := PageOf(a', parent)][b.id := PageOf(b', parent)], parent, a, b, a', b')
  {
  }

  lemma ChildGoesRight<V>(pages: Pages<V>, parent: int, a: Placed<V>, key: int, b: Placed<V>)
    requires TwoNodes(pages, parent, a, b) && Alike(a, b) && PSize(a) > 1 && a.PNode? && Siblings(pages, a.id, b.id)
    requires pages[a.id] == PageOf(a, parent) && pages[b.id] == PageOf(b, parent) && PageSize(pages[a.id]) == PSize(a)
    ensures var r := MoveRight(a, key, b);
            Becomes(pages, RightPages(pages, a.id, b.id, key), parent, a, b, r.0, r.2)
            && Links(r.0) + Links(r.2) == Links(a) + Links(b)
  {
    var n := PSize(a) - 1;
    var kept, c := a.children[..n], a.children[n];
    LastChild(a.children);
    RightIsMove(pages, parent, a, key, b);
    LinksMove(kept, c, b.children);
    hide TwoNodes, Siblings, PlainAll, IdsOf, AllLinks, Adopt, Ids, Untouched, RightPages, MovedPages;
    ChildrenRight(pages, parent, a, b, a.keys[..n - 1], [key] + b.keys, kept, [c]);
  }

  lemma LinksMove<V>(kept: seq<Placed<V>>, c: Placed<V>, cs: seq<Placed<V>>)
    ensures AllLinks(kept) + AllLinks([c] + cs) == AllLinks(kept + [c]) + AllLinks(cs)
  {
    AllLinksConcat(kept, [c]);
    AllLinksConcat([c], cs);
    hide AllLinks;
  }

  lemma RightIsMove<V>(pages: Pages<V>, parent: int, a: Placed<V>, key: int, b: Placed<V>)
    requires Alike(a, b) && PSize(a) > 1 && a.PNode? && Siblings(pages, a.id, b.id)
    requires pages[a.id] == PageOf(a, parent) && pages[b.id] == PageOf(b, parent) && PageSize(pages[a.id]) == PSize(a)
    ensures var n := PSize(a) - 1;
            && (forall i :: 0 <= i < 1 ==> IdsOf([a.children[n]])[i] in pages)
            && RightPages(pages, a.id, b.id, key)
               == MovedPages(pages, parent, a.id, a.keys[..n - 1], IdsOf(a.children[..n]), b.id, [key] + b.keys,
                             IdsOf([a.children[n]] + b.children), IdsOf([a.children[n]]), b.id)
  {
    LastChild(a.children);
    InFront(a.children[PSize(a) - 1], b.children);
    PlainOne(a.children[PSize(a) - 1]);
    hide PlainAll, IdsOf, Adopt;
  }

  lemma ChildGoesLeft<V>(pages: Pages<V>, parent: int, a: Placed<V>, key: int, b: Placed<V>)
    requires TwoNodes(pages, parent, a, b) && Alike(a, b) && PSize(b) > 1 && a.PNode? && Siblings(pages, a.id, b.id)
    requires pages[a.id] == PageOf(a, parent) && pages[b.id] == PageOf(b, parent) && PageSize(pages[b.id]) == PSize(b)
    ensures var r := MoveLeft(a, key, b);
            Becomes(pages, LeftPages(pages, a.id, b.id, key), parent, a, b, r.0, r.2)
            && Links(r.0) + Links(r.2) == Links(a) + Links(b)
  {
    var kept, c := b.children[1..], b.children[0];
    FirstChild(b.children);
    AtEnd(a.children, c);
    PlainOne(c);
    AllLinksConcat([c], kept);
    AllLinksConcat(a.children, [c]);
    hide TwoNodes, Siblings, PlainAll, IdsOf, AllLinks, Adopt, Ids, Untouched;
    ChildrenLeft(pages, parent, a, b, a.keys + [key], b.keys[1..], [c], kept);
  }

  lemma GoesRight<V>(pages: Pages<V>, parent: int, a: Placed<V>, key: int, b: Placed<V>)
    requires TwoNodes(pages, parent, a, b) && Alike(a, b) && PSize(a) > 1
    ensures Siblings(pages, a.id, b.id) && PageSize(pages[a.id]) == PSize(a)
    ensures var r := MoveRight(a, key, b);
            Becomes(pages, RightPages(pages, a.id, b.id, key), parent, a, b, r.0, r.2)
            && Links(r.0) + Links(r.2) == Links(a) + Links(b)
  {
    AreSiblings(pages, parent, a, b);
    var r, n := MoveRight(a, key, b), PSize(a) - 1;
    if a.PLeaf? {
      LeavesBecome(pages, parent, a, b, r.0, r.2);
    } else {
      ChildGoesRight(pages, parent, a, key, b);
    }
  }

  lemma GoesLeft<V>(pages: Pages<V>, parent: int, a: Placed<V>, key: int, b: Placed<V>)
    requires TwoNodes(pages, parent, a, b) && Alike(a, b) && PSize(b) > 1
    ensures Siblings(pages, a.id, b.id) && PageSize(pages[b.id]) == PSize(b)
    ensures var r := MoveLeft(a, key, b);
            Becomes(pages, LeftPages(pages, a.id, b.id, key), parent, a, b, r.0, r.2)
            && Links(r.0) + Links(r.2) == Links(a) + Links(b)
  {
    AreSiblings(pages, parent, a, b);
    var r := MoveLeft(a, key, b);
    if a.PLeaf? {
      LeavesBecome(pages, parent, a, b, r.0, r.2);
    } else {
      ChildGoesLeft(pages, parent, a, key, b);
    }
  }

  lemma GoesAll<V>(pages: Pages<V>, parent: int, a: Placed<V>, key: int, b: Placed<V>)
    requires TwoNodes(pages, parent, a, b) && Alike(a, b)
    ensures Siblings(pages, a.id, b.id)
    ensures Becomes(pages, JoinPages(pages, a.id, b.id, key), parent, a, b, Join(a, key, b), Emptied(b))
            && LinksJoin(a, b, Join(a, key, b))
    ensures Ids(Emptied(b)) == {b.id}
  {
    AreSiblings(pages, parent, a, b);
    if a.PLeaf? {
      LeavesBecome(pages, parent, a, b, Join(a, key, b), Emptied(b));
    } else {
      PlainConcat(a.children, b.children);
      AllLinksConcat(a.children, b.children);
      assert b.children + [] == b.children && IdsOf<V>([]) == [];
      assert AllIds<V>([]) == {};
      hide TwoNodes, Siblings, PlainAll, IdsOf, AllLinks, Adopt;
      ChildrenLeft(pages, parent, a, b, a.keys + [key] + b.keys, [], b.children, []);
    }
  }

  // ----- contents -----

  lemma KeptPair<V>(pages: Pages<V>, i: int, a: PageNode<V>, j: int, b: PageNode<V>, moved: seq<int>, owner: int)
    requires forall n :: 0 <= n < |moved| ==> moved[n] in pages
    ensures Kept(pages, pages[i := a][j := b], {i, j})
    ensures Kept(pages, Adopt(pages[i := a][j := b], moved, owner), {i, j})
  {
    KeptAdopt(pages[i := a][j := b], moved, owner);
    KeptThen(pages, pages[i := a][j := b], Adopt(pages[i := a][j := b], moved, owner), {i, j}, {}, {i, j});
  }

  lemma KeptRight<V>(pages: Pages<V>, i: int, j: int, key: int)
    requires Siblings(pages, i, j) && PageSize(pages[i]) > 1
    ensures Kept(pages, RightPages(pages, i, j, key), {i, j})
  {
    var a, b, n := pages[i], pages[j], PageSize(pages[i]) - 1;
    if a.LeafPage? {
      KeptPair(pages, i, LeafPage(a.parent, a.next, a.entries[..n]), j,
               LeafPage(b.parent, b.next, [a.entries[n]] + b.entries), [], j);
    } else {
      KeptPair(pages, i, InternalPage(a.parent, a.keys[..n - 1], a.children[..n]),
               j, InternalPage(b.parent, [key] + b.keys, [a.children[n]] + b.children), [a.children[n]], j);
    }
  }

  lemma KeptLeft<V>(pages: Pages<V>, i: int, j: int, key: int)
    requires Siblings(pages, i, j) && PageSize(pages[j]) > 1
    ensures Kept(pages, LeftPages(pages, i, j, key), {i, j})
  {
    var a, b := pages[i], pages[j];
    if a.LeafPage? {
      KeptPair(pages, i, LeafPage(a.parent, a.next, a.entries + [b.entries[0]]), j,
               LeafPage(b.parent, b.next, b.entries[1..]), [], i);
    } else {
      KeptPair(pages, i, InternalPage(a.parent, a.keys + [key], a.children + [b.children[0]]),
               j, InternalPage(b.parent, b.keys[1..], b.children[1..]), [b.children[0]], i);
    }
  }

  lemma KeptJoin<V>(pages: Pages<V>, i: int, j: int, key: int)
    requires Siblings(pages, i, j)
    ensures Kept(pages, JoinPages(pages, i, j, key), {i, j})
  {
    var a, b := pages[i], pages[j];
    if a.LeafPage? {
      KeptPair(pages, i, LeafPage(a.parent, b.next, a.entries + b.entries), j, LeafPage(b.parent, b.next, []), [], i);
    } else {
      KeptPair(pages, i, InternalPage(a.parent, a.keys + [key] + b.keys, a.children + b.children), j,
               InternalPage(b.parent, [], []), b.children, i);
    }
  }
}
