/** What moving entries or children between two neighbours, or merging them, does to the pages of a tree. */
module BPlusTreeMoves {
  import opened Options
  import opened BPlusTreePages
  import opened BPlusTreeLinks

  /** The pages hold the tree and, apart from it, the pages `extra`, which no longer belong to it. */
  ghost predicate HeldBut<V>(pages: Pages<V>, t: Placed<V>, extra: set<int>) {
    TreePlaced(pages, t) && pages.Keys == Ids(t) + extra && Ids(t) !! extra && Chained(Links(t))
  }

  ghost predicate HeldOpt<V>(pages: Pages<V>, t: Option<Placed<V>>, extra: set<int>) {
    if t.None? then pages.Keys == extra else HeldBut(pages, t.value, extra)
  }

  lemma DropPages<V>(pages: Pages<V>, t: Placed<V>, extra: set<int>)
    requires HeldBut(pages, t, extra)
    ensures Held(pages - extra, t)
  {
    RepFrame(pages, pages - extra, t, NO_PAGE);
    assert (pages - extra).Keys == Ids(t);
    hide Rep, Ids, Links, Distinct, Chained;
  }

  // ----- a node and its place -----

  /** A node in a tree: what its pages and its surroundings are. */
  ghost predicate NodeAt<V>(pages: Pages<V>, rest: seq<PStep<V>>, id: int, keys: seq<int>, cs: seq<Placed<V>>) {
    && RepPath(pages, rest, id) && DistinctPath(rest) && RepAll(pages, cs, id) && DistinctAll(cs)
    && id !in AllIds(cs) && id !in PathIds(rest) && PathIds(rest) !! AllIds(cs)
    && id in pages && pages[id] == InternalPage(ParentOf(rest), keys, IdsOf(cs))
  }

  lemma NodeAtIff<V>(pages: Pages<V>, rest: seq<PStep<V>>, id: int, keys: seq<int>, cs: seq<Placed<V>>)
    ensures TreePlaced(pages, PPlug(rest, PNode(id, keys, cs))) <==> NodeAt(pages, rest, id, keys, cs)
  {
    var t := PNode(id, keys, cs);
    PlugRep(pages, rest, t);
    PlugIds(rest, t);
    RepNode(pages, id, keys, cs, ParentOf(rest));
    assert Ids(t) == {id} + AllIds(cs) && (Distinct(t) <==> id !in AllIds(cs) && DistinctAll(cs));
    hide Rep, RepAll, RepPath, DistinctPath, PathIds, PPlug, Ids, Distinct, AllIds, DistinctAll;
  }

  /** Two neighbours: `q` is the node without them. */
  ghost predicate PairAt<V>(pages: Pages<V>, rest: seq<PStep<V>>, q: PStep<V>, a: Placed<V>, b: Placed<V>) {
    && RepPath(pages, rest, q.id) && DistinctPath(rest) && DistinctStep(q) && PathIds(rest) !! StepIds(q)
    && RepAll(pages, q.left, q.id) && RepAll(pages, q.right, q.id)
    && Rep(pages, a, q.id) && Rep(pages, b, q.id) && Distinct(a) && Distinct(b) && Ids(a) !! Ids(b)
    && StepIds(q) !! Ids(a) && StepIds(q) !! Ids(b) && PathIds(rest) !! Ids(a) && PathIds(rest) !! Ids(b)
  }

  lemma DistinctBoth<V>(q: PStep<V>, a: Placed<V>, b: Placed<V>)
    ensures DistinctAll(WithBoth(q, a, b)) && q.id !in AllIds(WithBoth(q, a, b))
            <==> DistinctStep(q) && Distinct(a) && Distinct(b)
                 && Ids(a) !! Ids(b) && StepIds(q) !! Ids(a) && StepIds(q) !! Ids(b)
  {
    WithBothIds(q, a, b);
    PairIds(a, b);
    AllIdsConcat(q.left, [a, b]);
    DistinctConcat(q.left + [a, b], q.right);
    DistinctConcat(q.left, [a, b]);
    hide AllIds, Ids, DistinctAll, Distinct;
  }

  lemma RepBoth<V>(pages: Pages<V>, q: PStep<V>, a: Placed<V>, b: Placed<V>)
    ensures RepAll(pages, WithBoth(q, a, b), q.id)
            <==> RepAll(pages, q.left, q.id) && RepAll(pages, q.right, q.id)
                 && Rep(pages, a, q.id) && Rep(pages, b, q.id)
  {
    RepAllConcat(pages, q.left + [a, b], q.right, q.id);
    RepAllConcat(pages, q.left, [a, b], q.id);
    RepTwo(pages, a, b, q.id);
    hide Rep, RepAll;
  }

  lemma RepTwo<V>(pages: Pages<V>, a: Placed<V>, b: Placed<V>, parent: int)
    ensures RepAll(pages, [a, b], parent) <==> Rep(pages, a, parent) && Rep(pages, b, parent)
  {
    hide Rep;
    assert [a, b][0] == a && [a, b][1] == b;
  }

  lemma PairAtIff<V>(pages: Pages<V>, rest: seq<PStep<V>>, q: PStep<V>, keys: seq<int>, a: Placed<V>, b: Placed<V>)
    ensures NodeAt(pages, rest, q.id, keys, WithBoth(q, a, b))
            <==> PairAt(pages, rest, q, a, b) && q.id in pages
                 && pages[q.id] == InternalPage(ParentOf(rest), keys, IdsOf(WithBoth(q, a, b)))
  {
    DistinctBoth(q, a, b);
    RepBoth(pages, q, a, b);
    WithBothIds(q, a, b);
    hide Rep, RepAll, RepPath, DistinctPath, PathIds, Ids, Distinct, AllIds, DistinctAll, WithBoth, IdsOf, DistinctStep;
  }

  /** One child in place of the two. */
  lemma OneAtIff<V>(pages: Pages<V>, rest: seq<PStep<V>>, q: PStep<V>, keys: seq<int>, c: Placed<V>)
    requires RepPath(pages, rest, q.id) && DistinctPath(rest) && DistinctStep(q) && PathIds(rest) !! StepIds(q)
    requires RepAll(pages, q.left, q.id) && RepAll(pages, q.right, q.id)
    requires Rep(pages, c, q.id) && Distinct(c) && StepIds(q) !! Ids(c) && PathIds(rest) !! Ids(c)
    requires q.id in pages && pages[q.id] == InternalPage(ParentOf(rest), keys, IdsOf(q.left) + [c.id] + IdsOf(q.right))
    ensures TreePlaced(pages, PPlug(rest, PNode(q.id, keys, q.left + [c] + q.right)))
  {
    var s := PStep(q.id, keys, q.left, q.right);
    FillRep(pages, s, c, ParentOf(rest));
    FillIds(s, c);
    PlugRep(pages, rest, PFill(s, c));
    PlugIds(rest, PFill(s, c));
    hide Rep, RepAll, RepPath, DistinctPath, PathIds, Ids, Distinct, AllIds, DistinctAll, PPlug;
  }

  // ----- two neighbours change -----

  /** Only the pages of `ids` differ. */
  ghost predicate Untouched<V>(pages: Pages<V>, pages': Pages<V>, ids: set<int>) {
    forall n :: n in pages && n !in ids ==> n in pages' && pages'[n] == pages[n]
  }

  /** The neighbours become `a` and `b` on the same pages, and nothing else changes but the page above them. */
  lemma PairBecomes<V>(pages: Pages<V>, pages': Pages<V>, rest: seq<PStep<V>>, q: PStep<V>, a: Placed<V>, b: Placed<V>,
                       a': Placed<V>, b': Placed<V>)
    requires PairAt(pages, rest, q, a, b) && Untouched(pages, pages', {q.id} + (Ids(a) + Ids(b)))
    requires TwoNodes(pages', q.id, a', b') && Ids(a') + Ids(b') <= Ids(a) + Ids(b)
    ensures PairAt(pages', rest, q, a', b')
  {
    assert SameOn(pages, pages', PathIds(rest)) && SameOn(pages, pages', AllIds(q.left))
           && SameOn(pages, pages', AllIds(q.right));
    hide Rep, RepAll, RepPath, DistinctPath, PathIds, Ids, Distinct, AllIds, DistinctAll, SameOn, DistinctStep,
         Untouched;
    PathFrame(pages, pages', rest, q.id);
    RepAllFrame(pages, pages', q.left, q.id);
    RepAllFrame(pages, pages', q.right, q.id);
  }

  /** Changing the page above two nodes leaves them as they are. */
  lemma ParentUpdated<V>(pages: Pages<V>, a: Placed<V>, b: Placed<V>, p: int, page: PageNode<V>)
    requires TwoNodes(pages, p, a, b) && p !in Ids(a) && p !in Ids(b)
    ensures TwoNodes(pages[p := page], p, a, b)
  {
    RepFrame(pages, pages[p := page], a, p);
    RepFrame(pages, pages[p := page], b, p);
  }

  lemma TreeOf<V>(rest: seq<PStep<V>>, id: int, keys: seq<int>, cs: seq<Placed<V>>)
    ensures Ids(PPlug(rest, PNode(id, keys, cs))) == PathIds(rest) + {id} + AllIds(cs)
    ensures Links(PPlug(rest, PNode(id, keys, cs))) == Surrounded(rest, AllLinks(cs))
  {
    PlugIds(rest, PNode(id, keys, cs));
    PlugLinks(rest, PNode(id, keys, cs));
    hide PPlug, Surrounded, PathIds, Distinct, DistinctPath;
  }

  lemma BothOf<V>(q: PStep<V>, a: Placed<V>, b: Placed<V>)
    ensures {q.id} + AllIds(WithBoth(q, a, b)) == StepIds(q) + (Ids(a) + Ids(b))
    ensures AllLinks(WithBoth(q, a, b)) == AllLinks(q.left) + (Links(a) + Links(b)) + AllLinks(q.right)
  {
    WithBothIds(q, a, b);
    ThreeLinks(q.left, [a, b], q.right);
    PairLinks(a, b);
    hide AllIds, AllLinks, Ids, Links;
  }

  /** The two neighbours have changed and keep their places. */
  lemma PairPlaced<V>(pages: Pages<V>, pages1: Pages<V>, rest: seq<PStep<V>>, q: PStep<V>, a: Placed<V>, b: Placed<V>,
                      a': Placed<V>, b': Placed<V>,
                      keys': seq<int>)
    requires TreePlaced(pages, PPlug(rest, PNode(q.id, q.keys, WithBoth(q, a, b))))
    requires TwoNodes(pages1, q.id, a', b') && Untouched(pages, pages1, Ids(a) + Ids(b))
             && Ids(a') + Ids(b') == Ids(a) + Ids(b)
    ensures q.id in pages
    ensures TreePlaced(pages1[q.id := InternalPage(ParentOf(rest), keys', IdsOf(WithBoth(q, a', b')))],
                       PPlug(rest, PNode(q.id, keys', WithBoth(q, a', b'))))
  {
    PairTaken(pages, rest, q, a, b);
    var page: PageNode<V> := InternalPage(ParentOf(rest), keys', IdsOf(WithBoth(q, a', b')));
    hide *;
    ParentUpdated(pages1, a', b', q.id, page);
    UntouchedBut(pages, pages1, Ids(a) + Ids(b), q.id, page);
    PairBecomes(pages, pages1[q.id := page], rest, q, a, b, a', b');
    PairPut(pages1[q.id := page], rest, q, keys', a', b');
  }

  lemma PairTaken<V>(pages: Pages<V>, rest: seq<PStep<V>>, q: PStep<V>, a: Placed<V>, b: Placed<V>)
    requires TreePlaced(pages, PPlug(rest, PNode(q.id, q.keys, WithBoth(q, a, b))))
    ensures PairAt(pages, rest, q, a, b) && q.id !in Ids(a) + Ids(b) && q.id in pages
    ensures pages[q.id] == InternalPage(ParentOf(rest), q.keys, IdsOf(WithBoth(q, a, b)))
  {
    NodeAtIff(pages, rest, q.id, q.keys, WithBoth(q, a, b));
    PairAtIff(pages, rest, q, q.keys, a, b);
    hide TreePlaced, WithBoth, NodeAt;
    assert q.id in StepIds(q);
  }

  lemma PairPut<V>(pages: Pages<V>, rest: seq<PStep<V>>, q: PStep<V>, keys: seq<int>, a: Placed<V>, b: Placed<V>)
    requires PairAt(pages, rest, q, a, b) && q.id in pages
             && pages[q.id] == InternalPage(ParentOf(rest), keys, IdsOf(WithBoth(q, a, b)))
    ensures TreePlaced(pages, PPlug(rest, PNode(q.id, keys, WithBoth(q, a, b))))
  {
    NodeAtIff(pages, rest, q.id, keys, WithBoth(q, a, b));
    PairAtIff(pages, rest, q, keys, a, b);
    hide *;
  }

  lemma UntouchedBut<V>(pages: Pages<V>, pages1: Pages<V>, ids: set<int>, p: int, page: PageNode<V>)
    requires Untouched(pages, pages1, ids)
    ensures Untouched(pages, pages1[p := page], {p} + ids)
  {
  }

  lemma PairSame<V>(rest: seq<PStep<V>>, q: PStep<V>, a: Placed<V>, b: Placed<V>, a': Placed<V>, b': Placed<V>,
                    keys': seq<int>)
    requires Ids(a') + Ids(b') == Ids(a) + Ids(b) && Links(a') + Links(b') == Links(a) + Links(b)
    ensures var t, t' := PPlug(rest, PNode(q.id, q.keys, WithBoth(q, a, b))),
            PPlug(rest, PNode(q.id, keys', WithBoth(q, a', b')));
            Ids(t') == Ids(t) && Links(t') == Links(t)
  {
    hide *;
    TreeOf(rest, q.id, q.keys, WithBoth(q, a, b));
    TreeOf(rest, q.id, keys', WithBoth(q, a', b'));
    BothOf(q, a, b);
    BothOf(q, a', b');
    var x, y, z, u := PathIds(rest), {q.id}, AllIds(WithBoth(q, a, b)), AllIds(WithBoth(q, a', b'));
    assert x + y + z == x + (y + z) && x + y + u == x + (y + u);
  }

  lemma PairHeld<V>(pages: Pages<V>, pages1: Pages<V>, rest: seq<PStep<V>>, q: PStep<V>, a: Placed<V>, b: Placed<V>,
                    a': Placed<V>, b': Placed<V>,
                    keys': seq<int>, extra: set<int>)
    requires HeldBut(pages, PPlug(rest, PNode(q.id, q.keys, WithBoth(q, a, b))), extra)
    requires TwoNodes(pages1, q.id, a', b') && Untouched(pages, pages1, Ids(a) + Ids(b)) && pages1.Keys == pages.Keys
    requires Ids(a') + Ids(b') == Ids(a) + Ids(b) && Links(a') + Links(b') == Links(a) + Links(b)
    ensures HeldBut(pages1[q.id := InternalPage(ParentOf(rest), keys', IdsOf(WithBoth(q, a', b')))],
                    PPlug(rest, PNode(q.id, keys', WithBoth(q, a', b'))), extra)
  {
    hide TreePlaced, TwoNodes, Untouched, WithBoth, Ids, Links, PPlug, IdsOf, Chained;
    PairPlaced(pages, pages1, rest, q, a, b, a', b', keys');
    PairSame(rest, q, a, b, a', b', keys');
  }

  // ----- two neighbours become one -----

  lemma OneOf<V>(q: PStep<V>, c: Placed<V>)
    ensures {q.id} + AllIds(q.left + [c] + q.right) == StepIds(q) + Ids(c)
    ensures AllLinks(q.left + [c] + q.right) == AllLinks(q.left) + Links(c) + AllLinks(q.right)
  {
    ThreeLinks(q.left, [c], q.right);
    OneLink(c);
    AllIdsConcat(q.left + [c], q.right);
    AllIdsConcat(q.left, [c]);
    OneId(c);
    hide AllIds, AllLinks, Ids, Links;
  }

  /** The links of the neighbours join, or the first leaf names the one the second named. */
  ghost predicate LinksJoin<V>(a: Placed<V>, b: Placed<V>, c: Placed<V>) {
    Links(c) == Links(a) + Links(b) || (a.PLeaf? && b.PLeaf? && Links(c) == [(a.id, b.next)])
  }

  lemma JoinedChain<V>(rest: seq<PStep<V>>, q: PStep<V>, a: Placed<V>, b: Placed<V>, c: Placed<V>)
    requires LinksJoin(a, b, c)
             && Chained(Surrounded(rest, AllLinks(q.left) + (Links(a) + Links(b)) + AllLinks(q.right)))
    ensures Chained(Surrounded(rest, AllLinks(q.left) + Links(c) + AllLinks(q.right)))
  {
    if Links(c) != Links(a) + Links(b) {
      var x, y := Before(rest) + AllLinks(q.left), AllLinks(q.right) + After(rest);
      Regrouped(Before(rest), AllLinks(q.left), Links(a) + Links(b), AllLinks(q.right), After(rest));
      Regrouped(Before(rest), AllLinks(q.left), Links(c), AllLinks(q.right), After(rest));
      assert Links(a) + Links(b) == [(a.id, a.next), (b.id, b.next)];
      MergeChain(x, y, a.id, a.next, b.id, b.next);
    }
  }

  lemma Regrouped(a: seq<Link>, x: seq<Link>, e: seq<Link>, y: seq<Link>, c: seq<Link>)
    ensures a + (x + e + y) + c == (a + x) + e + (y + c)
  {
  }

  lemma MergedPlaced<V>(pages: Pages<V>, pages1: Pages<V>, rest: seq<PStep<V>>, q: PStep<V>, a: Placed<V>, b: Placed<V>,
                        c: Placed<V>, d: Placed<V>,
                        keys': seq<int>)
    requires TreePlaced(pages, PPlug(rest, PNode(q.id, q.keys, WithBoth(q, a, b))))
    requires TwoNodes(pages1, q.id, c, d) && Untouched(pages, pages1, Ids(a) + Ids(b))
             && Ids(c) + Ids(d) == Ids(a) + Ids(b)
    ensures q.id in pages && PathIds(rest) + StepIds(q) !! Ids(d) && Ids(c) !! Ids(d)
    ensures TreePlaced(pages1[q.id := InternalPage(ParentOf(rest), keys', IdsOf(q.left) + [c.id] + IdsOf(q.right))],
                       PPlug(rest, PNode(q.id, keys', q.left + [c] + q.right)))
  {
    PairTaken(pages, rest, q, a, b);
    var page: PageNode<V> := InternalPage(ParentOf(rest), keys', IdsOf(q.left) + [c.id] + IdsOf(q.right));
    hide *;
    ParentUpdated(pages1, c, d, q.id, page);
    UntouchedBut(pages, pages1, Ids(a) + Ids(b), q.id, page);
    PairBecomes(pages, pages1[q.id := page], rest, q, a, b, c, d);
    OnePut(pages1[q.id := page], rest, q, keys', c, d);
  }

  lemma OnePut<V>(pages: Pages<V>, rest: seq<PStep<V>>, q: PStep<V>, keys: seq<int>, c: Placed<V>, d: Placed<V>)
    requires PairAt(pages, rest, q, c, d)
    requires q.id in pages && pages[q.id] == InternalPage(ParentOf(rest), keys, IdsOf(q.left) + [c.id] + IdsOf(q.right))
    ensures TreePlaced(pages, PPlug(rest, PNode(q.id, keys, q.left + [c] + q.right)))
    ensures PathIds(rest) + StepIds(q) !! Ids(d) && Ids(c) !! Ids(d)
  {
    hide Rep, RepAll, RepPath, DistinctPath, PathIds, Ids, Distinct, AllIds, DistinctAll, PPlug, StepIds, DistinctStep,
         IdsOf;
    OneAtIff(pages, rest, q, keys, c);
  }

  lemma MergedSets<V>(rest: seq<PStep<V>>, q: PStep<V>, a: Placed<V>, b: Placed<V>, c: Placed<V>, d: Placed<V>,
                      keys': seq<int>)
    requires Ids(c) + Ids(d) == Ids(a) + Ids(b) && PathIds(rest) + StepIds(q) !! Ids(d) && Ids(c) !! Ids(d)
             && LinksJoin(a, b, c)
    ensures var t, t' := PPlug(rest, PNode(q.id, q.keys, WithBoth(q, a, b))),
            PPlug(rest, PNode(q.id, keys', q.left + [c] + q.right));
            Ids(t) == Ids(t') + Ids(d) && Ids(t') !! Ids(d) && (Chained(Links(t)) ==> Chained(Links(t')))
  {
    hide *;
    TreeOf(rest, q.id, q.keys, WithBoth(q, a, b));
    TreeOf(rest, q.id, keys', q.left + [c] + q.right);
    BothOf(q, a, b);
    OneOf(q, c);
    var x, y, z, u := PathIds(rest), {q.id}, AllIds(WithBoth(q, a, b)), AllIds(q.left + [c] + q.right);
    assert x + y + z == x + (y + z) && x + y + u == x + (y + u);
    if Chained(Links(PPlug(rest, PNode(q.id, q.keys, WithBoth(q, a, b))))) { JoinedChain(rest, q, a, b, c); }
  }

  lemma MergedHeld<V>(pages: Pages<V>, pages1: Pages<V>, rest: seq<PStep<V>>, q: PStep<V>, a: Placed<V>, b: Placed<V>,
                      c: Placed<V>, d: Placed<V>,
                      keys': seq<int>, extra: set<int>)
    requires HeldBut(pages, PPlug(rest, PNode(q.id, q.keys, WithBoth(q, a, b))), extra)
    requires TwoNodes(pages1, q.id, c, d) && Untouched(pages, pages1, Ids(a) + Ids(b)) && pages1.Keys == pages.Keys
    requires Ids(c) + Ids(d) == Ids(a) + Ids(b) && LinksJoin(a, b, c)
    ensures HeldBut(pages1[q.id := InternalPage(ParentOf(rest), keys', IdsOf(q.left) + [c.id] + IdsOf(q.right))],
                    PPlug(rest, PNode(q.id, keys', q.left + [c] + q.right)), extra + Ids(d))
  {
    hide TreePlaced, TwoNodes, Untouched, WithBoth, Ids, Links, PPlug, IdsOf, Chained, LinksJoin, StepIds, PathIds;
    MergedPlaced(pages, pages1, rest, q, a, b, c, d, keys');
    MergedSets(rest, q, a, b, c, d, keys');
  }

  // ----- children change their parent -----

  /** Two nodes below the same parent, on pages of their own. */
  ghost predicate TwoNodes<V>(pages: Pages<V>, parent: int, a: Placed<V>, b: Placed<V>) {
    && Rep(pages, a, parent) && Rep(pages, b, parent) && Distinct(a) && Distinct(b) && Ids(a) !! Ids(b)
  }

  lemma NodeParts<V>(pages: Pages<V>, a: Placed<V>, parent: int)
    requires Rep(pages, a, parent) && Distinct(a) && a.PNode?
    ensures RepAll(pages, a.children, a.id) && DistinctAll(a.children) && a.id !in AllIds(a.children)
            && Ids(a) == {a.id} + AllIds(a.children)
    ensures a.id in pages && pages[a.id] == InternalPage(parent, a.keys, IdsOf(a.children))
  {
  }

  /** The children `c` go from one of two nodes to the other; each then has the children given for it. */
  lemma NodesMade<V>(pages: Pages<V>, parent: int, i: int, ks: seq<int>, cs: seq<Placed<V>>, j: int, ks': seq<int>,
                     cs': seq<Placed<V>>)
    requires RepAll(pages, cs, i) && RepAll(pages, cs', j) && DistinctAll(cs) && DistinctAll(cs')
             && AllIds(cs) !! AllIds(cs') && i != j
    requires i !in AllIds(cs) && i !in AllIds(cs') && j !in AllIds(cs) && j !in AllIds(cs')
    requires i in pages && pages[i] == InternalPage(parent, ks, IdsOf(cs))
    requires j in pages && pages[j] == InternalPage(parent, ks', IdsOf(cs'))
    ensures TwoNodes(pages, parent, PNode(i, ks, cs), PNode(j, ks', cs'))
    ensures Ids(PNode(i, ks, cs)) + Ids(PNode(j, ks', cs')) == {i, j} + AllIds(cs) + AllIds(cs')
  {
    RepNode(pages, i, ks, cs, parent);
    RepNode(pages, j, ks', cs', parent);
    assert Ids(PNode(i, ks, cs)) == {i} + AllIds(cs) && Ids(PNode(j, ks', cs')) == {j} + AllIds(cs');
    assert Distinct(PNode(i, ks, cs)) && Distinct(PNode(j, ks', cs'));
    hide Rep, RepAll, Ids, AllIds, Distinct, DistinctAll;
  }

  ghost function MovedPages<V>(pages: Pages<V>, parent: int, i: int, ks: seq<int>, xs: seq<int>, j: int, ks': seq<int>,
                               xs': seq<int>, moved: seq<int>, owner: int): Pages<V>
    requires forall n :: 0 <= n < |moved| ==> moved[n] in pages
  {
    Adopt(pages[i := InternalPage(parent, ks, xs)][j := InternalPage(parent, ks', xs')], moved, owner)
  }

  /** Children on pages of their own. */
  ghost predicate Apart<V>(i: int, j: int, si: seq<Placed<V>>, moved: seq<Placed<V>>, sj: seq<Placed<V>>) {
    && DistinctAll(si) && DistinctAll(moved) && DistinctAll(sj) && i != j
    && AllIds(si) !! AllIds(moved) && AllIds(si) !! AllIds(sj) && AllIds(moved) !! AllIds(sj)
    && i !in AllIds(si) + AllIds(moved) + AllIds(sj) && j !in AllIds(si) + AllIds(moved) + AllIds(sj)
  }

  /** `moved` go from one of two nodes to the other, `si` and `sj` stay. */
  lemma ChildrenMove<V>(pages: Pages<V>, parent: int, i: int, ks: seq<int>, xs: seq<int>, j: int, ks': seq<int>,
                        xs': seq<int>,
                        si: seq<Placed<V>>, moved: seq<Placed<V>>, sj: seq<Placed<V>>, giver: int, owner: int)
    requires RepAll(pages, si, i) && RepAll(pages, sj, j) && RepAll(pages, moved, giver) && Apart(i, j, si, moved, sj)
             && i in pages && j in pages
    ensures forall n :: 0 <= n < |moved| ==> IdsOf(moved)[n] in pages
    ensures var pages' := MovedPages(pages, parent, i, ks, xs, j, ks', xs', IdsOf(moved), owner);
            && RepAll(pages', si, i) && RepAll(pages', sj, j) && RepAll(pages', moved, owner)
            && pages'.Keys == pages.Keys
            && pages'[i] == InternalPage(parent, ks, xs) && pages'[j] == InternalPage(parent, ks', xs')
            && Untouched(pages, pages', {i, j} + AllIds(moved))
  {
    IdsInPages(pages, moved, giver);
    var pages1 := pages[i := InternalPage(parent, ks, xs)][j := InternalPage(parent, ks', xs')];
    assert Untouched(pages, pages1, {i, j}) && pages1.Keys == pages.Keys;
    hide Rep, RepAll, AllIds, DistinctAll, IdsOf;
    Framed(pages, pages1, {i, j}, moved, giver);
    Framed(pages, pages1, {i, j}, si, i);
    Framed(pages, pages1, {i, j}, sj, j);
    AdoptRep(pages1, moved, giver, owner);
    var pages2 := Adopt(pages1, IdsOf(moved), owner);
    assert Untouched(pages1, pages2, AllIds(moved));
    Framed(pages1, pages2, AllIds(moved), si, i);
    Framed(pages1, pages2, AllIds(moved), sj, j);
  }

  lemma Framed<V>(pages: Pages<V>, pages': Pages<V>, ids: set<int>, cs: seq<Placed<V>>, parent: int)
    requires RepAll(pages, cs, parent) && Untouched(pages, pages', ids) && ids !! AllIds(cs)
    ensures RepAll(pages', cs, parent)
  {
    RepAllFrame(pages, pages', cs, parent);
  }

  lemma PartsApart<V>(pages: Pages<V>, parent: int, a: Placed<V>, b: Placed<V>)
    requires TwoNodes(pages, parent, a, b) && a.PNode? && b.PNode?
    ensures RepAll(pages, a.children, a.id) && RepAll(pages, b.children, b.id) && a.id in pages && b.id in pages
    ensures Apart(a.id, b.id, a.children, [], b.children)
    ensures Ids(a) + Ids(b) == {a.id, b.id} + AllIds(a.children) + AllIds(b.children)
  {
    NodeParts(pages, a, parent);
    NodeParts(pages, b, parent);
    assert AllIds<V>([]) == {} && DistinctAll<V>([]);
    hide Rep, RepAll, AllIds, DistinctAll, Ids, Distinct, IdsOf;
  }

  /** The first children of `b` go to the end of `a`. */
  lemma ChildrenLeft<V>(pages: Pages<V>, parent: int, a: Placed<V>, b: Placed<V>, ks: seq<int>, ks': seq<int>,
                        moved: seq<Placed<V>>, kept: seq<Placed<V>>)
    requires TwoNodes(pages, parent, a, b) && a.PNode? && b.PNode? && b.children == moved + kept
    ensures forall n :: 0 <= n < |moved| ==> IdsOf(moved)[n] in pages
    ensures var pages' := MovedPages(pages, parent, a.id, ks, IdsOf(a.children + moved), b.id, ks', IdsOf(kept),
                                     IdsOf(moved), a.id);
            && TwoNodes(pages', parent, PNode(a.id, ks, a.children + moved), PNode(b.id, ks', kept))
            && Ids(PNode(a.id, ks, a.children + moved)) + Ids(PNode(b.id, ks', kept)) == Ids(a) + Ids(b)
            && Untouched(pages, pages', Ids(a) + Ids(b)) && pages'.Keys == pages.Keys
  {
    PartsApart(pages, parent, a, b);
    AllIdsConcat(moved, kept);
    DistinctConcat(moved, kept);
    RepAllConcat(pages, moved, kept, b.id);
    hide Rep, RepAll, Ids, AllIds, Distinct, DistinctAll, IdsOf, TwoNodes, MovedPages;
    ChildrenMove(pages, parent, a.id, ks, IdsOf(a.children + moved), b.id, ks', IdsOf(kept), a.children, moved, kept,
                 b.id, a.id);
    var pages' := MovedPages(pages, parent, a.id, ks, IdsOf(a.children + moved), b.id, ks', IdsOf(kept), IdsOf(moved),
                             a.id);
    AllIdsConcat(a.children, moved);
    DistinctConcat(a.children, moved);
    RepAllConcat(pages', a.children, moved, a.id);
    NodesMade(pages', parent, a.id, ks, a.children + moved, b.id, ks', kept);
  }

  /** The last children of `a` go to the front of `b`. */
  lemma ChildrenRight<V>(pages: Pages<V>, parent: int, a: Placed<V>, b: Placed<V>, ks: seq<int>, ks': seq<int>,
                         kept: seq<Placed<V>>, moved: seq<Placed<V>>)
    requires TwoNodes(pages, parent, a, b) && a.PNode? && b.PNode? && a.children == kept + moved
    ensures forall n :: 0 <= n < |moved| ==> IdsOf(moved)[n] in pages
    ensures var pages' := MovedPages(pages, parent, a.id, ks, IdsOf(kept), b.id, ks', IdsOf(moved + b.children),
                                     IdsOf(moved), b.id);
            && TwoNodes(pages', parent, PNode(a.id, ks, kept), PNode(b.id, ks', moved + b.children))
            && Ids(PNode(a.id, ks, kept)) + Ids(PNode(b.id, ks', moved + b.children)) == Ids(a) + Ids(b)
            && Untouched(pages, pages', Ids(a) + Ids(b)) && pages'.Keys == pages.Keys
  {
    PartsApart(pages, parent, a, b);
    AllIdsConcat(kept, moved);
    DistinctConcat(kept, moved);
    RepAllConcat(pages, kept, moved, a.id);
    hide Rep, RepAll, Ids, AllIds, Distinct, DistinctAll, IdsOf, TwoNodes, MovedPages;
    ChildrenMove(pages, parent, a.id, ks, IdsOf(kept), b.id, ks', IdsOf(moved + b.children), kept, moved, b.children,
                 a.id, b.id);
    var pages' := MovedPages(pages, parent, a.id, ks, IdsOf(kept), b.id, ks', IdsOf(moved + b.children), IdsOf(moved),
                             b.id);
    AllIdsConcat(moved, b.children);
    DistinctConcat(moved, b.children);
    RepAllConcat(pages', moved, b.children, b.id);
    NodesMade(pages', parent, a.id, ks, kept, b.id, ks', moved + b.children);
  }
}
