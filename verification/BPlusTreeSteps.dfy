/** What each step of a search or an insertion does to the pages of an index and to the tree on them. */
module BPlusTreeSteps {
  import opened Options
  import SE = SortedEntries
  import opened BPlusTree
  import opened BPlusTreeProofs
  import opened BPlusTreePaths
  import opened BPlusTreePages
  import opened BPlusTreeLinks
  import opened BPlusTreeLatches

  // ----- the index -----

  /** What an index keeps: the pages hold a sound tree, or nothing. */
  ghost predicate Stored<V>(limits: Limits, root: int, pages: Pages<V>, nextId: int, tree: Option<Placed<V>>,
                            height: nat) {
    LimitsOk(limits) && InRange(pages, nextId) && Rooted(limits, root, pages, tree, height)
  }

  ghost predicate Rooted<V>(limits: Limits, root: int, pages: Pages<V>, tree: Option<Placed<V>>, height: nat) {
    match tree
    case None => root == NO_PAGE && pages == map[]
    case Some(t) => root == t.id != NO_PAGE && Held(pages, t) && SoundRoot(Some(Plain(t)), limits, height)
  }

  ghost function EntriesOf<V>(tree: Option<Placed<V>>): seq<SE.Entry<V>> {
    if tree.None? then [] else Entries(Plain(tree.value))
  }

  lemma StoredFacts<V>(limits: Limits, root: int, pages: Pages<V>, nextId: int, tree: Option<Placed<V>>, height: nat)
    requires Stored(limits, root, pages, nextId, tree, height) && tree.Some?
    ensures LimitsOk(limits) && InRange(pages, nextId) && root != NO_PAGE && tree.value.id == root
            && Held(pages, tree.value)
    ensures SoundRoot(Some(Plain(tree.value)), limits, height) && EntriesOf(tree) == Entries(Plain(tree.value))
  {
  }

  lemma NowStored<V>(limits: Limits, root: int, pages: Pages<V>, nextId: int, t: Placed<V>, height: nat)
    requires LimitsOk(limits) && InRange(pages, nextId) && t.id == root && Held(pages, t)
             && SoundRoot(Some(Plain(t)), limits, height)
    ensures Stored(limits, root, pages, nextId, Some(t), height)
  {
    OwnId(t);
    assert t.id in pages.Keys;
    hide Held, SoundRoot, Plain;
  }

  // ----- page numbers -----

  /** Pages are numbered in the order they are made; the first one, the header page, is not a node. */
  ghost predicate InRange<V>(pages: Pages<V>, nextId: int) {
    HEADER_PAGE < nextId && forall id :: id in pages ==> HEADER_PAGE < id < nextId
  }

  lemma NotTheHeader<V>(pages: Pages<V>, n: int, id: int)
    requires InRange(pages, n) && id in pages
    ensures id > HEADER_PAGE
  {
  }

  lemma NextIsNew<V>(pages: Pages<V>, n: int)
    requires InRange(pages, n)
    ensures n !in pages && n != NO_PAGE
  {
  }

  lemma InRangeKept<V>(pages: Pages<V>, id: int, page: PageNode<V>, n: int)
    requires InRange(pages, n) && id in pages
    ensures InRange(pages[id := page], n)
  {
  }

  lemma InRangeSame<V>(pages: Pages<V>, pages': Pages<V>, id: int, page: PageNode<V>, n: int)
    requires InRange(pages, n) && pages'.Keys == pages.Keys && id in pages
    ensures InRange(pages'[id := page], n)
  {
    assert forall i :: i in pages' <==> i in pages'.Keys;
  }

  lemma InRangeGrown<V>(pages: Pages<V>, pages': Pages<V>, n: int)
    requires InRange(pages, n) && pages'.Keys == pages.Keys + {n}
    ensures InRange(pages', n + 1)
  {
    assert forall id :: id in pages' <==> id in pages'.Keys;
  }

  // ----- search -----

  /** A search for the key has come to `t` by way of `path`. */
  ghost predicate SearchedTo<V>(pages: Pages<V>, tree: Placed<V>, key: int, height: nat, path: seq<PStep<V>>,
                                t: Placed<V>) {
    && PPlug(path, t) == tree && Leads(PlainPath(path), key)
    && Rep(pages, t, ParentOf(path)) && |path| <= height && Shaped(Plain(t), height - |path|)
  }

  lemma SearchStarts<V>(pages: Pages<V>, tree: Placed<V>, key: int, l: Limits, height: nat)
    requires Held(pages, tree) && SoundRoot(Some(Plain(tree)), l, height)
    ensures SearchedTo(pages, tree, key, height, [], tree)
  {
    SoundIsShaped(Plain(tree), l, height, None, None);
    NoStep(tree, key);
  }

  lemma NoStep<V>(t: Placed<V>, key: int)
    ensures PPlug([], t) == t && Leads(PlainPath<V>([]), key)
  {
  }

  lemma OnPage<V>(pages: Pages<V>, tree: Placed<V>, key: int, height: nat, path: seq<PStep<V>>, t: Placed<V>)
    requires SearchedTo(pages, tree, key, height, path, t)
    ensures t.id in pages && pages[t.id].parent == ParentOf(path)
    ensures if t.PLeaf? then pages[t.id] == LeafPage(ParentOf(path), t.next, t.entries) && |path| == height
            else pages[t.id] == InternalPage(ParentOf(path), t.keys, IdsOf(t.children))
                 && |t.children| == |t.keys| + 1 && HasStep(t, key)
    ensures pages[t.id].LeafPage? == t.PLeaf? && PageSize(pages[t.id]) == PSize(t)
  {
    NodeOnPage(pages, t, ParentOf(path), height - |path|);
  }

  lemma SearchSteps<V>(pages: Pages<V>, tree: Placed<V>, key: int, height: nat, path: seq<PStep<V>>, t: Placed<V>)
    requires SearchedTo(pages, tree, key, height, path, t) && t.PNode? && |t.children| == |t.keys| + 1
    ensures var i := ChildOf(t.keys, key);
            && IdsOf(t.children)[i] == t.children[i].id && HasStep(t, key)
            && SearchedTo(pages, tree, key, height, path + [StepOf(t, key)], t.children[i])
  {
    var i := ChildOf(t.keys, key);
    PlainAt(t.children, i);
    NodeOnPage(pages, t, ParentOf(path), height - |path|);
    Descend(path, PStep(t.id, t.keys, t.children[..i], t.children[i + 1..]), t.children[i], t, key);
    hide Rep, Shaped, PPlug, Leads, Plain;
  }

  /** One step further down. */
  lemma Descend<V>(path: seq<PStep<V>>, s: PStep<V>, child: Placed<V>, node: Placed<V>, key: int)
    requires node.PNode? && |node.children| == |node.keys| + 1
    requires var i := ChildOf(node.keys, key);
             s == PStep(node.id, node.keys, node.children[..i], node.children[i + 1..]) && child == node.children[i]
    requires Leads(PlainPath(path), key)
    ensures PPlug(path + [s], child) == PPlug(path, node) && Leads(PlainPath(path + [s]), key)
    ensures ParentOf(path + [s]) == node.id
  {
    Cut(node.children, ChildOf(node.keys, key));
    assert (path + [s])[..|path|] == path;
    assert PFill(s, child) == node;
  }

  /** The leaf a search ends in, with the path to it. */
  ghost predicate FoundLeaf<V>(tree: Placed<V>, key: int, height: nat, path: seq<PStep<V>>, leaf: Placed<V>,
                               l: Limits) {
    && PPlug(path, leaf) == tree && leaf.PLeaf? && |path| == height && Leads(PlainPath(path), key)
    && ShapedPath(PlainPath(path), 0) && FullPath(PlainPath(path), l) && Shaped(Plain(leaf), 0)
  }

  lemma SearchFinds<V>(pages: Pages<V>, tree: Placed<V>, key: int, height: nat, path: seq<PStep<V>>, leaf: Placed<V>,
                       l: Limits)
    requires SearchedTo(pages, tree, key, height, path, leaf) && leaf.PLeaf? && |path| == height
    requires LimitsOk(l) && SoundRoot(Some(Plain(tree)), l, height)
    ensures FoundLeaf(tree, key, height, path, leaf, l)
  {
    PlainPlug(path, leaf);
    hide PPlug, PlainPath, Plug, SoundRoot, Leads, Rep;
    var _, _ := SoundPath(PlainPath(path), Plain(leaf), l, 0);
  }

  lemma FoundInLeaf<V>(tree: Placed<V>, key: int, height: nat, path: seq<PStep<V>>, leaf: Placed<V>, l: Limits)
    requires FoundLeaf(tree, key, height, path, leaf, l) && LimitsOk(l) && SoundRoot(Some(Plain(tree)), l, height)
    ensures SE.Lookup(leaf.entries, key) == SE.Lookup(Entries(Plain(tree)), key)
    ensures SE.Has(leaf.entries, key) <==> SE.Has(Entries(Plain(tree)), key)
  {
    PlainPlug(path, leaf);
    GetByPath(PlainPath(path), Plain(leaf), key, 0);
    TreeIsMap(Some(Plain(tree)), l, height, key);
    SE.HasIsFound(leaf.entries, key);
    SE.HasIsFound(Entries(Plain(tree)), key);
    hide PPlug, PlainPath, Plug, SoundRoot, Leads, ShapedPath, FullPath, SE.Lookup, SE.Has, Entries;
  }

  lemma {:induction false} RootId<V>(path: seq<PStep<V>>, t: Placed<V>)
    ensures PPlug(path, t).id == if path == [] then t.id else path[0].id
    decreases |path|
  {
    if path != [] { RootId(path[..|path| - 1], PFill(path[|path| - 1], t)); }
  }

  // ----- insertion -----

  /** A node was split, and the right half is not yet in the tree. */
  ghost predicate SplitAt<V>(pages: Pages<V>, path: seq<PStep<V>>, l: Placed<V>, r: Placed<V>, h: nat, root: int) {
    && HalvesHeld(pages, path, l, r) && ShapedPath(PlainPath(path), h) && Shaped(Plain(l), h) && Shaped(Plain(r), h)
    && root == if path == [] then l.id else path[0].id
  }

  /** The tree is what the insertion function says. */
  ghost predicate CarriedTo<V>(path: seq<PStep<V>>, l: Placed<V>, key: int, r: Placed<V>, lim: Limits, h: nat,
                               t: Placed<V>) {
    && LimitsOk(lim) && ShapedPath(PlainPath(path), h) && Shaped(Plain(l), h) && Shaped(Plain(r), h)
    && Plain(t) == Carry(PlainPath(path), Halves(Plain(l), key, Plain(r)), lim, h)
  }

  /** What the leaf becomes when there is room in it. */
  lemma LeafGrows<V>(pages: Pages<V>, tree: Placed<V>, key: int, value: V, height: nat, path: seq<PStep<V>>,
                     leaf: Placed<V>, l: Limits)
    requires Held(pages, tree) && FoundLeaf(tree, key, height, path, leaf, l) && LimitsOk(l)
    requires |leaf.entries| < |SE.Insert(leaf.entries, key, value)| < l.leafMax
    ensures var es := SE.Insert(leaf.entries, key, value);
            var t := PPlug(path, PLeaf(leaf.id, leaf.next, es));
            && Held(pages[leaf.id := LeafPage(ParentOf(path), leaf.next, es)], t) && t.id == tree.id
            && InsertedInto(path, leaf, key, value, l, t)
  {
    var leaf' := PLeaf(leaf.id, leaf.next, SE.Insert(leaf.entries, key, value));
    RootId(path, leaf);
    RootId(path, leaf');
    LeafHeld(pages, path, leaf, leaf');
    PlainPlug(path, leaf');
    hide Held, PPlug, PlainPath, ShapedPath, Plug;
  }

  /** What it becomes when there is none. */
  lemma LeafSplits<V>(pages: Pages<V>, tree: Placed<V>, key: int, value: V, height: nat, path: seq<PStep<V>>,
                      leaf: Placed<V>, l: Limits, n: int)
    requires Held(pages, tree) && FoundLeaf(tree, key, height, path, leaf, l) && LimitsOk(l) && n !in pages
    requires |leaf.entries| < |SE.Insert(leaf.entries, key, value)|
             && |SE.Insert(leaf.entries, key, value)| >= l.leafMax
    ensures var es, m := SE.Insert(leaf.entries, key, value), LeafMin(l);
            && m < l.leafMax <= |es|
            && var a, b := PLeaf(leaf.id, n, es[..m]), PLeaf(n, leaf.next, es[m..l.leafMax]);
            && SplitAt(pages[leaf.id := LeafPage(ParentOf(path), n, es[..m])]
                            [n := LeafPage(ParentOf(path), leaf.next, es[m..l.leafMax])],
                       path, a, b, 0, tree.id)
            && LeafHalves(leaf, key, value, l, a, es[m].0, b)
  {
    var es, m := SE.Insert(leaf.entries, key, value), LeafMin(l);
    RootId(path, leaf);
    LeafHalvesHeld(pages, path, leaf, es[..m], es[m..l.leafMax], n);
    hide Held, HalvesHeld, PPlug, PlainPath, ShapedPath, Plug;
  }

  ghost predicate LeafHalves<V>(leaf: Placed<V>, key: int, value: V, l: Limits, a: Placed<V>, rising: int,
                                b: Placed<V>) {
    LimitsOk(l) && Shaped(Plain(leaf), 0) && InsertInto(Plain(leaf), key, value, l, 0) ==
      Halves(Plain(a), rising, Plain(b))
  }

  /** The tree is what an insertion at the leaf is carried up to. */
  ghost predicate InsertedInto<V>(path: seq<PStep<V>>, leaf: Placed<V>, key: int, value: V, l: Limits, t: Placed<V>) {
    && LimitsOk(l) && ShapedPath(PlainPath(path), 0) && Shaped(Plain(leaf), 0)
    && Plain(t) == Carry(PlainPath(path), InsertInto(Plain(leaf), key, value, l, 0), l, 0)
  }

  lemma LeafCarried<V>(path: seq<PStep<V>>, leaf: Placed<V>, key: int, value: V, l: Limits, a: Placed<V>, rising: int,
                       b: Placed<V>, t: Placed<V>)
    requires LeafHalves(leaf, key, value, l, a, rising, b) && CarriedTo(path, a, rising, b, l, 0, t)
    ensures InsertedInto(path, leaf, key, value, l, t)
  {
    hide Plain, PlainPath, Shaped, ShapedPath, Carry, InsertInto;
  }

  ghost function GrownHeight<V>(tree: Placed<V>, key: int, value: V, l: Limits, height: nat): nat
    requires LimitsOk(l) && Shaped(Plain(tree), height)
  {
    HeightAfterInsert(Some(Plain(tree)), key, value, l, height)
  }

  /** The tree after an insertion that was done at a leaf and carried up. */
  lemma Inserted<V>(tree: Placed<V>, t: Placed<V>, path: seq<PStep<V>>, leaf: Placed<V>, key: int, value: V, l: Limits,
                    height: nat)
    requires SoundRoot(Some(Plain(tree)), l, height) && FoundLeaf(tree, key, height, path, leaf, l)
    requires InsertedInto(path, leaf, key, value, l, t)
    ensures LimitsOk(l) && Shaped(Plain(tree), height)
    ensures SoundRoot(Some(Plain(t)), l, GrownHeight(tree, key, value, l, height))
    ensures EntriesOf(Some(t)) == SE.Insert(EntriesOf(Some(tree)), key, value)
  {
    PlainPlug(path, leaf);
    InsertByPath(PlainPath(path), Plain(leaf), key, value, l, 0);
    InsertRootSound(Some(Plain(tree)), key, value, l, height);
    hide PPlug, PlainPath, ShapedPath, Plug, SoundRoot, SE.Insert, Entries, Carry, InsertInto, InsertRoot, Plain,
         Shaped, FullPath, Leads, HeightAfterInsert;
  }

  lemma SplitOnPage<V>(pages: Pages<V>, path: seq<PStep<V>>, l: Placed<V>, r: Placed<V>, h: nat, root: int)
    requires SplitAt(pages, path, l, r, h, root)
    ensures l.id in pages && r.id in pages && l.id != r.id && pages[l.id].parent == ParentOf(path)
    ensures path != [] ==>
              var s, rest := path[|path| - 1], path[..|path| - 1];
              && s.id in pages && l.id !in IdsOf(s.left) && |s.left| + |s.right| == |s.keys|
              && pages[s.id] == InternalPage(ParentOf(rest), s.keys, IdsOf(s.left) + [l.id] + IdsOf(s.right))
  {
    OwnId(l);
    OwnId(r);
    if path != [] {
      var s := path[|path| - 1];
      NotAmong(s.left, l);
      assert ShapedStep(PlainStep(s), h);
    }
  }

  lemma NotAmong<V>(cs: seq<Placed<V>>, t: Placed<V>)
    requires AllIds(cs) !! Ids(t)
    ensures t.id !in IdsOf(cs)
  {
    OwnId(t);
    forall i | 0 <= i < |cs| ensures IdsOf(cs)[i] != t.id {
      PlainAt(cs, i);
      IdAmong(cs, i);
    }
  }

  lemma PositionIs<V>(s: PStep<V>, id: int, children: seq<int>, i: nat)
    requires children == IdsOf(s.left) + [id] + IdsOf(s.right) && id !in IdsOf(s.left)
    requires i < |children| && children[i] == id && id !in children[..i]
    ensures i == |s.left|
  {
    assert children[|s.left|] == id;
    assert forall j :: 0 <= j < |s.left| ==> children[j] == IdsOf(s.left)[j];
    assert forall j :: 0 <= j < i ==> children[..i][j] == children[j];
  }

  lemma InsertedAfter<T>(a: seq<T>, x: T, c: seq<T>, y: T)
    ensures InsertAt(a + [x] + c, |a| + 1, y) == a + [x, y] + c
  {
  }

  lemma BothNames<V>(s: PStep<V>, l: Placed<V>, r: Placed<V>)
    ensures InsertAt(IdsOf(s.left) + [l.id] + IdsOf(s.right), |s.left| + 1, r.id) == IdsOf(WithBoth(s, l, r))
    ensures |WithBoth(s, l, r)| == |s.left| + |s.right| + 2
  {
    WithBothNames(s, l, r);
    InsertedAfter(IdsOf(s.left), l.id, IdsOf(s.right), r.id);
    hide IdsOf, InsertAt, PlainAll;
  }

  /** The page of a parent that gets a split child's right half too. */
  ghost predicate NewParent<V>(s: PStep<V>, l: Placed<V>, key: int, r: Placed<V>, id: int, keys: seq<int>,
                               children: seq<int>) {
    && id == s.id && |s.left| + |s.right| == |s.keys| && keys == InsertAt(s.keys, |s.left|, key)
    && children == IdsOf(WithBoth(s, l, r))
  }

  lemma NewParentIs<V>(s: PStep<V>, l: Placed<V>, key: int, r: Placed<V>, id: int)
    requires id == s.id && |s.left| + |s.right| == |s.keys|
    ensures |s.left| <= |s.keys|
    ensures NewParent(s, l, key, r, id, InsertAt(s.keys, |s.left|, key),
                      InsertAt(IdsOf(s.left) + [l.id] + IdsOf(s.right), |s.left| + 1, r.id))
  {
    BothNames(s, l, r);
    hide InsertAt, IdsOf, WithBoth;
  }

  /** What the method that stores a parent sees of it. */
  lemma ParentOnPage<V>(pages: Pages<V>, path: seq<PStep<V>>, l: Placed<V>, key: int, r: Placed<V>, h: nat, root: int,
                        id: int, keys: seq<int>, children: seq<int>)
    requires SplitAt(pages, path, l, r, h, root) && path != []
             && NewParent(path[|path| - 1], l, key, r, id, keys, children)
    ensures id in pages && pages[id].parent == ParentOf(path[..|path| - 1]) && path[|path| - 1].id == id
  {
  }

  lemma ParentIsPage<V>(pages: Pages<V>, path: seq<PStep<V>>, l: Placed<V>, r: Placed<V>, h: nat, root: int)
    requires SplitAt(pages, path, l, r, h, root)
    ensures path == [] ==> ParentOf(path) == NO_PAGE
  {
  }

  /** The root was split. */
  lemma RootSplit<V>(pages: Pages<V>, l: Placed<V>, key: int, r: Placed<V>, lim: Limits, h: nat, root: int, n: int)
    requires LimitsOk(lim) && SplitAt(pages, [], l, r, h, root) && n !in pages
    ensures l.id in pages && r.id in pages && l.id != r.id
    ensures var t := PNode(n, [key], [l, r]);
            && CarriedTo([], l, key, r, lim, h, t)
            && Held(pages[n := InternalPage(NO_PAGE, [key], [l.id, r.id])]
                         [l.id := pages[l.id].(parent := n)][r.id := pages[r.id].(parent := n)], t)
  {
    NewRootHeld(pages, l, key, r, n);
    PlainTwo(l, r);
    hide Held, HalvesHeld;
  }

  lemma GrowsWhole<V>(s: PStep<V>, l: Placed<V>, key: int, r: Placed<V>, lim: Limits, h: nat)
    requires LimitsOk(lim) && ShapedStep(PlainStep(s), h) && Shaped(Plain(l), h) && Shaped(Plain(r), h)
    requires |s.left| <= |s.keys| && |WithBoth(s, l, r)| <= lim.internalMax
    ensures Grow(PlainStep(s), Plain(l), key, Plain(r), lim, h) ==
            Whole(Plain(PNode(s.id, InsertAt(s.keys, |s.left|, key), WithBoth(s, l, r))))
  {
    WithBothNames(s, l, r);
    hide PlainAll, Shaped, ShapedStep, InsertAt;
  }

  ghost function LeftHalf<V>(s: PStep<V>, l: Placed<V>, key: int, r: Placed<V>, lim: Limits): Placed<V>
    requires |s.left| <= |s.keys| && 0 < NodeMin(lim) <= |WithBoth(s, l, r)| && NodeMin(lim) <= |s.keys| + 1
  {
    PNode(s.id, InsertAt(s.keys, |s.left|, key)[..NodeMin(lim) - 1], WithBoth(s, l, r)[..NodeMin(lim)])
  }

  ghost function RightHalf<V>(s: PStep<V>, l: Placed<V>, key: int, r: Placed<V>, lim: Limits, n: int): Placed<V>
    requires |s.left| <= |s.keys| && 0 < NodeMin(lim) <= |WithBoth(s, l, r)| && NodeMin(lim) <= |s.keys| + 1
  {
    PNode(n, InsertAt(s.keys, |s.left|, key)[NodeMin(lim)..], WithBoth(s, l, r)[NodeMin(lim)..])
  }

  lemma HalvesFit<V>(s: PStep<V>, l: Placed<V>, key: int, r: Placed<V>, lim: Limits)
    requires LimitsOk(lim) && |s.left| + |s.right| == |s.keys| && |WithBoth(s, l, r)| > lim.internalMax
    ensures |s.left| <= |s.keys| && |WithBoth(s, l, r)| == |s.keys| + 2 && 0 < NodeMin(lim) <= |s.keys|
    ensures |InsertAt(s.keys, |s.left|, key)| == |s.keys| + 1
  {
  }

  lemma GrowsHalves<V>(s: PStep<V>, l: Placed<V>, key: int, r: Placed<V>, lim: Limits, h: nat, n: int)
    requires LimitsOk(lim) && ShapedStep(PlainStep(s), h) && Shaped(Plain(l), h) && Shaped(Plain(r), h)
    requires |s.left| + |s.right| == |s.keys| && |WithBoth(s, l, r)| > lim.internalMax
    ensures |s.left| <= |s.keys| && |WithBoth(s, l, r)| == |s.keys| + 2 && 0 < NodeMin(lim) <= |s.keys|
    ensures |InsertAt(s.keys, |s.left|, key)| == |s.keys| + 1
    ensures Grow(PlainStep(s), Plain(l), key, Plain(r), lim, h)
            == Halves(Plain(LeftHalf(s, l, key, r, lim)), InsertAt(s.keys, |s.left|, key)[NodeMin(lim) - 1],
                      Plain(RightHalf(s, l, key, r, lim, n)))
  {
    HalvesFit(s, l, key, r, lim);
    var cs, keys, m := WithBoth(s, l, r), InsertAt(s.keys, |s.left|, key), NodeMin(lim);
    WithBothNames(s, l, r);
    CutNames(cs, m);
    assert |s.left| == |PlainStep(s).left|;
    assert PlainAll(cs) == PlainStep(s).left + [Plain(l), Plain(r)] + PlainStep(s).right;
    assert Plain(LeftHalf(s, l, key, r, lim)) == Node(keys[..m - 1], PlainAll(cs)[..m]);
    assert Plain(RightHalf(s, l, key, r, lim, n)) == Node(keys[m..], PlainAll(cs)[m..]);
    hide PlainAll, Shaped, ShapedStep, InsertAt, WithBoth, IdsOf, LeftHalf, RightHalf, Plain, PlainStep;
  }

  lemma CarryStepUp<V>(path: seq<PStep<V>>, l: Placed<V>, key: int, r: Placed<V>, lim: Limits, h: nat)
    requires path != [] && LimitsOk(lim) && ShapedPath(PlainPath(path), h) && Shaped(Plain(l), h) && Shaped(Plain(r), h)
    ensures var s, rest := path[|path| - 1], path[..|path| - 1];
            && ShapedStep(PlainStep(s), h) && ShapedPath(PlainPath(rest), h + 1)
            && Carry(PlainPath(path), Halves(Plain(l), key, Plain(r)), lim, h)
               == Carry(PlainPath(rest), Grow(PlainStep(s), Plain(l), key, Plain(r), lim, h), lim, h + 1)
  {
    var s, rest := path[|path| - 1], path[..|path| - 1];
    assert PlainPath(path)[..|path| - 1] == PlainPath(rest);
    assert PlainPath(path)[|path| - 1] == PlainStep(s);
    hide Grow, Shaped, ShapedStep, Plain, PlainStep, PPlug, Plug;
  }

  /** The parent has room for both halves. */
  lemma RoomForBoth<V>(pages: Pages<V>, path: seq<PStep<V>>, l: Placed<V>, key: int, r: Placed<V>, lim: Limits, h: nat,
                       root: int,
                       keys: seq<int>, children: seq<int>)
    requires LimitsOk(lim) && SplitAt(pages, path, l, r, h, root) && path != [] && |children| <= lim.internalMax
    requires NewParent(path[|path| - 1], l, key, r, path[|path| - 1].id, keys, children)
    ensures var s, rest := path[|path| - 1], path[..|path| - 1];
            var t := PPlug(rest, PNode(s.id, keys, WithBoth(s, l, r)));
            && Held(pages[s.id := InternalPage(ParentOf(rest), keys, children)], t)
            && t.id == root && CarriedTo(path, l, key, r, lim, h, t)
  {
    var s, rest := path[|path| - 1], path[..|path| - 1];
    CarryStepUp(path, l, key, r, lim, h);
    var cs := WithBoth(s, l, r);
    BothHeld(pages, path, l, r, keys);
    RootId(rest, PNode(s.id, keys, cs));
    GrowsWhole(s, l, key, r, lim, h);
    PlainPlug(rest, PNode(s.id, keys, cs));
    hide Held, HalvesHeld, Grow, Shaped, ShapedStep, Plain, PlainStep, PlainPath, ShapedPath, PPlug, Plug, WithBoth,
         InsertAt;
  }

  /** An internal page split in the middle, its right half on page `n`. */
  ghost function SplitInternal<V>(pages: Pages<V>, id: int, parent: int, keys: seq<int>, children: seq<int>,
                                  lim: Limits, n: int): Pages<V>
    requires 0 < NodeMin(lim) <= |keys| < |children| && forall i :: 0 <= i < |children| ==> children[i] in pages
  {
    var m := NodeMin(lim);
    Adopt(pages[id := InternalPage(parent, keys[..m - 1], children[..m])]
               [n := InternalPage(parent, keys[m..], children[m..])], children[m..], n)
  }

  /** The parent has no room: it is split, and its halves wait for their parent. */
  lemma ParentSplits<V>(pages: Pages<V>, path: seq<PStep<V>>, l: Placed<V>, key: int, r: Placed<V>, lim: Limits, h: nat,
                        root: int, n: int,
                        keys: seq<int>, children: seq<int>) returns (l': Placed<V>, r': Placed<V>)
    requires LimitsOk(lim) && SplitAt(pages, path, l, r, h, root) && path != [] && n !in pages
    requires NewParent(path[|path| - 1], l, key, r, path[|path| - 1].id, keys, children) && |children| > lim.internalMax
    ensures HalvesOf(path[|path| - 1], l, key, r, lim, n, l', r')
    ensures 0 < NodeMin(lim) <= |keys| < |children| && (forall i :: 0 <= i < |children| ==> children[i] in pages)
    ensures var s, rest := path[|path| - 1], path[..|path| - 1];
            var pages' := SplitInternal(pages, s.id, ParentOf(rest), keys, children, lim, n);
            && SplitAt(pages', rest, l', r', h + 1, root) && l'.id == s.id && r'.id == n
            && pages'.Keys == pages.Keys + {n}
  {
    var s, rest := path[|path| - 1], path[..|path| - 1];
    CarryStepUp(path, l, key, r, lim, h);
    GrowsHalves(s, l, key, r, lim, h, n);
    SplitStored(pages, path, l, r, keys, lim, n);
    l', r' := LeftHalf(s, l, key, r, lim), RightHalf(s, l, key, r, lim, n);
    hide HalvesHeld, Grow, Shaped, ShapedStep, Plain, PlainStep, PlainPath, ShapedPath, WithBoth, InsertAt,
         SplitInternal, IdsOf;
  }

  /** The halves of a parent that was split. */
  ghost predicate HalvesOf<V>(s: PStep<V>, l: Placed<V>, key: int, r: Placed<V>, lim: Limits, n: int, l': Placed<V>,
                              r': Placed<V>) {
    && |s.left| <= |s.keys| && 0 < NodeMin(lim) <= |WithBoth(s, l, r)| && NodeMin(lim) <= |s.keys| + 1
    && l' == LeftHalf(s, l, key, r, lim) && r' == RightHalf(s, l, key, r, lim, n)
  }

  lemma SplitStored<V>(pages: Pages<V>, path: seq<PStep<V>>, l: Placed<V>, r: Placed<V>, keys: seq<int>, lim: Limits,
                       n: int)
    requires HalvesHeld(pages, path, l, r) && path != [] && n !in pages
    requires 0 < NodeMin(lim) <= |keys| < |WithBoth(path[|path| - 1], l, r)|
    ensures var s, rest, m := path[|path| - 1], path[..|path| - 1], NodeMin(lim);
            var cs := WithBoth(s, l, r);
            && (forall i :: 0 <= i < |IdsOf(cs)| ==> IdsOf(cs)[i] in pages)
            && var pages' := SplitInternal(pages, s.id, ParentOf(rest), keys, IdsOf(cs), lim, n);
            && HalvesHeld(pages', rest, PNode(s.id, keys[..m - 1], cs[..m]), PNode(n, keys[m..], cs[m..]))
            && pages'.Keys == pages.Keys + {n}
  {
    var s, rest, m := path[|path| - 1], path[..|path| - 1], NodeMin(lim);
    var cs := WithBoth(s, l, r);
    assert s.id in pages;
    SplitHeld(pages, path, l, r, keys[..m - 1], keys[m..], m, n);
    hide *;
    SplitInternalIs(pages, s.id, ParentOf(rest), keys, cs, lim, n);
    SplitKeys(pages, s.id, n, ParentOf(rest), keys[..m - 1], keys[m..], cs, m);
  }

  lemma SplitInternalIs<V>(pages: Pages<V>, id: int, parent: int, keys: seq<int>, cs: seq<Placed<V>>, lim: Limits,
                           n: int)
    requires RepAll(pages, cs, id) && 0 < NodeMin(lim) <= |keys| < |cs|
    ensures forall i :: 0 <= i < |IdsOf(cs)| ==> IdsOf(cs)[i] in pages
    ensures SplitInternal(pages, id, parent, keys, IdsOf(cs), lim, n)
            == SplitPages(pages, id, n, parent, keys[..NodeMin(lim) - 1], keys[NodeMin(lim)..], cs, NodeMin(lim))
  {
    IdsInPages(pages, cs, id);
  }

  /** The tree above the split parent is the one above the split child. */
  lemma CarriesOn<V>(pages: Pages<V>, path: seq<PStep<V>>, l: Placed<V>, key: int, r: Placed<V>, lim: Limits, h: nat,
                     root: int, n: int,
                     keys: seq<int>, children: seq<int>, l': Placed<V>, r': Placed<V>, t: Placed<V>)
    requires LimitsOk(lim) && SplitAt(pages, path, l, r, h, root) && path != []
    requires NewParent(path[|path| - 1], l, key, r, path[|path| - 1].id, keys, children) && |children| > lim.internalMax
    requires HalvesOf(path[|path| - 1], l, key, r, lim, n, l', r') && 0 < NodeMin(lim) <= |keys|
    requires CarriedTo(path[..|path| - 1], l', keys[NodeMin(lim) - 1], r', lim, h + 1, t)
    ensures CarriedTo(path, l, key, r, lim, h, t)
  {
    var s := path[|path| - 1];
    CarryStepUp(path, l, key, r, lim, h);
    GrowsHalves(s, l, key, r, lim, h, n);
    hide HalvesHeld, Grow, Shaped, ShapedStep, Plain, PlainStep, PlainPath, ShapedPath, WithBoth, InsertAt, LeftHalf,
         RightHalf;
  }

  // ----- latches -----

  lemma {:induction false} PathSizes<V>(path: seq<PStep<V>>, h: nat)
    requires ShapedPath(PlainPath(path), h)
    ensures forall i :: 0 <= i < |path| ==> |path[i].left| + |path[i].right| == |path[i].keys|
    decreases |path|
  {
    if path != [] {
      var s, rest := path[|path| - 1], path[..|path| - 1];
      assert PlainPath(path)[..|path| - 1] == PlainPath(rest) && PlainPath(path)[|path| - 1] == PlainStep(s);
      PathSizes(rest, h + 1);
      assert forall i :: 0 <= i < |rest| ==> rest[i] == path[i];
    }
  }

  lemma KeptRoot<V>(pages: Pages<V>, id: int, newId: int, n: int, page: PageNode<V>)
    requires id in pages && newId in pages && n !in pages && id != newId
    ensures Kept(pages, pages[n := page][id := pages[id].(parent := n)][newId := pages[newId].(parent := n)], {})
  {
  }

  lemma KeptSplit<V>(pages: Pages<V>, id: int, parent: int, keys: seq<int>, children: seq<int>, lim: Limits, n: int)
    requires 0 < NodeMin(lim) <= |keys| < |children| && (forall i :: 0 <= i < |children| ==> children[i] in pages)
             && n !in pages
    ensures Kept(pages, SplitInternal(pages, id, parent, keys, children, lim, n), {id})
  {
    var m := NodeMin(lim);
    var pages1 := pages[id := InternalPage(parent, keys[..m - 1], children[..m])];
    var pages2 := pages1[n := InternalPage(parent, keys[m..], children[m..])];
    assert Kept(pages, pages2, {id});
    KeptAdopt(pages2, children[m..], n);
    KeptThen(pages, pages2, SplitInternal(pages, id, parent, keys, children, lim, n), {id}, {}, {id});
  }

  lemma KeptLeafSplit<V>(pages: Pages<V>, id: int, page: PageNode<V>, n: int, page': PageNode<V>)
    requires n !in pages
    ensures Kept(pages, pages[id := page][n := page'], {id})
  {
  }

  /** A parent without room is not where the insertion stops. */
  lemma StopsAbove<V>(path: seq<PStep<V>>, k: nat, safe: bool, l: Placed<V>, key: int, r: Placed<V>, id: int,
                      keys: seq<int>, children: seq<int>, lim: Limits)
    requires path != [] && InsertStops(path, k, safe, lim) && NewParent(path[|path| - 1], l, key, r, id, keys, children)
    ensures k < |path| && id in Steps(path, k)
    ensures |children| > lim.internalMax ==> InsertStops(path[..|path| - 1], k, safe, lim)
    ensures Steps(path, k) == Steps(path[..|path| - 1], k) + {id}
  {
    StepsUp(path, k);
    WithBothNames(path[|path| - 1], l, r);
  }

  lemma InsertClimbs<V>(tree: Placed<V>, key: int, lim: Limits, height: nat, path: seq<PStep<V>>, leaf: Placed<V>,
                        k: nat, rootLatched: bool)
    requires FoundLeaf(tree, key, height, path, leaf, lim)
             && LatchedAt(tree, key, INSERT, lim, path, leaf, k, rootLatched)
    requires |leaf.entries| + 1 >= lim.leafMax
    ensures InsertStops(path, k, !rootLatched, lim)
  {
    PathSizes(path, 0);
    InsertLatched(tree, key, lim, path, leaf, k, rootLatched);
  }
}
