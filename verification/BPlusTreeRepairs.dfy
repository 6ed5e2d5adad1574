/** What each step of a removal does to the pages of an index and to the tree on them. */
module BPlusTreeRepairs {
  import opened Options
  import SE = SortedEntries
  import opened BPlusTree
  import opened BPlusTreeProofs
  import opened BPlusTreePaths
  import opened BPlusTreePages
  import opened BPlusTreeLinks
  import opened BPlusTreeLatches
  import opened BPlusTreeMoves
  import S = BPlusTreeShifts
  import opened BPlusTreeSteps

  /** A node has become smaller: the pages hold the tree with it, and the pages `extra`. */
  ghost predicate Shrunk<V>(pages: Pages<V>, path: seq<PStep<V>>, t: Placed<V>, lim: Limits, h: nat, root: int,
                            extra: set<int>) {
    && LimitsOk(lim) && HeldBut(pages, PPlug(path, t), extra) && root == PPlug(path, t).id
    && ShapedPath(PlainPath(path), h) && Shaped(Plain(t), h) && FullPath(PlainPath(path), lim)
  }

  ghost function PlainOpt<V>(t: Option<Placed<V>>): Option<Tree<V>> {
    if t.None? then None else Some(Plain(t.value))
  }

  /** The tree is what the removal function says. */
  ghost predicate RepairedTo<V>(path: seq<PStep<V>>, t: Placed<V>, lim: Limits, h: nat, t': Option<Placed<V>>) {
    && LimitsOk(lim) && ShapedPath(PlainPath(path), h) && Shaped(Plain(t), h)
    && PlainOpt(t') == RepairUp(PlainPath(path), Plain(t), lim, h)
  }

  ghost predicate Ended<V>(pages: Pages<V>, root: int, t: Option<Placed<V>>, extra: set<int>) {
    HeldOpt(pages, t, extra) && root == if t.None? then NO_PAGE else t.value.id
  }

  function MinPageSize<V>(p: PageNode<V>, lim: Limits): nat {
    if p.LeafPage? then LeafMin(lim) else NodeMin(lim)
  }

  // ----- the node and its parent on pages -----

  ghost predicate SeenAs<V>(page: PageNode<V>, t: Placed<V>, parent: int, lim: Limits) {
    && page == S.PageOf(t, parent) && PageSize(page) == Size(Plain(t))
    && MinPageSize(page, lim) == MinSize(Plain(t), lim)
  }

  lemma Seen<V>(pages: Pages<V>, t: Placed<V>, parent: int, lim: Limits)
    requires Rep(pages, t, parent)
    ensures t.id in pages && SeenAs(pages[t.id], t, parent, lim)
  {
  }

  lemma ShrunkOnPage<V>(pages: Pages<V>, path: seq<PStep<V>>, t: Placed<V>, lim: Limits, h: nat, root: int,
                        extra: set<int>)
    requires Shrunk(pages, path, t, lim, h, root, extra)
    ensures t.id in pages && SeenAs(pages[t.id], t, ParentOf(path), lim)
    ensures path != [] ==>
              var s, rest := path[|path| - 1], path[..|path| - 1];
              && s.id in pages && t.id !in IdsOf(s.left) && |s.left| + |s.right| == |s.keys| >= 1
              && pages[s.id] == InternalPage(ParentOf(rest), s.keys, IdsOf(s.left) + [t.id] + IdsOf(s.right))
  {
    PlugRep(pages, path, t);
    PlugIds(path, t);
    Seen(pages, t, ParentOf(path), lim);
    if path != [] {
      var s := path[|path| - 1];
      assert PlainPath(path)[|path| - 1] == PlainStep(s);
      assert ShapedStep(PlainStep(s), h);
      NotAmong(s.left, t);
    }
  }

  // ----- the ends -----

  lemma EnoughLeft<V>(pages: Pages<V>, path: seq<PStep<V>>, t: Placed<V>, lim: Limits, h: nat, root: int,
                      extra: set<int>)
    requires Shrunk(pages, path, t, lim, h, root, extra) && path != [] && Size(Plain(t)) >= MinSize(Plain(t), lim)
    ensures Ended(pages, root, Some(PPlug(path, t)), extra) && RepairedTo(path, t, lim, h, Some(PPlug(path, t)))
  {
    PlainPlug(path, t);
    hide HeldBut, PPlug, Plain, PlainPath, ShapedPath, Shaped, FullPath, Plug;
  }

  /** The root is kept. */
  lemma RootKept<V>(pages: Pages<V>, t: Placed<V>, lim: Limits, h: nat, root: int, extra: set<int>)
    requires Shrunk(pages, [], t, lim, h, root, extra) && (if t.PLeaf? then t.entries != [] else |t.children| != 1)
    ensures Ended(pages, root, Some(t), extra) && RepairedTo([], t, lim, h, Some(t))
  {
  }

  /** The last entry is gone. */
  lemma RootGone<V>(pages: Pages<V>, t: Placed<V>, lim: Limits, h: nat, root: int, extra: set<int>)
    requires Shrunk(pages, [], t, lim, h, root, extra) && t.PLeaf? && t.entries == []
    ensures Ended(pages, NO_PAGE, None, extra + {t.id}) && RepairedTo([], t, lim, h, None)
  {
  }

  /** The root's only child takes its place. */
  lemma RootReplaced<V>(pages: Pages<V>, t: Placed<V>, lim: Limits, h: nat, root: int, extra: set<int>)
    requires Shrunk(pages, [], t, lim, h, root, extra) && t.PNode? && |t.children| == 1
    ensures var c := t.children[0];
            && IdsOf(t.children) == [c.id] && c.id in pages
            && Ended(pages[c.id := pages[c.id].(parent := NO_PAGE)], c.id, Some(c), extra + {t.id})
            && RepairedTo([], t, lim, h, Some(c))
  {
    var c := t.children[0];
    assert t.children == [c];
    PlainOne(c);
    OneId(c);
    OwnId(c);
    OneLink(c);
    assert Rep(pages, c, t.id);
    RepMoved(pages, c, t.id, NO_PAGE);
  }

  // ----- a node and its neighbour -----

  /**
   `a` and `b` are neighbours below the last node of the path, one of them at its end; `q` is that node without them.
   */
  ghost predicate Neighbouring<V>(path: seq<PStep<V>>, t: Placed<V>, q: PStep<V>, a: Placed<V>, b: Placed<V>) {
    path != [] &&
    var s := path[|path| - 1];
    && q.id == s.id && q.keys == s.keys && |q.left| < |q.keys| && WithBoth(q, a, b) == s.left + [t] + s.right
    && ((|q.left| == |s.left| - 1 && b == t) || (|q.left| == |s.left| == 0 && a == t))
  }

  lemma PlugPair<V>(path: seq<PStep<V>>, t: Placed<V>, q: PStep<V>, a: Placed<V>, b: Placed<V>)
    requires Neighbouring(path, t, q, a, b)
    ensures PPlug(path, t) == PPlug(path[..|path| - 1], PNode(q.id, q.keys, WithBoth(q, a, b)))
  {
  }

  lemma LeftNeighbour<V>(path: seq<PStep<V>>, t: Placed<V>)
    requires path != [] && path[|path| - 1].left != []
             && |path[|path| - 1].left| + |path[|path| - 1].right| == |path[|path| - 1].keys|
    ensures var s := path[|path| - 1]; var n := |s.left| - 1;
            && IdsOf(s.left)[n] == s.left[n].id
            && Neighbouring(path, t, PStep(s.id, s.keys, s.left[..n], s.right), s.left[n], t)
  {
    var s := path[|path| - 1];
    PlainAt(s.left, |s.left| - 1);
    assert s.left[..|s.left| - 1] + [s.left[|s.left| - 1], t] + s.right == s.left + [t] + s.right;
  }

  lemma RightNeighbour<V>(path: seq<PStep<V>>, t: Placed<V>)
    requires path != [] && path[|path| - 1].left == [] && |path[|path| - 1].right| == |path[|path| - 1].keys| >= 1
    ensures var s := path[|path| - 1];
            && IdsOf(s.right)[0] == s.right[0].id
            && Neighbouring(path, t, PStep(s.id, s.keys, [], s.right[1..]), t, s.right[0])
  {
    var s := path[|path| - 1];
    PlainAt(s.right, 0);
    assert [] + [t, s.right[0]] + s.right[1..] == s.left + [t] + s.right;
  }

  lemma PairPlain<V>(path: seq<PStep<V>>, t: Placed<V>, q: PStep<V>, a: Placed<V>, b: Placed<V>)
    requires Neighbouring(path, t, q, a, b)
    ensures var s := path[|path| - 1];
            && PlainAll(WithBoth(q, a, b)) == PlainAll(s.left) + [Plain(t)] + PlainAll(s.right)
            && PlainAll(WithBoth(q, a, b)) == PlainAll(q.left) + [Plain(a), Plain(b)] + PlainAll(q.right)
  {
    var s := path[|path| - 1];
    WithBothNames(q, a, b);
    PlainConcat(s.left + [t], s.right);
    PlainConcat(s.left, [t]);
    PlainOne(t);
    hide PlainAll, IdsOf;
  }

  ghost predicate ShapedPair<V>(q: PStep<V>, a: Placed<V>, b: Placed<V>, h: nat) {
    |q.left| < |q.keys| && Shaped(Node(q.keys, PlainAll(WithBoth(q, a, b))), h + 1) && Shaped(Plain(a), h)
    && Shaped(Plain(b), h)
  }

  lemma PairShaped<V>(path: seq<PStep<V>>, t: Placed<V>, q: PStep<V>, a: Placed<V>, b: Placed<V>, h: nat)
    requires Neighbouring(path, t, q, a, b) && ShapedPath(PlainPath(path), h) && Shaped(Plain(t), h)
    ensures ShapedPair(q, a, b, h) && ShapedPath(PlainPath(path[..|path| - 1]), h + 1)
    ensures ShapedStep(PlainStep(path[|path| - 1]), h)
  {
    var s := path[|path| - 1];
    assert PlainPath(path)[|path| - 1] == PlainStep(s)
           && PlainPath(path)[..|path| - 1] == PlainPath(path[..|path| - 1]);
    PairPlain(path, t, q, a, b);
    ShapedFill(PlainStep(s), Plain(t), h);
    var cs := PlainAll(WithBoth(q, a, b));
    assert cs[|q.left|] == Plain(a) && cs[|q.left| + 1] == Plain(b);
    hide PlainAll, PlainPath, ShapedStep;
    assert Shaped(Node(q.keys, cs), h + 1);
  }

  // ----- what becomes of the parent -----

  ghost function RightMoved<V>(q: PStep<V>, a: Placed<V>, b: Placed<V>): Placed<V>
    requires |q.left| < |q.keys| && S.Alike(a, b) && PSize(a) > 1
  {
    var r := S.MoveRight(a, q.keys[|q.left|], b);
    PNode(q.id, q.keys[|q.left| := r.1], WithBoth(q, r.0, r.2))
  }

  ghost function LeftMoved<V>(q: PStep<V>, a: Placed<V>, b: Placed<V>): Placed<V>
    requires |q.left| < |q.keys| && S.Alike(a, b) && PSize(b) > 1
  {
    var r := S.MoveLeft(a, q.keys[|q.left|], b);
    PNode(q.id, q.keys[|q.left| := r.1], WithBoth(q, r.0, r.2))
  }

  ghost function Joined<V>(q: PStep<V>, a: Placed<V>, b: Placed<V>): Placed<V>
    requires |q.left| < |q.keys| && S.Alike(a, b)
  {
    PNode(q.id, RemoveAt(q.keys, |q.left|), q.left + [S.Join(a, q.keys[|q.left|], b)] + q.right)
  }

  lemma PairSwapped<T>(l: seq<T>, x: T, y: T, r: seq<T>, x': T, y': T)
    ensures (l + [x, y] + r)[|l| := x'][|l| + 1 := y'] == l + [x', y'] + r
    ensures RemoveAt((l + [x, y] + r)[|l| := x'], |l| + 1) == l + [x'] + r
  {
  }

  lemma ShiftedIs<V>(q: PStep<V>, a: Placed<V>, b: Placed<V>, a': Placed<V>, k: int, b': Placed<V>, h: nat)
    requires ShapedPair(q, a, b, h) && Shaped(Plain(a'), h) && Shaped(Plain(b'), h)
    ensures Shifted(q.keys, PlainAll(WithBoth(q, a, b)), |q.left|, (Plain(a'), k, Plain(b')), h + 1)
            == Plain(PNode(q.id, q.keys[|q.left| := k], WithBoth(q, a', b')))
  {
    WithBothNames(q, a, b);
    WithBothNames(q, a', b');
    PairSwapped(PlainAll(q.left), Plain(a), Plain(b), PlainAll(q.right), Plain(a'), Plain(b'));
    hide PlainAll, WithBoth, Shaped, IdsOf, RemoveAt;
  }

  lemma MergedIs<V>(q: PStep<V>, a: Placed<V>, b: Placed<V>, c: Placed<V>, h: nat)
    requires ShapedPair(q, a, b, h) && Shaped(Plain(c), h)
    ensures Merged(q.keys, PlainAll(WithBoth(q, a, b)), |q.left|, Plain(c), h + 1)
            == Plain(PNode(q.id, RemoveAt(q.keys, |q.left|), q.left + [c] + q.right))
  {
    WithBothNames(q, a, b);
    PairSwapped(PlainAll(q.left), Plain(a), Plain(b), PlainAll(q.right), Plain(c), Plain(c));
    PlainConcat(q.left + [c], q.right);
    PlainConcat(q.left, [c]);
    PlainOne(c);
    hide PlainAll, WithBoth, Shaped, IdsOf, RemoveAt;
  }

  /** The parent after the repair, as the function has it. */
  ghost predicate ParentIs<V>(path: seq<PStep<V>>, q: PStep<V>, a: Placed<V>, b: Placed<V>, lim: Limits, h: nat,
                              p: Placed<V>) {
    && path != [] && LimitsOk(lim) && ShapedPair(q, a, b, h) && |path[|path| - 1].left| < |WithBoth(q, a, b)|
    && Plain(p) == Repair(q.keys, PlainAll(WithBoth(q, a, b)), |path[|path| - 1].left|, lim, h + 1)
  }

  lemma PairSizes<V>(q: PStep<V>, a: Placed<V>, b: Placed<V>)
    ensures PlainAll(WithBoth(q, a, b))[|q.left|] == Plain(a) && PlainAll(WithBoth(q, a, b))[|q.left| + 1] == Plain(b)
    ensures |PlainAll(WithBoth(q, a, b))| == |q.left| + |q.right| + 2
  {
    WithBothNames(q, a, b);
  }

  lemma RightRepairs<V>(path: seq<PStep<V>>, t: Placed<V>, q: PStep<V>, a: Placed<V>, lim: Limits, h: nat)
    requires Neighbouring(path, t, q, a, t) && LimitsOk(lim) && ShapedPair(q, a, t, h) && |path[|path| - 1].left| > 0
    requires |q.left| == |path[|path| - 1].left| - 1 && Size(Plain(a)) > MinSize(Plain(a), lim)
    ensures S.Alike(a, t) && PSize(a) > 1 && ParentIs(path, q, a, t, lim, h, RightMoved(q, a, t))
  {
    var r := ShiftRight(Plain(a), q.keys[|q.left|], Plain(t), h);
    S.PlainRight(a, q.keys[|q.left|], t, h);
    PairSizes(q, a, t);
    var r' := S.MoveRight(a, q.keys[|q.left|], t);
    ShiftedIs(q, a, t, r'.0, r'.1, r'.2, h);
    hide S.MoveRight, ShiftRight, Shifted, WithBoth, PlainAll, Plain, Shaped, S.Alike;
  }

  lemma LeftRepairs<V>(path: seq<PStep<V>>, t: Placed<V>, q: PStep<V>, b: Placed<V>, lim: Limits, h: nat)
    requires Neighbouring(path, t, q, t, b) && LimitsOk(lim) && ShapedPair(q, t, b, h)
             && |path[|path| - 1].left| == |q.left| == 0
    requires Size(Plain(b)) > MinSize(Plain(b), lim)
    ensures S.Alike(t, b) && PSize(b) > 1 && ParentIs(path, q, t, b, lim, h, LeftMoved(q, t, b))
  {
    var r := ShiftLeft(Plain(t), q.keys[|q.left|], Plain(b), h);
    S.PlainLeft(t, q.keys[|q.left|], b, h);
    PairSizes(q, t, b);
    var r' := S.MoveLeft(t, q.keys[|q.left|], b);
    ShiftedIs(q, t, b, r'.0, r'.1, r'.2, h);
    hide S.MoveLeft, ShiftLeft, Shifted, WithBoth, PlainAll, Plain, Shaped, S.Alike;
  }

  lemma JoinRepairs<V>(path: seq<PStep<V>>, t: Placed<V>, q: PStep<V>, a: Placed<V>, b: Placed<V>, lim: Limits, h: nat)
    requires Neighbouring(path, t, q, a, b) && LimitsOk(lim) && ShapedPair(q, a, b, h)
    requires var i := |path[|path| - 1].left|;
             if i > 0 then |q.left| == i - 1 && Size(Plain(a)) <= MinSize(Plain(a), lim)
             else |q.left| == 0 && Size(Plain(b)) <= MinSize(Plain(b), lim)
    ensures S.Alike(a, b) && ParentIs(path, q, a, b, lim, h, Joined(q, a, b))
  {
    S.PlainJoin(a, q.keys[|q.left|], b, h);
    var c := Coalesce(Plain(a), q.keys[|q.left|], Plain(b), h);
    PairSizes(q, a, b);
    MergedIs(q, a, b, S.Join(a, q.keys[|q.left|], b), h);
    hide S.Join, Coalesce, Merged, WithBoth, PlainAll, Plain, Shaped, S.Alike, RemoveAt;
  }

  // ----- one level up -----

  lemma RepairUpStep<V>(path: seq<PStep<V>>, t: Placed<V>, q: PStep<V>, a: Placed<V>, b: Placed<V>, lim: Limits, h: nat,
                        p: Placed<V>)
    requires Neighbouring(path, t, q, a, b) && ParentIs(path, q, a, b, lim, h, p)
    requires ShapedPath(PlainPath(path), h) && Shaped(Plain(t), h) && Size(Plain(t)) < MinSize(Plain(t), lim)
    ensures var rest := path[..|path| - 1];
            && ShapedPath(PlainPath(rest), h + 1) && Shaped(Plain(p), h + 1)
            && RepairUp(PlainPath(path), Plain(t), lim, h) == RepairUp(PlainPath(rest), Plain(p), lim, h + 1)
  {
    var s, rest := path[|path| - 1], path[..|path| - 1];
    assert PlainPath(path)[|path| - 1] == PlainStep(s) && PlainPath(path)[..|path| - 1] == PlainPath(rest);
    PairPlain(path, t, q, a, b);
    PairShaped(path, t, q, a, b, h);
    hide PlainAll, WithBoth, Shaped, ShapedStep, Repair, Plain;
  }

  lemma RootStays<V>(path: seq<PStep<V>>, t: Placed<V>, p: Placed<V>)
    requires path != [] && p.id == path[|path| - 1].id
    ensures PPlug(path, t).id == PPlug(path[..|path| - 1], p).id
  {
    RootId(path, t);
    RootId(path[..|path| - 1], p);
  }

  /** A node borrowed from its neighbour: the parent is as large as before, so nothing changes above it. */
  lemma ShiftEnds<V>(pages: Pages<V>, pages': Pages<V>, path: seq<PStep<V>>, t: Placed<V>, q: PStep<V>, a: Placed<V>,
                     b: Placed<V>, lim: Limits, h: nat,
                     root: int, extra: set<int>, p: Placed<V>)
    requires Shrunk(pages, path, t, lim, h, root, extra) && Neighbouring(path, t, q, a, b)
             && ParentIs(path, q, a, b, lim, h, p)
    requires Size(Plain(t)) < MinSize(Plain(t), lim) && p.PNode? && p.id == q.id && |p.children| == |q.keys| + 1
    requires HeldBut(pages', PPlug(path[..|path| - 1], p), extra)
    ensures Ended(pages', root, Some(PPlug(path[..|path| - 1], p)), extra)
            && RepairedTo(path, t, lim, h, Some(PPlug(path[..|path| - 1], p)))
  {
    var rest := path[..|path| - 1];
    RepairUpStep(path, t, q, a, b, lim, h, p);
    RootStays(path, t, p);
    assert PlainPath(path)[|path| - 1].keys == q.keys;
    assert Size(Plain(p)) == |q.keys| + 1 >= if rest == [] then 2 else NodeMin(lim);
    hide HeldBut, ParentIs, Neighbouring, PPlug, PlainPath, ShapedPath, Shaped, FullPath, RepairUp;
    RepairStops(rest, p, lim, h + 1);
  }

  /** A node large enough ends the repair. */
  lemma RepairStops<V>(path: seq<PStep<V>>, p: Placed<V>, lim: Limits, h: nat)
    requires LimitsOk(lim) && ShapedPath(PlainPath(path), h) && Shaped(Plain(p), h) && p.PNode?
    requires Size(Plain(p)) >= if path == [] then 2 else NodeMin(lim)
    ensures RepairUp(PlainPath(path), Plain(p), lim, h) == Some(Plain(PPlug(path, p)))
  {
    PlainPlug(path, p);
    hide PPlug, PlainPath, ShapedPath, Shaped;
  }

  /** Neighbours merged: the parent has become smaller. */
  lemma MergeGoesOn<V>(pages: Pages<V>, pages': Pages<V>, path: seq<PStep<V>>, t: Placed<V>, q: PStep<V>, a: Placed<V>,
                       b: Placed<V>, lim: Limits, h: nat,
                       root: int, extra: set<int>, extra': set<int>, p: Placed<V>)
    requires Shrunk(pages, path, t, lim, h, root, extra) && Neighbouring(path, t, q, a, b)
             && ParentIs(path, q, a, b, lim, h, p)
    requires Size(Plain(t)) < MinSize(Plain(t), lim) && p.id == q.id
             && HeldBut(pages', PPlug(path[..|path| - 1], p), extra')
    ensures Shrunk(pages', path[..|path| - 1], p, lim, h + 1, root, extra')
  {
    var rest := path[..|path| - 1];
    RepairUpStep(path, t, q, a, b, lim, h, p);
    RootStays(path, t, p);
    assert PlainPath(path)[..|path| - 1] == PlainPath(rest);
    assert FullPath(PlainPath(rest), lim);
    hide HeldBut, ParentIs, Neighbouring, PPlug, PlainPath, ShapedPath, Shaped, FullPath;
  }

  lemma MergeMeans<V>(pages: Pages<V>, path: seq<PStep<V>>, t: Placed<V>, q: PStep<V>, a: Placed<V>, b: Placed<V>,
                      lim: Limits, h: nat,
                      root: int, extra: set<int>, p: Placed<V>, t': Option<Placed<V>>)
    requires Shrunk(pages, path, t, lim, h, root, extra) && Neighbouring(path, t, q, a, b)
             && ParentIs(path, q, a, b, lim, h, p)
    requires Size(Plain(t)) < MinSize(Plain(t), lim) && RepairedTo(path[..|path| - 1], p, lim, h + 1, t')
    ensures RepairedTo(path, t, lim, h, t')
  {
    RepairUpStep(path, t, q, a, b, lim, h, p);
    hide HeldBut, ParentIs, Neighbouring, PPlug, PlainPath, ShapedPath, Shaped, FullPath;
  }

  // ----- the moves on pages -----

  /** The tree with two neighbours. */
  ghost function TreeWith<V>(rest: seq<PStep<V>>, q: PStep<V>, a: Placed<V>, b: Placed<V>): Placed<V> {
    PPlug(rest, PNode(q.id, q.keys, WithBoth(q, a, b)))
  }

  /** What the moves see of the parent and of the neighbours. */
  ghost predicate PairSeen<V>(pages: Pages<V>, rest: seq<PStep<V>>, q: PStep<V>, a: Placed<V>, b: Placed<V>) {
    && S.Siblings(pages, a.id, b.id) && PageSize(pages[a.id]) == PSize(a) && PageSize(pages[b.id]) == PSize(b)
    && pages[a.id] == S.PageOf(a, q.id) && pages[b.id] == S.PageOf(b, q.id)
    && q.id in pages && pages[q.id] == InternalPage(ParentOf(rest), q.keys,
                                                    IdsOf(q.left) + [a.id, b.id] + IdsOf(q.right))
    && |q.left| < |q.keys|
  }

  lemma PairOnPages<V>(pages: Pages<V>, rest: seq<PStep<V>>, q: PStep<V>, a: Placed<V>, b: Placed<V>, extra: set<int>)
    requires HeldBut(pages, TreeWith(rest, q, a, b), extra) && S.Alike(a, b) && |q.left| < |q.keys|
    ensures TwoNodes(pages, q.id, a, b) && PairSeen(pages, rest, q, a, b)
  {
    PairTaken(pages, rest, q, a, b);
    WithBothNames(q, a, b);
    hide Rep, RepAll, RepPath, Distinct, DistinctPath, Ids, AllIds, PathIds, PPlug, WithBoth, IdsOf, S.Alike,
         S.Siblings, S.PageOf, PSize, PageSize;
    S.AreSiblings(pages, q.id, a, b);
  }

  lemma RightHeld<V>(pages: Pages<V>, rest: seq<PStep<V>>, q: PStep<V>, a: Placed<V>, b: Placed<V>, extra: set<int>)
    requires HeldBut(pages, TreeWith(rest, q, a, b), extra) && S.Alike(a, b) && |q.left| < |q.keys| && PSize(a) > 1
    ensures PairSeen(pages, rest, q, a, b)
    ensures var r := S.MoveRight(a, q.keys[|q.left|], b);
            var pages1 := S.RightPages(pages, a.id, b.id, q.keys[|q.left|]);
            && HeldBut(pages1[q.id := InternalPage(ParentOf(rest), q.keys[|q.left| := r.1],
                                                   IdsOf(q.left) + [a.id, b.id] + IdsOf(q.right))],
                       PPlug(rest, RightMoved(q, a, b)), extra)
            && pages1.Keys == pages.Keys
  {
    PairOnPages(pages, rest, q, a, b, extra);
    var r := S.MoveRight(a, q.keys[|q.left|], b);
    S.GoesRight(pages, q.id, a, q.keys[|q.left|], b);
    WithBothNames(q, r.0, r.2);
    hide HeldBut, TwoNodes, Untouched, WithBoth, Ids, Links, PPlug, IdsOf, S.RightPages, S.MoveRight, S.Siblings,
         S.PageOf;
    PairHeld(pages, S.RightPages(pages, a.id, b.id, q.keys[|q.left|]), rest, q, a, b, r.0, r.2, q.keys[|q.left| := r.1],
             extra);
  }

  lemma LeftHeld<V>(pages: Pages<V>, rest: seq<PStep<V>>, q: PStep<V>, a: Placed<V>, b: Placed<V>, extra: set<int>)
    requires HeldBut(pages, TreeWith(rest, q, a, b), extra) && S.Alike(a, b) && |q.left| < |q.keys| && PSize(b) > 1
    ensures PairSeen(pages, rest, q, a, b)
    ensures var r := S.MoveLeft(a, q.keys[|q.left|], b);
            var pages1 := S.LeftPages(pages, a.id, b.id, q.keys[|q.left|]);
            && HeldBut(pages1[q.id := InternalPage(ParentOf(rest), q.keys[|q.left| := r.1],
                                                   IdsOf(q.left) + [a.id, b.id] + IdsOf(q.right))],
                       PPlug(rest, LeftMoved(q, a, b)), extra)
            && pages1.Keys == pages.Keys
  {
    PairOnPages(pages, rest, q, a, b, extra);
    var r := S.MoveLeft(a, q.keys[|q.left|], b);
    S.GoesLeft(pages, q.id, a, q.keys[|q.left|], b);
    WithBothNames(q, r.0, r.2);
    hide HeldBut, TwoNodes, Untouched, WithBoth, Ids, Links, PPlug, IdsOf, S.LeftPages, S.MoveLeft, S.Siblings,
         S.PageOf;
    PairHeld(pages, S.LeftPages(pages, a.id, b.id, q.keys[|q.left|]), rest, q, a, b, r.0, r.2, q.keys[|q.left| := r.1],
             extra);
  }

  lemma JoinHeld<V>(pages: Pages<V>, rest: seq<PStep<V>>, q: PStep<V>, a: Placed<V>, b: Placed<V>, extra: set<int>)
    requires HeldBut(pages, TreeWith(rest, q, a, b), extra) && S.Alike(a, b) && |q.left| < |q.keys|
    ensures PairSeen(pages, rest, q, a, b)
    ensures var pages1 := S.JoinPages(pages, a.id, b.id, q.keys[|q.left|]);
            && HeldBut(pages1[q.id := InternalPage(ParentOf(rest), RemoveAt(q.keys, |q.left|),
                                                   IdsOf(q.left) + [a.id] + IdsOf(q.right))],
                       PPlug(rest, Joined(q, a, b)), extra + {b.id})
            && pages1.Keys == pages.Keys
  {
    PairOnPages(pages, rest, q, a, b, extra);
    var c := S.Join(a, q.keys[|q.left|], b);
    S.GoesAll(pages, q.id, a, q.keys[|q.left|], b);
    hide HeldBut, TwoNodes, Untouched, WithBoth, Ids, Links, PPlug, IdsOf, S.JoinPages, S.Join, S.Emptied, S.Siblings,
         S.PageOf, LinksJoin, RemoveAt;
    MergedHeld(pages, S.JoinPages(pages, a.id, b.id, q.keys[|q.left|]), rest, q, a, b, c, S.Emptied(b),
               RemoveAt(q.keys, |q.left|), extra);
  }

  /** A node that is too small and its neighbour, in the tree and on pages. */
  ghost predicate Beside<V>(pages: Pages<V>, path: seq<PStep<V>>, t: Placed<V>, q: PStep<V>, a: Placed<V>, b: Placed<V>,
                            lim: Limits, h: nat, extra: set<int>) {
    && Neighbouring(path, t, q, a, b) && ShapedPair(q, a, b, h) && S.Alike(a, b) && LimitsOk(lim)
    && HeldBut(pages, TreeWith(path[..|path| - 1], q, a, b), extra) && PairSeen(pages, path[..|path| - 1], q, a, b)
    && Size(Plain(t)) < MinSize(Plain(t), lim)
  }

  lemma BesideIs<V>(pages: Pages<V>, path: seq<PStep<V>>, t: Placed<V>, q: PStep<V>, a: Placed<V>, b: Placed<V>,
                    lim: Limits, h: nat, root: int, extra: set<int>)
    requires Shrunk(pages, path, t, lim, h, root, extra) && Neighbouring(path, t, q, a, b)
             && Size(Plain(t)) < MinSize(Plain(t), lim)
    ensures Beside(pages, path, t, q, a, b, lim, h, extra)
    ensures PageSize(pages[a.id]) == Size(Plain(a)) && MinPageSize(pages[a.id], lim) == MinSize(Plain(a), lim)
    ensures PageSize(pages[b.id]) == Size(Plain(b)) && MinPageSize(pages[b.id], lim) == MinSize(Plain(b), lim)
  {
    PlugPair(path, t, q, a, b);
    PairShaped(path, t, q, a, b, h);
    S.ShapedAlike(a, b, h);
    hide HeldBut, Neighbouring, PPlug, WithBoth, PlainPath, ShapedPath, Shaped, FullPath, LimitsOk, S.Siblings,
         PlainAll;
    PairOnPages(pages, path[..|path| - 1], q, a, b, extra);
  }

  lemma LeftPair<V>(pages: Pages<V>, path: seq<PStep<V>>, t: Placed<V>, lim: Limits, h: nat, root: int, extra: set<int>)
    returns (q: PStep<V>, a: Placed<V>)
    requires Shrunk(pages, path, t, lim, h, root, extra) && Size(Plain(t)) < MinSize(Plain(t), lim) && path != []
             && path[|path| - 1].left != []
    ensures Beside(pages, path, t, q, a, t, lim, h, extra) && |q.left| == |path[|path| - 1].left| - 1
            && q.id == path[|path| - 1].id
    ensures PageSize(pages[a.id]) == Size(Plain(a)) && MinPageSize(pages[a.id], lim) == MinSize(Plain(a), lim)
  {
    ShrunkOnPage(pages, path, t, lim, h, root, extra);
    hide Shrunk, Beside, Neighbouring;
    var s := path[|path| - 1];
    LeftNeighbour(path, t);
    q, a := PStep(s.id, s.keys, s.left[..|s.left| - 1], s.right), s.left[|s.left| - 1];
    BesideIs(pages, path, t, q, a, t, lim, h, root, extra);
  }

  lemma RightPair<V>(pages: Pages<V>, path: seq<PStep<V>>, t: Placed<V>, lim: Limits, h: nat, root: int,
                     extra: set<int>) returns (q: PStep<V>, b: Placed<V>)
    requires Shrunk(pages, path, t, lim, h, root, extra) && Size(Plain(t)) < MinSize(Plain(t), lim) && path != []
             && path[|path| - 1].left == []
    ensures Beside(pages, path, t, q, t, b, lim, h, extra) && q.left == [] && q.id == path[|path| - 1].id
    ensures PageSize(pages[b.id]) == Size(Plain(b)) && MinPageSize(pages[b.id], lim) == MinSize(Plain(b), lim)
  {
    ShrunkOnPage(pages, path, t, lim, h, root, extra);
    hide Shrunk, Beside, Neighbouring;
    var s := path[|path| - 1];
    RightNeighbour(path, t);
    q, b := PStep(s.id, s.keys, [], s.right[1..]), s.right[0];
    BesideIs(pages, path, t, q, t, b, lim, h, root, extra);
  }

  /** The pair on pages, as the moves need it. */
  lemma BesideSeen<V>(pages: Pages<V>, path: seq<PStep<V>>, t: Placed<V>, q: PStep<V>, a: Placed<V>, b: Placed<V>,
                      lim: Limits, h: nat, extra: set<int>)
    requires Beside(pages, path, t, q, a, b, lim, h, extra)
    ensures S.Siblings(pages, a.id, b.id) && q.id in pages && |q.left| < |q.keys|
    ensures pages[q.id] == InternalPage(ParentOf(path[..|path| - 1]), q.keys,
                                        IdsOf(q.left) + [a.id, b.id] + IdsOf(q.right))
    ensures pages[q.id].children[|q.left|] == a.id && pages[q.id].children[|q.left| + 1] == b.id
  {
  }

  /** An item came from the left neighbour. */
  lemma BorrowedRight<V>(pages: Pages<V>, path: seq<PStep<V>>, t: Placed<V>, q: PStep<V>, a: Placed<V>, lim: Limits,
                         h: nat, root: int, extra: set<int>)
    returns (t': Placed<V>)
    requires Shrunk(pages, path, t, lim, h, root, extra) && Beside(pages, path, t, q, a, t, lim, h, extra)
    requires |q.left| == |path[|path| - 1].left| - 1 && Size(Plain(a)) > MinSize(Plain(a), lim)
    ensures S.Siblings(pages, a.id, t.id) && PageSize(pages[a.id]) > 1 && q.id in pages && |q.left| < |q.keys|
    ensures var pages1 := S.RightPages(pages, a.id, t.id, q.keys[|q.left|]);
            var page := InternalPage(pages[q.id].parent, q.keys[|q.left| := S.LastKey(pages[a.id])],
                                     pages[q.id].children);
            && Ended(pages1[q.id := page], root, Some(t'), extra) && pages1.Keys == pages.Keys
    ensures RepairedTo(path, t, lim, h, Some(t'))
  {
    RightRepairs(path, t, q, a, lim, h);
    var rest, p := path[..|path| - 1], RightMoved(q, a, t);
    RightHeld(pages, rest, q, a, t, extra);
    assert |p.children| == |q.keys| + 1;
    assert S.MoveRight(a, q.keys[|q.left|], t).1 == S.LastKey(pages[a.id]);
    t' := PPlug(rest, p);
    hide Shrunk, Neighbouring, ParentIs, HeldBut, Ended, RepairedTo, S.RightPages, RightMoved, S.MoveRight, S.Siblings,
         PPlug, TreeWith, S.Alike, ShapedPair, S.PageOf;
    var pages' := S.RightPages(pages, a.id, t.id, q.keys[|q.left|])
                    [q.id := InternalPage(pages[q.id].parent, q.keys[|q.left| := S.LastKey(pages[a.id])],
                                          pages[q.id].children)];
    ShiftEnds(pages, pages', path, t, q, a, t, lim, h, root, extra, p);
  }

  /** An item came from the right neighbour. */
  lemma BorrowedLeft<V>(pages: Pages<V>, path: seq<PStep<V>>, t: Placed<V>, q: PStep<V>, b: Placed<V>, lim: Limits,
                        h: nat, root: int, extra: set<int>)
    returns (t': Placed<V>)
    requires Shrunk(pages, path, t, lim, h, root, extra) && Beside(pages, path, t, q, t, b, lim, h, extra)
    requires |q.left| == |path[|path| - 1].left| == 0 && Size(Plain(b)) > MinSize(Plain(b), lim)
    ensures S.Siblings(pages, t.id, b.id) && PageSize(pages[b.id]) > 1 && q.id in pages && |q.left| < |q.keys|
    ensures var pages1 := S.LeftPages(pages, t.id, b.id, q.keys[|q.left|]);
            var page := InternalPage(pages[q.id].parent, q.keys[|q.left| := S.SecondKey(pages[b.id])],
                                     pages[q.id].children);
            && Ended(pages1[q.id := page], root, Some(t'), extra) && pages1.Keys == pages.Keys
    ensures RepairedTo(path, t, lim, h, Some(t'))
  {
    LeftRepairs(path, t, q, b, lim, h);
    var rest, p := path[..|path| - 1], LeftMoved(q, t, b);
    LeftHeld(pages, rest, q, t, b, extra);
    assert |p.children| == |q.keys| + 1;
    assert S.MoveLeft(t, q.keys[|q.left|], b).1 == S.SecondKey(pages[b.id]);
    t' := PPlug(rest, p);
    hide Shrunk, Neighbouring, ParentIs, HeldBut, Ended, RepairedTo, S.LeftPages, LeftMoved, S.MoveLeft, S.Siblings,
         PPlug, TreeWith, S.Alike, ShapedPair, S.PageOf;
    var pages' := S.LeftPages(pages, t.id, b.id, q.keys[|q.left|])
                    [q.id := InternalPage(pages[q.id].parent, q.keys[|q.left| := S.SecondKey(pages[b.id])],
                                          pages[q.id].children)];
    ShiftEnds(pages, pages', path, t, q, t, b, lim, h, root, extra, p);
  }

  lemma SecondRemoved<T>(l: seq<T>, x: T, y: T, r: seq<T>)
    ensures RemoveAt(l + [x, y] + r, |l| + 1) == l + [x] + r
  {
  }

  /** The neighbours were merged, and the parent is to be looked at. */
  lemma MergedInto<V>(pages: Pages<V>, path: seq<PStep<V>>, t: Placed<V>, q: PStep<V>, a: Placed<V>, b: Placed<V>,
                      lim: Limits, h: nat, root: int, extra: set<int>)
    returns (p: Placed<V>)
    requires Shrunk(pages, path, t, lim, h, root, extra) && Beside(pages, path, t, q, a, b, lim, h, extra)
    requires var i := |path[|path| - 1].left|;
             if i > 0 then |q.left| == i - 1 && Size(Plain(a)) <= MinSize(Plain(a), lim)
             else |q.left| == 0 && Size(Plain(b)) <= MinSize(Plain(b), lim)
    ensures S.Siblings(pages, a.id, b.id) && q.id in pages && |q.left| < |q.keys|
            && |q.left| + 1 < |pages[q.id].children|
    ensures var pages1 := S.JoinPages(pages, a.id, b.id, q.keys[|q.left|]);
            var page := InternalPage(pages[q.id].parent, RemoveAt(q.keys, |q.left|),
                                     RemoveAt(pages[q.id].children, |q.left| + 1));
            && Shrunk(pages1[q.id := page], path[..|path| - 1], p, lim, h + 1, root, extra + {b.id})
            && pages1.Keys == pages.Keys
    ensures p.id == q.id && ParentIs(path, q, a, b, lim, h, p) && S.Alike(a, b) && p == Joined(q, a, b)
  {
    JoinRepairs(path, t, q, a, b, lim, h);
    p := Joined(q, a, b);
    JoinHeld(pages, path[..|path| - 1], q, a, b, extra);
    SecondRemoved(IdsOf(q.left), a.id, b.id, IdsOf(q.right));
    hide Shrunk, Neighbouring, ParentIs, HeldBut, S.JoinPages, Joined, S.Siblings, PPlug, TreeWith, S.Alike, ShapedPair,
         RemoveAt, S.PageOf, IdsOf;
    var pages' := S.JoinPages(pages, a.id, b.id, q.keys[|q.left|])
                    [q.id := InternalPage(pages[q.id].parent, RemoveAt(q.keys, |q.left|),
                                          RemoveAt(pages[q.id].children, |q.left| + 1))];
    MergeGoesOn(pages, pages', path, t, q, a, b, lim, h, root, extra, extra + {b.id}, p);
  }

  lemma MergedMeans<V>(pages: Pages<V>, path: seq<PStep<V>>, t: Placed<V>, q: PStep<V>, a: Placed<V>, b: Placed<V>,
                       lim: Limits, h: nat,
                       root: int, extra: set<int>, p: Placed<V>, t': Option<Placed<V>>)
    requires Shrunk(pages, path, t, lim, h, root, extra) && Beside(pages, path, t, q, a, b, lim, h, extra)
             && ParentIs(path, q, a, b, lim, h, p)
    requires RepairedTo(path[..|path| - 1], p, lim, h + 1, t')
    ensures RepairedTo(path, t, lim, h, t')
  {
    hide Shrunk, Neighbouring, ParentIs, RepairedTo;
    MergeMeans(pages, path, t, q, a, b, lim, h, root, extra, p, t');
  }

  // ----- latches -----

  /** The pages a removal may change on its way up. */
  ghost function Grasp<V>(path: seq<PStep<V>>, k: nat, id: int): set<int> {
    {id} + Steps(path, k) + StepNeighbours(path, k)
  }

  /** A node that is too small is not where the removal stops; its parent and its neighbour are within reach. */
  lemma StopsHigher<V>(pages: Pages<V>, path: seq<PStep<V>>, t: Placed<V>, k: nat, safe: bool, q: PStep<V>,
                       a: Placed<V>, b: Placed<V>, lim: Limits, h: nat, extra: set<int>)
    requires Beside(pages, path, t, q, a, b, lim, h, extra) && RemoveStops(path, t, k, safe, lim)
    ensures k < |path| && RemoveStops(path[..|path| - 1], Joined(q, a, b), k, safe, lim)
    ensures {q.id, a.id, b.id} <= Grasp(path, k, t.id) && Grasp(path[..|path| - 1], k, q.id) <= Grasp(path, k, t.id)
  {
    var s, rest := path[|path| - 1], path[..|path| - 1];
    assert PSize(t) == Size(Plain(t)) && !Enough(path, t, lim);
    StepsUp(path, k);
    NeighbourIs(path, t, q, a, b);
    assert |Joined(q, a, b).children| == |q.keys|;
  }

  lemma NeighbourIs<V>(path: seq<PStep<V>>, t: Placed<V>, q: PStep<V>, a: Placed<V>, b: Placed<V>)
    requires Neighbouring(path, t, q, a, b)
    ensures var s := path[|path| - 1];
            && {a.id, b.id} == {t.id, Neighbour(s)} && |q.left| + |q.right| + 1 == |s.left| + |s.right|
  {
    var s := path[|path| - 1];
    var cs, cs' := s.left + [t] + s.right, q.left + [a, b] + q.right;
    assert cs'[|q.left|] == a && cs'[|q.left| + 1] == b;
    if b == t && |q.left| == |s.left| - 1 {
      assert cs[|s.left| - 1] == s.left[|s.left| - 1];
    } else {
      assert cs[1] == s.right[0];
    }
  }

  /** A node that is large enough, or a root that stays. */
  lemma StopsHere<V>(path: seq<PStep<V>>, t: Placed<V>, k: nat, safe: bool, lim: Limits)
    requires RemoveStops(path, t, k, safe, lim) && path == [] && safe
    ensures if t.PLeaf? then t.entries != [] else |t.children| != 1
  {
  }

  lemma InGrasp<V>(path: seq<PStep<V>>, k: nat, id: int)
    ensures id in Grasp(path, k, id)
  {
  }

  lemma GraspIs<V>(tree: Placed<V>, key: int, lim: Limits, path: seq<PStep<V>>, leaf: Placed<V>, k: nat,
                   rootLatched: bool)
    requires LatchedAt(tree, key, DELETE, lim, path, leaf, k, rootLatched)
    ensures Grasp(path, k, leaf.id) <= LatchedIds(tree, key, k) + NeighbourIds(tree, key, k)
  {
    LatchedAre(tree, key, DELETE, lim, path, leaf, k, rootLatched);
    NeighboursAre(tree, key, DELETE, lim, path, leaf, k, rootLatched);
    hide LatchedAt, LatchedIds, NeighbourIds, Steps, StepNeighbours;
  }

  lemma RemoveClimbs<V>(tree: Placed<V>, key: int, lim: Limits, height: nat, path: seq<PStep<V>>, leaf: Placed<V>,
                        leaf': Placed<V>, k: nat, rootLatched: bool)
    requires FoundLeaf(tree, key, height, path, leaf, lim)
             && LatchedAt(tree, key, DELETE, lim, path, leaf, k, rootLatched)
    requires leaf.PLeaf? && leaf'.PLeaf? && |leaf'.entries| + 1 == |leaf.entries|
    ensures RemoveStops(path, leaf', k, !rootLatched, lim)
  {
    PathSizes(path, 0);
    RemoveLatched(tree, key, lim, path, leaf, leaf', k, rootLatched);
  }

  lemma KeptThree<V>(pages: Pages<V>, pages': Pages<V>, i: int, j: int, p: int, page: PageNode<V>, all: set<int>)
    requires Kept(pages, pages', {i, j}) && {p, i, j} <= all
    ensures Kept(pages, pages'[p := page], all)
  {
  }

  lemma KeptDropped<V>(pages: Pages<V>, pages': Pages<V>, gone: set<int>, all: set<int>)
    requires Kept(pages, pages', all) && gone <= all
    ensures Kept(pages, pages' - gone, all)
  {
  }

  // ----- the pages to be deleted -----

  lemma NoneAdded(s: set<int>)
    ensures s + {} == s
  {
  }

  lemma OneMore(deleted: set<int>, pending: set<int>, k: int)
    ensures deleted + pending + {k} == deleted + (pending + {k})
  {
  }

  /** The node's page stays pending, the parent's is collected. */
  lemma Collected(deleted: set<int>, pending: set<int>, k: int, up: bool, p: int)
    ensures deleted + (pending + {k}) + (if up then {p} else {}) ==
            (if up then deleted + {p} else deleted) + pending + {k}
  {
  }

  /** Both are collected. */
  lemma CollectedToo(deleted: set<int>, pending: set<int>, k: int, up: bool, p: int)
    ensures deleted + (pending + {k}) + (if up then {p} else {}) ==
            (if up then deleted + {k} + {p} else deleted + {k}) + pending + {}
  {
  }

  // ----- the whole removal -----

  lemma LeafShrinks<V>(pages: Pages<V>, tree: Placed<V>, key: int, height: nat, path: seq<PStep<V>>, leaf: Placed<V>,
                       lim: Limits)
    requires LimitsOk(lim) && Held(pages, tree) && FoundLeaf(tree, key, height, path, leaf, lim)
    ensures var es := SE.Delete(leaf.entries, key);
            Shrunk(pages[leaf.id := LeafPage(ParentOf(path), leaf.next, es)], path, PLeaf(leaf.id, leaf.next, es), lim,
                   0, tree.id, {})
  {
    var leaf' := PLeaf(leaf.id, leaf.next, SE.Delete(leaf.entries, key));
    LeafHeld(pages, path, leaf, leaf');
    RootId(path, leaf);
    RootId(path, leaf');
    hide TreePlaced, Ids, Links, Chained, PPlug, PlainPath, ShapedPath, FullPath;
  }

  ghost function ShrunkHeight<V>(tree: Placed<V>, key: int, l: Limits, height: nat): nat
    requires LimitsOk(l) && Shaped(Plain(tree), height)
  {
    HeightAfterRemove(Some(Plain(tree)), key, l, height)
  }

  /** The tree after a removal that was done at a leaf and repaired upwards. */
  lemma Removed<V>(tree: Placed<V>, t: Option<Placed<V>>, path: seq<PStep<V>>, leaf: Placed<V>, key: int, l: Limits,
                   height: nat)
    requires SoundRoot(Some(Plain(tree)), l, height) && FoundLeaf(tree, key, height, path, leaf, l)
    requires RepairedTo(path, PLeaf(leaf.id, leaf.next, SE.Delete(leaf.entries, key)), l, 0, t)
    ensures LimitsOk(l) && Shaped(Plain(tree), height)
    ensures SoundRoot(PlainOpt(t), l, ShrunkHeight(tree, key, l, height))
    ensures EntriesOf(t) == SE.Delete(EntriesOf(Some(tree)), key)
  {
    PlainPlug(path, leaf);
    RemoveByPath(PlainPath(path), Plain(leaf), key, l, 0);
    RemoveRootSound(Some(Plain(tree)), key, l, height);
    assert RemoveFrom(Plain(leaf), key, l, 0) == Leaf(SE.Delete(leaf.entries, key));
    hide PPlug, PlainPath, ShapedPath, Plug, SoundRoot, SE.Delete, Entries, RepairUp, RemoveFrom, RemoveRoot, Shaped,
         FullPath, Leads, HeightAfterRemove;
  }

  /** The pages no longer used are deleted. */
  lemma NowStoredBut<V>(limits: Limits, root: int, pages: Pages<V>, nextId: int, t: Option<Placed<V>>, height: nat,
                        extra: set<int>)
    requires LimitsOk(limits) && InRange(pages, nextId) && Ended(pages, root, t, extra)
             && SoundRoot(PlainOpt(t), limits, height)
    ensures Stored(limits, root, pages - extra, nextId, t, height)
  {
    assert InRange(pages - extra, nextId);
    if t.Some? {
      hide Held, SoundRoot, Plain, InRange, LimitsOk;
      DropPages(pages, t.value, extra);
      NowStored(limits, root, pages - extra, nextId, t.value, height);
    } else {
      assert pages - extra == map[];
    }
  }
}
