/**
 B+ trees on pages: every node is a page with the id of its parent, every leaf has the id of the next one.
 A placed tree says which page each node is on; `Rep` says that the pages hold it.
 */
module BPlusTreePages {
  import opened SortedEntries
  import opened BPlusTree
  import opened BPlusTreePaths

  const NO_PAGE := -1
  const HEADER_PAGE := 0

  /** An internal page keeps its separators apart from its children; the code has an unused first key. */
  datatype PageNode<V> =
    | LeafPage(parent: int, next: int, entries: seq<Entry<V>>)
    | InternalPage(parent: int, keys: seq<int>, children: seq<int>)

  type Pages<V> = map<int, PageNode<V>>

  datatype Placed<V> =
    | PLeaf(id: int, next: int, entries: seq<Entry<V>>)
    | PNode(id: int, keys: seq<int>, children: seq<Placed<V>>)

  function PageSize<V>(p: PageNode<V>): nat {
    if p.LeafPage? then |p.entries| else |p.children|
  }

  // ----- a placed tree -----

  ghost function PSize<V>(t: Placed<V>): nat {
    if t.PLeaf? then |t.entries| else |t.children|
  }

  ghost function Plain<V>(t: Placed<V>): Tree<V> {
    match t
    case PLeaf(_, _, es) => Leaf(es)
    case PNode(_, keys, cs) => Node(keys, PlainAll(cs))
  }

  ghost function PlainAll<V>(cs: seq<Placed<V>>): (r: seq<Tree<V>>)
    ensures |r| == |cs|
  {
    if cs == [] then [] else [Plain(cs[0])] + PlainAll(cs[1..])
  }

  ghost function IdsOf<V>(cs: seq<Placed<V>>): (r: seq<int>)
    ensures |r| == |cs|
  {
    if cs == [] then [] else [cs[0].id] + IdsOf(cs[1..])
  }

  lemma {:induction false} PlainAt<V>(cs: seq<Placed<V>>, i: nat)
    requires i < |cs|
    ensures PlainAll(cs)[i] == Plain(cs[i]) && IdsOf(cs)[i] == cs[i].id
  {
    if i > 0 { PlainAt(cs[1..], i - 1); }
  }

  /** The pages a tree is on. */
  ghost function Ids<V>(t: Placed<V>): set<int> {
    match t
    case PLeaf(id, _, _) => {id}
    case PNode(id, _, cs) => {id} + AllIds(cs)
  }

  ghost function AllIds<V>(cs: seq<Placed<V>>): set<int> {
    if cs == [] then {} else Ids(cs[0]) + AllIds(cs[1..])
  }

  /** No page is used twice. */
  ghost predicate Distinct<V>(t: Placed<V>) {
    match t
    case PLeaf(_, _, _) => true
    case PNode(id, _, cs) => id !in AllIds(cs) && DistinctAll(cs)
  }

  ghost predicate DistinctAll<V>(cs: seq<Placed<V>>) {
    cs == [] || (Distinct(cs[0]) && Ids(cs[0]) !! AllIds(cs[1..]) && DistinctAll(cs[1..]))
  }

  lemma OwnId<V>(t: Placed<V>)
    ensures t.id in Ids(t)
  {
  }

  lemma {:induction false} AllIdsConcat<V>(a: seq<Placed<V>>, b: seq<Placed<V>>)
    ensures AllIds(a + b) == AllIds(a) + AllIds(b)
  {
    if a == [] {
      assert a + b == b;
    } else {
      assert (a + b)[1..] == a[1..] + b;
      AllIdsConcat(a[1..], b);
    }
  }

  lemma {:induction false} DistinctConcat<V>(a: seq<Placed<V>>, b: seq<Placed<V>>)
    ensures DistinctAll(a + b) <==> DistinctAll(a) && DistinctAll(b) && AllIds(a) !! AllIds(b)
  {
    if a == [] {
      assert a + b == b;
    } else {
      assert (a + b)[1..] == a[1..] + b;
      DistinctConcat(a[1..], b);
      AllIdsConcat(a[1..], b);
    }
  }

  lemma {:induction false} IdAmong<V>(cs: seq<Placed<V>>, i: nat)
    requires i < |cs|
    ensures Ids(cs[i]) <= AllIds(cs) && cs[i].id in AllIds(cs)
  {
    OwnId(cs[i]);
    if i > 0 { IdAmong(cs[1..], i - 1); }
  }

  lemma {:induction false} PlainConcat<V>(a: seq<Placed<V>>, b: seq<Placed<V>>)
    ensures PlainAll(a + b) == PlainAll(a) + PlainAll(b) && IdsOf(a + b) == IdsOf(a) + IdsOf(b)
  {
    if a == [] {
      assert a + b == b;
    } else {
      assert (a + b)[1..] == a[1..] + b;
      PlainConcat(a[1..], b);
    }
  }

  lemma PlainOne<V>(t: Placed<V>)
    ensures PlainAll([t]) == [Plain(t)] && IdsOf([t]) == [t.id]
  {
    assert [t][1..] == [];
  }

  lemma PlainTwo<V>(l: Placed<V>, r: Placed<V>)
    ensures PlainAll([l, r]) == [Plain(l), Plain(r)] && IdsOf([l, r]) == [l.id, r.id]
  {
    assert [l, r] == [l] + [r];
    PlainConcat([l], [r]);
    PlainOne(l);
    PlainOne(r);
  }

  // ----- on pages -----

  ghost predicate Rep<V>(pages: Pages<V>, t: Placed<V>, parent: int) {
    t.id in pages &&
    match t
    case PLeaf(id, next, es) => pages[id] == LeafPage(parent, next, es)
    case PNode(id, keys, cs) =>
      && pages[id] == InternalPage(parent, keys, IdsOf(cs))
      && forall i :: 0 <= i < |cs| ==> Rep(pages, cs[i], id)
  }

  ghost predicate RepAll<V>(pages: Pages<V>, cs: seq<Placed<V>>, parent: int) {
    forall i :: 0 <= i < |cs| ==> Rep(pages, cs[i], parent)
  }

  /** The pages of `ids` are the same. */
  ghost predicate SameOn<V>(pages: Pages<V>, pages': Pages<V>, ids: set<int>) {
    forall i :: i in ids && i in pages ==> i in pages' && pages'[i] == pages[i]
  }

  lemma {:induction false} RepFrame<V>(pages: Pages<V>, pages': Pages<V>, t: Placed<V>, parent: int)
    requires Rep(pages, t, parent) && SameOn(pages, pages', Ids(t))
    ensures Rep(pages', t, parent)
  {
    OwnId(t);
    match t
    case PLeaf(_, _, _) =>
    case PNode(id, _, cs) =>
      forall i | 0 <= i < |cs| ensures Rep(pages', cs[i], id) {
        IdAmong(cs, i);
        RepFrame(pages, pages', cs[i], id);
      }
  }

  lemma RepAllFrame<V>(pages: Pages<V>, pages': Pages<V>, cs: seq<Placed<V>>, parent: int)
    requires RepAll(pages, cs, parent) && SameOn(pages, pages', AllIds(cs))
    ensures RepAll(pages', cs, parent)
  {
    forall i | 0 <= i < |cs| ensures Rep(pages', cs[i], parent) {
      IdAmong(cs, i);
      RepFrame(pages, pages', cs[i], parent);
    }
  }

  /** Giving the topmost page another parent. */
  lemma RepMoved<V>(pages: Pages<V>, t: Placed<V>, parent: int, parent': int)
    requires Rep(pages, t, parent) && Distinct(t)
    ensures Rep(pages[t.id := pages[t.id].(parent := parent')], t, parent')
  {
    var pages' := pages[t.id := pages[t.id].(parent := parent')];
    match t
    case PLeaf(_, _, _) =>
    case PNode(id, _, cs) =>
      forall i | 0 <= i < |cs| ensures Rep(pages', cs[i], id) {
        IdAmong(cs, i);
        RepFrame(pages, pages', cs[i], id);
      }
  }

  // ----- paths -----

  datatype PStep<V> = PStep(id: int, keys: seq<int>, left: seq<Placed<V>>, right: seq<Placed<V>>)

  ghost function PFill<V>(s: PStep<V>, t: Placed<V>): Placed<V> {
    PNode(s.id, s.keys, s.left + [t] + s.right)
  }

  ghost function PPlug<V>(path: seq<PStep<V>>, t: Placed<V>): Placed<V>
    decreases |path|
  {
    if path == [] then t else PPlug(path[..|path| - 1], PFill(path[|path| - 1], t))
  }

  ghost function PlainStep<V>(s: PStep<V>): Step<V> {
    Step(s.keys, PlainAll(s.left), PlainAll(s.right))
  }

  ghost function PlainPath<V>(path: seq<PStep<V>>): (r: seq<Step<V>>)
    ensures |r| == |path|
    decreases |path|
  {
    if path == [] then [] else PlainPath(path[..|path| - 1]) + [PlainStep(path[|path| - 1])]
  }

  lemma PlainFill<V>(s: PStep<V>, t: Placed<V>)
    ensures Plain(PFill(s, t)) == Fill(PlainStep(s), Plain(t))
  {
    PlainConcat(s.left + [t], s.right);
    PlainConcat(s.left, [t]);
    PlainOne(t);
  }

  lemma {:induction false} PlainPlug<V>(path: seq<PStep<V>>, t: Placed<V>)
    ensures Plain(PPlug(path, t)) == Plug(PlainPath(path), Plain(t))
    decreases |path|
  {
    if path != [] {
      var s, rest := path[|path| - 1], path[..|path| - 1];
      PlainFill(s, t);
      PlainPlug(rest, PFill(s, t));
      assert PlainPath(path)[..|path| - 1] == PlainPath(rest);
    }
  }

  /** The page above the end of a path. */
  ghost function ParentOf<V>(path: seq<PStep<V>>): int {
    if path == [] then NO_PAGE else path[|path| - 1].id
  }

  ghost predicate RepStep<V>(pages: Pages<V>, s: PStep<V>, parent: int, hole: int) {
    && s.id in pages && pages[s.id] == InternalPage(parent, s.keys, IdsOf(s.left) + [hole] + IdsOf(s.right))
    && RepAll(pages, s.left, s.id) && RepAll(pages, s.right, s.id)
  }

  ghost predicate RepPath<V>(pages: Pages<V>, path: seq<PStep<V>>, hole: int)
    decreases |path|
  {
    path == [] ||
    var s, rest := path[|path| - 1], path[..|path| - 1];
    RepStep(pages, s, ParentOf(rest), hole) && RepPath(pages, rest, s.id)
  }

  ghost function StepIds<V>(s: PStep<V>): set<int> {
    {s.id} + AllIds(s.left) + AllIds(s.right)
  }

  ghost function PathIds<V>(path: seq<PStep<V>>): set<int>
    decreases |path|
  {
    if path == [] then {} else PathIds(path[..|path| - 1]) + StepIds(path[|path| - 1])
  }

  ghost predicate DistinctStep<V>(s: PStep<V>) {
    && s.id !in AllIds(s.left) && s.id !in AllIds(s.right) && AllIds(s.left) !! AllIds(s.right)
    && DistinctAll(s.left) && DistinctAll(s.right)
  }

  ghost predicate DistinctPath<V>(path: seq<PStep<V>>)
    decreases |path|
  {
    path == [] ||
    var s, rest := path[|path| - 1], path[..|path| - 1];
    DistinctStep(s) && StepIds(s) !! PathIds(rest) && DistinctPath(rest)
  }

  lemma RepAllConcat<V>(pages: Pages<V>, a: seq<Placed<V>>, b: seq<Placed<V>>, parent: int)
    ensures RepAll(pages, a + b, parent) <==> RepAll(pages, a, parent) && RepAll(pages, b, parent)
  {
    hide Rep;
    assert forall i :: 0 <= i < |a| ==> (a + b)[i] == a[i];
    assert forall i :: 0 <= i < |b| ==> (a + b)[|a| + i] == b[i];
  }

  lemma RepNode<V>(pages: Pages<V>, id: int, keys: seq<int>, cs: seq<Placed<V>>, parent: int)
    ensures Rep(pages, PNode(id, keys, cs), parent)
            <==> id in pages && pages[id] == InternalPage(parent, keys, IdsOf(cs)) && RepAll(pages, cs, id)
  {
  }

  lemma FillRep<V>(pages: Pages<V>, s: PStep<V>, t: Placed<V>, parent: int)
    ensures Rep(pages, PFill(s, t), parent) <==> RepStep(pages, s, parent, t.id) && Rep(pages, t, s.id)
  {
    RepNode(pages, s.id, s.keys, s.left + [t] + s.right, parent);
    RepAllConcat(pages, s.left + [t], s.right, s.id);
    RepAllConcat(pages, s.left, [t], s.id);
    assert RepAll(pages, [t], s.id) <==> Rep(pages, t, s.id) by { hide Rep; assert [t][0] == t; }
    PlainConcat(s.left + [t], s.right);
    PlainConcat(s.left, [t]);
    PlainOne(t);
    hide Rep, RepAll, IdsOf, PlainAll;
  }

  lemma FillIds<V>(s: PStep<V>, t: Placed<V>)
    ensures Ids(PFill(s, t)) == StepIds(s) + Ids(t)
    ensures Distinct(PFill(s, t)) <==> DistinctStep(s) && Distinct(t) && StepIds(s) !! Ids(t)
  {
    AllIdsConcat(s.left + [t], s.right);
    AllIdsConcat(s.left, [t]);
    OneId(t);
    DistinctConcat(s.left + [t], s.right);
    DistinctConcat(s.left, [t]);
  }

  lemma OneId<V>(t: Placed<V>)
    ensures AllIds([t]) == Ids(t) && (DistinctAll([t]) <==> Distinct(t))
  {
    assert [t][1..] == [];
    assert AllIds([t][1..]) == {} && DistinctAll([t][1..]);
  }

  lemma {:induction false} PlugRep<V>(pages: Pages<V>, path: seq<PStep<V>>, t: Placed<V>)
    ensures Rep(pages, PPlug(path, t), NO_PAGE) <==> RepPath(pages, path, t.id) && Rep(pages, t, ParentOf(path))
    decreases |path|
  {
    if path != [] {
      var s, rest := path[|path| - 1], path[..|path| - 1];
      PlugRep(pages, rest, PFill(s, t));
      FillRep(pages, s, t, ParentOf(rest));
      hide Rep, RepStep;
    }
  }

  lemma {:induction false} PlugIds<V>(path: seq<PStep<V>>, t: Placed<V>)
    ensures Ids(PPlug(path, t)) == PathIds(path) + Ids(t)
    ensures Distinct(PPlug(path, t)) <==> DistinctPath(path) && Distinct(t) && PathIds(path) !! Ids(t)
    decreases |path|
  {
    if path != [] {
      var s, rest := path[|path| - 1], path[..|path| - 1];
      PlugIds(rest, PFill(s, t));
      FillIds(s, t);
      hide Ids, Distinct, StepIds, DistinctStep;
    }
  }

  lemma StepFrame<V>(pages: Pages<V>, pages': Pages<V>, s: PStep<V>, parent: int, hole: int)
    requires RepStep(pages, s, parent, hole) && SameOn(pages, pages', StepIds(s))
    ensures RepStep(pages', s, parent, hole)
  {
    RepAllFrame(pages, pages', s.left, s.id);
    RepAllFrame(pages, pages', s.right, s.id);
  }

  lemma {:induction false} PathFrame<V>(pages: Pages<V>, pages': Pages<V>, path: seq<PStep<V>>, hole: int)
    requires RepPath(pages, path, hole) && SameOn(pages, pages', PathIds(path))
    ensures RepPath(pages', path, hole)
    decreases |path|
  {
    if path != [] {
      var s, rest := path[|path| - 1], path[..|path| - 1];
      StepFrame(pages, pages', s, ParentOf(rest), hole);
      PathFrame(pages, pages', rest, s.id);
    }
  }

  // ----- giving children another parent -----

  ghost function Adopt<V>(pages: Pages<V>, ids: seq<int>, parent: int): Pages<V>
    requires forall i :: 0 <= i < |ids| ==> ids[i] in pages
  {
    if ids == [] then pages
    else Adopt(pages[ids[0] := pages[ids[0]].(parent := parent)], ids[1..], parent)
  }

  lemma IdsInPages<V>(pages: Pages<V>, cs: seq<Placed<V>>, parent: int)
    requires RepAll(pages, cs, parent)
    ensures forall i :: 0 <= i < |cs| ==> IdsOf(cs)[i] in pages
  {
    forall i | 0 <= i < |cs| ensures IdsOf(cs)[i] in pages {
      PlainAt(cs, i);
      assert Rep(pages, cs[i], parent);
    }
  }

  lemma {:induction false} AdoptRep<V>(pages: Pages<V>, cs: seq<Placed<V>>, parent: int, parent': int)
    requires RepAll(pages, cs, parent) && DistinctAll(cs)
    ensures forall i :: 0 <= i < |IdsOf(cs)| ==> IdsOf(cs)[i] in pages
    ensures RepAll(Adopt(pages, IdsOf(cs), parent'), cs, parent')
    ensures Adopt(pages, IdsOf(cs), parent').Keys == pages.Keys
    ensures forall i :: i in pages && i !in AllIds(cs) ==> Adopt(pages, IdsOf(cs), parent')[i] == pages[i]
  {
    IdsInPages(pages, cs, parent);
    if cs != [] {
      var t := cs[0];
      assert Rep(pages, t, parent);
      var pages1 := pages[t.id := pages[t.id].(parent := parent')];
      OwnId(t);
      RepMoved(pages, t, parent, parent');
      assert RepAll(pages, cs[1..], parent);
      RepAllFrame(pages, pages1, cs[1..], parent);
      AdoptRep(pages1, cs[1..], parent, parent');
      assert IdsOf(cs)[1..] == IdsOf(cs[1..]);
      var pages2 := Adopt(pages1, IdsOf(cs[1..]), parent');
      assert SameOn(pages1, pages2, Ids(t));
      RepFrame(pages1, pages2, t, parent');
    }
  }

  // ----- insertion -----

  /** A node was split into `l` and `r`, and `r` is not yet in its parent. */
  ghost predicate HalvesPlaced<V>(pages: Pages<V>, path: seq<PStep<V>>, l: Placed<V>, r: Placed<V>) {
    && RepPath(pages, path, l.id) && Rep(pages, l, ParentOf(path)) && Rep(pages, r, ParentOf(path))
    && DistinctPath(path) && Distinct(l) && Distinct(r)
    && PathIds(path) !! Ids(l) && PathIds(path) !! Ids(r) && Ids(l) !! Ids(r)
  }

  /** A whole tree is on the pages. */
  ghost predicate TreePlaced<V>(pages: Pages<V>, t: Placed<V>) {
    Rep(pages, t, NO_PAGE) && Distinct(t)
  }

  lemma PairIds<V>(l: Placed<V>, r: Placed<V>)
    ensures AllIds([l, r]) == Ids(l) + Ids(r)
    ensures DistinctAll([l, r]) <==> Distinct(l) && Distinct(r) && Ids(l) !! Ids(r)
  {
    assert [l, r] == [l] + [r];
    AllIdsConcat([l], [r]);
    DistinctConcat([l], [r]);
    OneId(l);
    OneId(r);
  }

  /** The root was split: a new root above both halves. */
  lemma NewRootPlaced<V>(pages: Pages<V>, l: Placed<V>, key: int, r: Placed<V>, n: int)
    requires HalvesPlaced(pages, [], l, r) && n !in Ids(l) && n !in Ids(r)
    ensures l.id in pages && r.id in pages && l.id != r.id
    ensures var root := InternalPage(NO_PAGE, [key], [l.id, r.id]);
            TreePlaced(pages[n := root][l.id := pages[l.id].(parent := n)][r.id := pages[r.id].(parent := n)],
                       PNode(n, [key], [l, r]))
  {
    OwnId(l);
    OwnId(r);
    PairIds(l, r);
    var root := InternalPage(NO_PAGE, [key], [l.id, r.id]);
    var pages1 := pages[n := root];
    RepFrame(pages, pages1, l, NO_PAGE);
    RepFrame(pages, pages1, r, NO_PAGE);
    var pages2 := pages1[l.id := pages[l.id].(parent := n)];
    RepMoved(pages1, l, NO_PAGE, n);
    RepFrame(pages1, pages2, r, NO_PAGE);
    var pages3 := pages2[r.id := pages[r.id].(parent := n)];
    RepMoved(pages2, r, NO_PAGE, n);
    RepFrame(pages2, pages3, l, n);
    RepNode(pages3, n, [key], [l, r], NO_PAGE);
  }

  /** The children of the parent with both halves among them. */
  ghost function WithBoth<V>(s: PStep<V>, l: Placed<V>, r: Placed<V>): seq<Placed<V>> {
    s.left + [l, r] + s.right
  }

  lemma WithBothIds<V>(s: PStep<V>, l: Placed<V>, r: Placed<V>)
    ensures AllIds(WithBoth(s, l, r)) == AllIds(s.left) + Ids(l) + Ids(r) + AllIds(s.right)
  {
    PairIds(l, r);
    AllIdsConcat(s.left + [l, r], s.right);
    AllIdsConcat(s.left, [l, r]);
    hide AllIds, Ids;
  }

  lemma WithBothNames<V>(s: PStep<V>, l: Placed<V>, r: Placed<V>)
    ensures IdsOf(WithBoth(s, l, r)) == IdsOf(s.left) + [l.id, r.id] + IdsOf(s.right)
    ensures PlainAll(WithBoth(s, l, r)) == PlainAll(s.left) + [Plain(l), Plain(r)] + PlainAll(s.right)
  {
    PlainConcat(s.left + [l, r], s.right);
    PlainConcat(s.left, [l, r]);
    PlainTwo(l, r);
    hide IdsOf, PlainAll;
  }

  lemma WithBothDistinct<V>(s: PStep<V>, l: Placed<V>, r: Placed<V>)
    requires DistinctStep(s) && Distinct(l) && Distinct(r) && Ids(l) !! Ids(r) && StepIds(s) !! Ids(l)
             && StepIds(s) !! Ids(r)
    ensures DistinctAll(WithBoth(s, l, r)) && s.id !in AllIds(WithBoth(s, l, r))
  {
    WithBothIds(s, l, r);
    PairIds(l, r);
    AllIdsConcat(s.left, [l, r]);
    DistinctConcat(s.left + [l, r], s.right);
    DistinctConcat(s.left, [l, r]);
    hide AllIds, Ids, DistinctAll, Distinct;
  }

  lemma WithBothRep<V>(pages: Pages<V>, s: PStep<V>, l: Placed<V>, r: Placed<V>)
    requires RepAll(pages, s.left, s.id) && RepAll(pages, s.right, s.id) && Rep(pages, l, s.id) && Rep(pages, r, s.id)
    ensures RepAll(pages, WithBoth(s, l, r), s.id)
  {
    RepAllConcat(pages, s.left + [l, r], s.right, s.id);
    RepAllConcat(pages, s.left, [l, r], s.id);
    hide Rep;
    assert RepAll(pages, [l, r], s.id);
  }

  lemma WithBothFacts<V>(pages: Pages<V>, path: seq<PStep<V>>, l: Placed<V>, r: Placed<V>)
    requires HalvesPlaced(pages, path, l, r) && path != []
    ensures var s, rest := path[|path| - 1], path[..|path| - 1];
            var cs := WithBoth(s, l, r);
            && AllIds(cs) == AllIds(s.left) + Ids(l) + Ids(r) + AllIds(s.right)
            && DistinctAll(cs) && s.id !in AllIds(cs) && RepAll(pages, cs, s.id)
            && PathIds(rest) !! AllIds(cs) && s.id !in PathIds(rest) && DistinctPath(rest) && RepPath(pages, rest, s.id)
  {
    var s := path[|path| - 1];
    hide Rep, RepAll, Distinct, Ids, AllIds, DistinctAll, WithBoth;
    WithBothRep(pages, s, l, r);
    WithBothIds(s, l, r);
    WithBothDistinct(s, l, r);
  }

  /** A node that keeps its place in the tree, with other children, is placed with them. */
  lemma NodePlaced<V>(pages: Pages<V>, rest: seq<PStep<V>>, id: int, keys: seq<int>, cs: seq<Placed<V>>)
    requires RepPath(pages, rest, id) && DistinctPath(rest) && RepAll(pages, cs, id) && DistinctAll(cs)
    requires id !in AllIds(cs) && id !in PathIds(rest) && PathIds(rest) !! AllIds(cs)
    ensures var pages' := pages[id := InternalPage(ParentOf(rest), keys, IdsOf(cs))];
            && Rep(pages', PNode(id, keys, cs), ParentOf(rest)) && RepPath(pages', rest, id)
            && TreePlaced(pages', PPlug(rest, PNode(id, keys, cs)))
  {
    var pages' := pages[id := InternalPage(ParentOf(rest), keys, IdsOf(cs))];
    RepAllFrame(pages, pages', cs, id);
    RepNode(pages', id, keys, cs, ParentOf(rest));
    PathFrame(pages, pages', rest, id);
    PlugRep(pages', rest, PNode(id, keys, cs));
    PlugIds(rest, PNode(id, keys, cs));
    hide Rep, RepAll, RepPath, DistinctPath, PathIds, PPlug;
  }

  /** The parent has room: both halves become its children. */
  lemma BothPlaced<V>(pages: Pages<V>, path: seq<PStep<V>>, l: Placed<V>, r: Placed<V>, keys: seq<int>)
    requires HalvesPlaced(pages, path, l, r) && path != []
    ensures var s, rest := path[|path| - 1], path[..|path| - 1];
            var cs := WithBoth(s, l, r);
            TreePlaced(pages[s.id := InternalPage(ParentOf(rest), keys, IdsOf(cs))], PPlug(rest, PNode(s.id, keys, cs)))
  {
    var s, rest := path[|path| - 1], path[..|path| - 1];
    WithBothFacts(pages, path, l, r);
    hide Rep, RepAll, RepPath, DistinctPath, PathIds, PPlug, HalvesPlaced, TreePlaced, WithBoth;
    NodePlaced(pages, rest, s.id, keys, WithBoth(s, l, r));
  }

  lemma CutChildren<V>(pages: Pages<V>, cs: seq<Placed<V>>, m: nat, parent: int)
    requires RepAll(pages, cs, parent) && DistinctAll(cs) && m <= |cs|
    ensures RepAll(pages, cs[..m], parent) && RepAll(pages, cs[m..], parent)
    ensures DistinctAll(cs[..m]) && DistinctAll(cs[m..]) && AllIds(cs[..m]) !! AllIds(cs[m..])
    ensures AllIds(cs[..m]) + AllIds(cs[m..]) == AllIds(cs)
    ensures IdsOf(cs[..m]) == IdsOf(cs)[..m] && IdsOf(cs[m..]) == IdsOf(cs)[m..]
  {
    Halve(cs, m);
    DistinctConcat(cs[..m], cs[m..]);
    AllIdsConcat(cs[..m], cs[m..]);
    RepAllConcat(pages, cs[..m], cs[m..], parent);
    CutNames(cs, m);
    hide Rep, RepAll, DistinctAll, AllIds, IdsOf;
  }

  lemma CutNames<V>(cs: seq<Placed<V>>, m: nat)
    requires m <= |cs|
    ensures IdsOf(cs[..m]) == IdsOf(cs)[..m] && IdsOf(cs[m..]) == IdsOf(cs)[m..]
    ensures PlainAll(cs[..m]) == PlainAll(cs)[..m] && PlainAll(cs[m..]) == PlainAll(cs)[m..]
  {
    Halve(cs, m);
    PlainConcat(cs[..m], cs[m..]);
    CutSum(IdsOf(cs[..m]), IdsOf(cs[m..]));
    CutSum(PlainAll(cs[..m]), PlainAll(cs[m..]));
    hide IdsOf, PlainAll;
  }

  lemma CutSum<T>(a: seq<T>, b: seq<T>)
    ensures (a + b)[..|a|] == a && (a + b)[|a|..] == b
  {
  }

  lemma Halve<T>(cs: seq<T>, m: nat)
    requires m <= |cs|
    ensures cs == cs[..m] + cs[m..]
  {
  }

  /** The pages after a full parent was split at `m`: the right half moves to page `n`. */
  ghost function SplitPages<V>(pages: Pages<V>, id: int, n: int, parent: int, kl: seq<int>, kr: seq<int>,
                               cs: seq<Placed<V>>, m: nat): Pages<V>
    requires m <= |cs| && RepAll(pages, cs, id)
  {
    var pages1 := pages[id := InternalPage(parent, kl, IdsOf(cs)[..m])][n := InternalPage(parent, kr, IdsOf(cs)[m..])];
    IdsInPages(pages, cs, id);
    Adopt(pages1, IdsOf(cs)[m..], n)
  }

  /** The parent is full: it is split too, and the halves are to be placed one level up. */
  lemma SplitPlaced<V>(pages: Pages<V>, path: seq<PStep<V>>, l: Placed<V>, r: Placed<V>, kl: seq<int>, kr: seq<int>,
                       m: nat, n: int)
    requires HalvesPlaced(pages, path, l, r) && path != [] && n !in PathIds(path) && n !in Ids(l) && n !in Ids(r)
    requires m <= |WithBoth(path[|path| - 1], l, r)|
    ensures var s, rest := path[|path| - 1], path[..|path| - 1];
            var cs := WithBoth(s, l, r);
            && RepAll(pages, cs, s.id)
            && HalvesPlaced(SplitPages(pages, s.id, n, ParentOf(rest), kl, kr, cs, m), rest, PNode(s.id, kl, cs[..m]),
                            PNode(n, kr, cs[m..]))
  {
    var s, rest := path[|path| - 1], path[..|path| - 1];
    var cs := WithBoth(s, l, r);
    WithBothFacts(pages, path, l, r);
    assert n !in AllIds(cs) && n != s.id && n !in PathIds(rest);
    hide HalvesPlaced, WithBoth;
    var ids := IdsOf(cs);
    var pages1 := pages[s.id := InternalPage(ParentOf(rest), kl, ids[..m])]
                       [n := InternalPage(ParentOf(rest), kr, ids[m..])];
    RepAllFrame(pages, pages1, cs, s.id);
    PathFrame(pages, pages1, rest, s.id);
    CutChildren(pages1, cs, m, s.id);
    AdoptRep(pages1, cs[m..], s.id, n);
    var pages2 := Adopt(pages1, IdsOf(cs[m..]), n);
    RepAllFrame(pages1, pages2, cs[..m], s.id);
    PathFrame(pages1, pages2, rest, s.id);
    RepNode(pages2, s.id, kl, cs[..m], ParentOf(rest));
    RepNode(pages2, n, kr, cs[m..], ParentOf(rest));
    SplitHalves(pages2, rest, s.id, n, kl, kr, cs, m);
  }

  lemma SplitHalves<V>(pages: Pages<V>, rest: seq<PStep<V>>, id: int, n: int, kl: seq<int>, kr: seq<int>,
                       cs: seq<Placed<V>>, m: nat)
    requires m <= |cs| && RepPath(pages, rest, id) && DistinctPath(rest)
    requires Rep(pages, PNode(id, kl, cs[..m]), ParentOf(rest)) && Rep(pages, PNode(n, kr, cs[m..]), ParentOf(rest))
    requires DistinctAll(cs[..m]) && DistinctAll(cs[m..]) && AllIds(cs[..m]) !! AllIds(cs[m..])
    requires AllIds(cs[..m]) + AllIds(cs[m..]) == AllIds(cs) && id != n && id !in AllIds(cs) && n !in AllIds(cs)
    requires PathIds(rest) !! AllIds(cs) && id !in PathIds(rest) && n !in PathIds(rest)
    ensures HalvesPlaced(pages, rest, PNode(id, kl, cs[..m]), PNode(n, kr, cs[m..]))
  {
    hide Rep, RepPath, DistinctPath, PathIds, DistinctAll, AllIds;
  }

  // ----- leaves -----

  /** Other entries in a leaf. */
  lemma LeafPlaced<V>(pages: Pages<V>, path: seq<PStep<V>>, leaf: Placed<V>, leaf': Placed<V>)
    requires TreePlaced(pages, PPlug(path, leaf)) && leaf.PLeaf? && leaf'.PLeaf? && leaf'.id == leaf.id
    ensures TreePlaced(pages[leaf.id := LeafPage(ParentOf(path), leaf'.next, leaf'.entries)], PPlug(path, leaf'))
  {
    hide Rep, Distinct;
    LeafPlacedRep(pages, path, leaf, leaf');
    LeafPlacedDistinct(path, leaf, leaf');
  }

  lemma LeafPlacedRep<V>(pages: Pages<V>, path: seq<PStep<V>>, leaf: Placed<V>, leaf': Placed<V>)
    requires Rep(pages, PPlug(path, leaf), NO_PAGE) && Distinct(PPlug(path, leaf))
    requires leaf.PLeaf? && leaf'.PLeaf? && leaf'.id == leaf.id
    ensures Rep(pages[leaf.id := LeafPage(ParentOf(path), leaf'.next, leaf'.entries)], PPlug(path, leaf'), NO_PAGE)
  {
    var pages' := pages[leaf.id := LeafPage(ParentOf(path), leaf'.next, leaf'.entries)];
    PlugRep(pages, path, leaf);
    PlugIds(path, leaf);
    PathFrame(pages, pages', path, leaf.id);
    PlugRep(pages', path, leaf');
  }

  lemma LeafPlacedDistinct<V>(path: seq<PStep<V>>, leaf: Placed<V>, leaf': Placed<V>)
    requires Distinct(PPlug(path, leaf)) && leaf.PLeaf? && leaf'.PLeaf? && leaf'.id == leaf.id
    ensures Distinct(PPlug(path, leaf')) && Ids(PPlug(path, leaf')) == Ids(PPlug(path, leaf))
  {
    PlugIds(path, leaf);
    PlugIds(path, leaf');
  }

  /** A leaf split over two pages. */
  lemma LeafHalvesPlaced<V>(pages: Pages<V>, path: seq<PStep<V>>, leaf: Placed<V>, a: seq<Entry<V>>, b: seq<Entry<V>>,
                            n: int)
    requires TreePlaced(pages, PPlug(path, leaf)) && leaf.PLeaf? && n !in Ids(PPlug(path, leaf))
    ensures HalvesPlaced(pages[leaf.id := LeafPage(ParentOf(path), n, a)][n := LeafPage(ParentOf(path), leaf.next, b)],
                         path, PLeaf(leaf.id, n, a), PLeaf(n, leaf.next, b))
  {
    var pages' := pages[leaf.id := LeafPage(ParentOf(path), n, a)][n := LeafPage(ParentOf(path), leaf.next, b)];
    PlugRep(pages, path, leaf);
    PlugIds(path, leaf);
    PathFrame(pages, pages', path, leaf.id);
  }

  /** What a search sees of a node. */
  lemma NodeOnPage<V>(pages: Pages<V>, t: Placed<V>, parent: int, h: nat)
    requires Rep(pages, t, parent) && Shaped(Plain(t), h)
    ensures t.id in pages && pages[t.id].parent == parent
    ensures if t.PLeaf? then pages[t.id] == LeafPage(parent, t.next, t.entries) && h == 0
            else
              && pages[t.id] == InternalPage(parent, t.keys, IdsOf(t.children)) && h > 0 && |t.children| == |t.keys| + 1
              && forall i :: 0 <= i < |t.children| ==>
                 Rep(pages, t.children[i], t.id) && Shaped(Plain(t.children[i]), h - 1)
  {
    if t.PNode? {
      forall i | 0 <= i < |t.children| ensures Rep(pages, t.children[i], t.id) && Shaped(Plain(t.children[i]), h - 1) {
        PlainAt(t.children, i);
      }
    }
  }
}
