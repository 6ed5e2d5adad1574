/** The leaves of a tree from left to right, and the places between their entries. */
module BPlusTreeLeaves {
  import opened Options
  import SE = SortedEntries
  import opened BPlusTree
  import opened BPlusTreeProofs
  import opened BPlusTreePaths
  import opened BPlusTreePages
  import opened BPlusTreeLinks

  ghost function Leaves<V>(t: Placed<V>): seq<Placed<V>> {
    match t
    case PLeaf(_, _, _) => [t]
    case PNode(_, _, cs) => AllLeaves(cs)
  }

  ghost function AllLeaves<V>(cs: seq<Placed<V>>): seq<Placed<V>> {
    if cs == [] then [] else Leaves(cs[0]) + AllLeaves(cs[1..])
  }

  ghost function Flat<V>(ls: seq<Placed<V>>): seq<SE.Entry<V>>
    requires forall l :: l in ls ==> l.PLeaf?
  {
    if ls == [] then [] else ls[0].entries + Flat(ls[1..])
  }

  lemma {:induction false} FlatConcat<V>(a: seq<Placed<V>>, b: seq<Placed<V>>)
    requires (forall l :: l in a ==> l.PLeaf?) && (forall l :: l in b ==> l.PLeaf?)
    ensures Flat(a + b) == Flat(a) + Flat(b)
  {
    if a == [] {
      assert a + b == b;
    } else {
      assert (a + b)[1..] == a[1..] + b;
      FlatConcat(a[1..], b);
    }
  }

  /** The leaves hold the entries of the tree, and their links are those of the tree. */
  ghost predicate LeavesAre<V>(ls: seq<Placed<V>>, es: seq<SE.Entry<V>>, links: seq<Link>) {
    && (forall l :: l in ls ==> l.PLeaf?) && Flat(ls) == es
    && |links| == |ls| && forall i :: 0 <= i < |ls| ==> links[i] == (ls[i].id, ls[i].next)
  }

  lemma LeavesJoin<V>(a: seq<Placed<V>>, ea: seq<SE.Entry<V>>, la: seq<Link>, b: seq<Placed<V>>, eb: seq<SE.Entry<V>>,
                      lb: seq<Link>)
    requires LeavesAre(a, ea, la) && LeavesAre(b, eb, lb)
    ensures LeavesAre(a + b, ea + eb, la + lb)
  {
    FlatConcat(a, b);
  }

  lemma {:induction false} LeavesOf<V>(t: Placed<V>)
    ensures LeavesAre(Leaves(t), Entries(Plain(t)), Links(t))
    decreases t, 0
  {
    match t
    case PLeaf(_, _, es) => assert [t][1..] == [];
    case PNode(_, _, cs) => LeavesOfAll(cs);
  }

  lemma {:induction false} LeavesOfAll<V>(cs: seq<Placed<V>>)
    ensures LeavesAre(AllLeaves(cs), All(PlainAll(cs)), AllLinks(cs))
    decreases cs
  {
    if cs != [] {
      LeavesOf(cs[0]);
      LeavesOfAll(cs[1..]);
      LeavesJoin(Leaves(cs[0]), Entries(Plain(cs[0])), Links(cs[0]), AllLeaves(cs[1..]), All(PlainAll(cs[1..])),
                 AllLinks(cs[1..]));
      assert PlainAll(cs)[1..] == PlainAll(cs[1..]);
    }
  }

  /** Every leaf is on its page and has an entry. */
  ghost predicate LeavesOnPages<V>(pages: Pages<V>, ls: seq<Placed<V>>) {
    forall i :: 0 <= i < |ls| ==> LeafOnPage(pages, ls[i])
  }

  ghost predicate LeafOnPage<V>(pages: Pages<V>, l: Placed<V>) {
    l.PLeaf? && l.entries != [] && l.id in pages && pages[l.id].LeafPage? && pages[l.id].next == l.next
    && pages[l.id].entries == l.entries
  }

  lemma {:induction false} LeavesPlaced<V>(pages: Pages<V>, t: Placed<V>, parent: int, l: Limits, h: nat,
                                           lo: Option<int>, hi: Option<int>)
    requires Rep(pages, t, parent) && Sound(Plain(t), l, h, lo, hi) && LimitsOk(l) && Size(Plain(t)) >= 1
    ensures LeavesOnPages(pages, Leaves(t)) && Leaves(t) != []
    decreases t, 0
  {
    match t
    case PLeaf(_, _, _) =>
    case PNode(id, keys, cs) =>
      assert SoundChildren(keys, PlainAll(cs), l, h, lo, hi);
      forall i | 0 <= i < |cs| ensures LeavesOnPages(pages, Leaves(cs[i])) && Leaves(cs[i]) != [] {
        PlainAt(cs, i);
        assert SoundChild(PlainAll(cs)[i], l, h - 1, Lo(keys, i, lo), Hi(keys, i, hi));
        LeavesPlaced(pages, cs[i], id, l, h - 1, Lo(keys, i, lo), Hi(keys, i, hi));
      }
      AllPlaced(pages, cs);
  }

  lemma {:induction false} AllPlaced<V>(pages: Pages<V>, cs: seq<Placed<V>>)
    requires forall i :: 0 <= i < |cs| ==> LeavesOnPages(pages, Leaves(cs[i])) && Leaves(cs[i]) != []
    ensures LeavesOnPages(pages, AllLeaves(cs)) && (cs != [] ==> AllLeaves(cs) != [])
  {
    if cs != [] {
      AllPlaced(pages, cs[1..]);
      assert AllLeaves(cs) == Leaves(cs[0]) + AllLeaves(cs[1..]);
    }
  }

  // ----- places -----

  /** Before entry `index` of leaf `n` come the entries not in `rem`; only the last leaf has a place at its end. */
  ghost predicate Place<V>(ls: seq<Placed<V>>, n: nat, index: nat, rem: seq<SE.Entry<V>>) {
    && (forall l :: l in ls ==> l.PLeaf?) && n < |ls| && index <= |ls[n].entries|
    && (index == |ls[n].entries| ==> n + 1 == |ls|)
    && rem == ls[n].entries[index..] + Flat(ls[n + 1..])
  }

  lemma PlaceEnd<V>(pages: Pages<V>, ls: seq<Placed<V>>, links: seq<Link>, es: seq<SE.Entry<V>>, n: nat, index: nat,
                    rem: seq<SE.Entry<V>>)
    requires Place(ls, n, index, rem) && LeavesAre(ls, es, links) && LeavesOnPages(pages, ls) && Chained(links)
             && NO_PAGE !in pages
    ensures LeafOnPage(pages, ls[n]) && (ls[n].next == NO_PAGE <==> n + 1 == |ls|)
            && (n + 1 < |ls| ==> ls[n].next == ls[n + 1].id)
    ensures rem == [] <==> index == |ls[n].entries|
    ensures rem != [] ==> index < |ls[n].entries| && rem[0] == ls[n].entries[index]
  {
    assert Follows(links, n);
    assert n + 1 < |ls| ==> LeafOnPage(pages, ls[n + 1]);
    if index == |ls[n].entries| { assert ls[n + 1..] == []; }
  }

  /** The next place. */
  lemma PlaceNext<V>(pages: Pages<V>, ls: seq<Placed<V>>, n: nat, index: nat, rem: seq<SE.Entry<V>>)
    requires Place(ls, n, index, rem) && LeavesOnPages(pages, ls) && rem != [] && index < |ls[n].entries|
    ensures if index + 1 == |ls[n].entries| && n + 1 < |ls| then Place(ls, n + 1, 0, rem[1..])
            else Place(ls, n, index + 1, rem[1..])
  {
    var es := ls[n].entries;
    assert es[index..] == [es[index]] + es[index + 1..];
    assert rem[1..] == es[index + 1..] + Flat(ls[n + 1..]);
    if index + 1 == |es| && n + 1 < |ls| {
      assert LeafOnPage(pages, ls[n + 1]);
      assert ls[n + 1..][1..] == ls[n + 2..];
      assert es[index + 1..] == [] && ls[n + 1].entries[0..] == ls[n + 1].entries;
    }
  }

  // ----- the leaf of a search -----

  ghost function LeavesBefore<V>(path: seq<PStep<V>>): seq<Placed<V>>
    decreases |path|
  {
    if path == [] then [] else LeavesBefore(path[..|path| - 1]) + AllLeaves(path[|path| - 1].left)
  }

  ghost function LeavesAfter<V>(path: seq<PStep<V>>): seq<Placed<V>>
    decreases |path|
  {
    if path == [] then [] else AllLeaves(path[|path| - 1].right) + LeavesAfter(path[..|path| - 1])
  }

  lemma {:induction false} AllLeavesConcat<V>(a: seq<Placed<V>>, b: seq<Placed<V>>)
    ensures AllLeaves(a + b) == AllLeaves(a) + AllLeaves(b)
  {
    if a == [] {
      assert a + b == b;
    } else {
      assert (a + b)[1..] == a[1..] + b;
      AllLeavesConcat(a[1..], b);
    }
  }

  lemma LeavesFill<V>(s: PStep<V>, t: Placed<V>)
    ensures Leaves(PFill(s, t)) == AllLeaves(s.left) + Leaves(t) + AllLeaves(s.right)
  {
    AllLeavesConcat(s.left + [t], s.right);
    AllLeavesConcat(s.left, [t]);
    assert [t][1..] == [];
    assert AllLeaves([t][1..]) == [];
  }

  lemma {:induction false} LeavesPlug<V>(path: seq<PStep<V>>, t: Placed<V>)
    ensures Leaves(PPlug(path, t)) == LeavesBefore(path) + Leaves(t) + LeavesAfter(path)
    decreases |path|
  {
    if path != [] {
      var s, rest := path[|path| - 1], path[..|path| - 1];
      LeavesPlug(rest, PFill(s, t));
      LeavesFill(s, t);
      hide AllLeaves, PPlug, Leaves;
      Nested(LeavesBefore(rest), AllLeaves(s.left), Leaves(t), AllLeaves(s.right), LeavesAfter(rest));
    }
  }

  lemma Nested<T>(a: seq<T>, x: seq<T>, e: seq<T>, y: seq<T>, c: seq<T>)
    ensures a + (x + e + y) + c == (a + x) + e + (y + c)
  {
  }

  ghost function EntriesBefore<V>(path: seq<Step<V>>): seq<SE.Entry<V>>
    decreases |path|
  {
    if path == [] then [] else EntriesBefore(path[..|path| - 1]) + All(path[|path| - 1].left)
  }

  ghost function EntriesAfter<V>(path: seq<Step<V>>): seq<SE.Entry<V>>
    decreases |path|
  {
    if path == [] then [] else All(path[|path| - 1].right) + EntriesAfter(path[..|path| - 1])
  }

  /** Left of the path of a search are smaller keys, right of it larger ones. */
  lemma {:induction false} SearchSplits<V>(path: seq<Step<V>>, t: Tree<V>, l: Limits, h: nat, k: int)
    returns (lo: Option<int>, hi: Option<int>)
    requires LimitsOk(l) && SoundRoot(Some(Plug(path, t)), l, h + |path|) && Leads(path, k)
    ensures Sound(t, l, h, lo, hi) && AtLeast(k, lo) && LessThan(k, hi)
    ensures SE.Below(EntriesBefore(path), k) && SE.Above(EntriesAfter(path), k)
    decreases |path|
  {
    if path == [] {
      lo, hi := None, None;
    } else {
      var s, rest := path[|path| - 1], path[..|path| - 1];
      assert Leads(rest, k);
      lo, hi := SearchSplits(rest, Fill(s, t), l, h + 1, k);
      StepSplits(s, t, l, h, lo, hi, k);
      lo, hi := Lo(s.keys, |s.left|, lo), Hi(s.keys, |s.left|, hi);
    }
  }

  lemma StepSplits<V>(s: Step<V>, t: Tree<V>, l: Limits, h: nat, lo: Option<int>, hi: Option<int>, k: int)
    requires Sound(Fill(s, t), l, h + 1, lo, hi) && AtLeast(k, lo) && LessThan(k, hi) && ChildOf(s.keys, k) == |s.left|
    ensures |s.left| <= |s.keys|
    ensures var lo', hi' := Lo(s.keys, |s.left|, lo), Hi(s.keys, |s.left|, hi);
            Sound(t, l, h, lo', hi') && AtLeast(k, lo') && LessThan(k, hi')
    ensures SE.Below(All(s.left), k) && SE.Above(All(s.right), k)
  {
    SoundStep(s, t, l, h, lo, hi);
    var cs := s.left + [t] + s.right;
    assert SoundChildren(s.keys, cs, l, h + 1, lo, hi);
    ChildOfSplits(s.keys, cs, l, h + 1, lo, hi, k);
    assert cs[..|s.left|] == s.left && cs[|s.left| + 1..] == s.right;
    assert SoundChild(t, l, h, Lo(s.keys, |s.left|, lo), Hi(s.keys, |s.left|, hi));
    ChildOfBounds(s.keys, k, lo, hi);
  }

  lemma {:induction false} BeforeIs<V>(path: seq<PStep<V>>)
    ensures LeavesAre(LeavesBefore(path), EntriesBefore(PlainPath(path)), Before(path))
    ensures LeavesAre(LeavesAfter(path), EntriesAfter(PlainPath(path)), After(path))
    decreases |path|
  {
    if path != [] {
      var s, rest := path[|path| - 1], path[..|path| - 1];
      BeforeIs(rest);
      LeavesOfAll(s.left);
      LeavesOfAll(s.right);
      LeavesJoin(LeavesBefore(rest), EntriesBefore(PlainPath(rest)), Before(rest), AllLeaves(s.left),
                 All(PlainAll(s.left)), AllLinks(s.left));
      LeavesJoin(AllLeaves(s.right), All(PlainAll(s.right)), AllLinks(s.right), LeavesAfter(rest),
                 EntriesAfter(PlainPath(rest)), After(rest));
      assert PlainPath(path)[..|path| - 1] == PlainPath(rest) && PlainPath(path)[|path| - 1] == PlainStep(s);
    }
  }

  lemma RestFrom<V>(x: seq<SE.Entry<V>>, b: seq<SE.Entry<V>>, y: seq<SE.Entry<V>>, k: int)
    requires SE.Below(x, k) && SE.Above(y, k)
    ensures var es := x + b + y; es[SE.LowerBound(es, k)..] == b[SE.LowerBound(b, k)..] + y
  {
    SE.LowerBoundMiddle(x, b, y, k);
    SE.Cut(x, b, y, SE.LowerBound(b, k));
    hide SE.LowerBound, SE.Below, SE.Above, SE.Has;
  }

  /** The first entry of a leaf not before `k`, and what comes before and after it. */
  lemma PlaceOf<V>(ls: seq<Placed<V>>, a: seq<Placed<V>>, leaf: Placed<V>, c: seq<Placed<V>>, es: seq<SE.Entry<V>>,
                   k: int)
    requires (forall l :: l in a ==> l.PLeaf?) && (forall l :: l in c ==> l.PLeaf?) && leaf.PLeaf?
    requires SE.Below(Flat(a), k) && SE.Above(Flat(c), k) && ls == a + [leaf] + c
             && es == Flat(a) + leaf.entries + Flat(c)
    requires SE.LowerBound(leaf.entries, k) < |leaf.entries| || c == []
    ensures Place(ls, |a|, SE.LowerBound(leaf.entries, k), es[SE.LowerBound(es, k)..])
  {
    RestFrom(Flat(a), leaf.entries, Flat(c), k);
    MiddleAt(a, leaf, c);
    hide Flat, SE.LowerBound, SE.Below, SE.Above, SE.Has;
  }

  lemma MiddleAt<T>(a: seq<T>, x: T, c: seq<T>)
    ensures (a + [x] + c)[|a|] == x && (a + [x] + c)[|a| + 1..] == c && (|a + [x] + c| == |a| + 1 <==> c == [])
    ensures forall y :: y in a + [x] + c <==> y in a || y == x || y in c
  {
  }

  /** The ends. */
  lemma FirstPlace<V>(leaf: Placed<V>, c: seq<Placed<V>>)
    requires leaf.PLeaf? && leaf.entries != [] && forall l :: l in c ==> l.PLeaf?
    ensures Place([leaf] + c, 0, 0, Flat([leaf] + c))
  {
    assert ([leaf] + c)[1..] == c && leaf.entries[0..] == leaf.entries;
  }

  lemma LastPlace<V>(a: seq<Placed<V>>, leaf: Placed<V>)
    requires leaf.PLeaf? && forall l :: l in a ==> l.PLeaf?
    ensures Place(a + [leaf], |a|, |leaf.entries|, [])
  {
    assert (a + [leaf])[|a| + 1..] == [];
  }
}
