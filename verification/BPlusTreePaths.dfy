/**
 The B+ tree from the leaf upwards, which is how the code works: a path from the root to a node, and what an
 insertion or a removal at that node does on the way back.
 */
module BPlusTreePaths {
  import opened Options
  import opened BPlusTree
  import opened BPlusTreeProofs

  /** A node with a hole for one of its children. */
  datatype Step<V> = Step(keys: seq<int>, left: seq<Tree<V>>, right: seq<Tree<V>>)

  function Fill<V>(s: Step<V>, t: Tree<V>): Tree<V> {
    Node(s.keys, s.left + [t] + s.right)
  }

  /** The tree in which `t` is reached by the path; the last step is the one just above it. */
  function Plug<V>(path: seq<Step<V>>, t: Tree<V>): Tree<V>
    decreases |path|
  {
    if path == [] then t else Plug(path[..|path| - 1], Fill(path[|path| - 1], t))
  }

  /** The path is the one a search for `k` takes. */
  ghost predicate Leads<V>(path: seq<Step<V>>, k: int) {
    forall i :: 0 <= i < |path| ==> ChildOf(path[i].keys, k) == |path[i].left|
  }

  ghost predicate ShapedPath<V>(path: seq<Step<V>>, h: nat)
    decreases |path|
  {
    path == [] || (ShapedStep(path[|path| - 1], h) && ShapedPath(path[..|path| - 1], h + 1))
  }

  ghost predicate ShapedStep<V>(s: Step<V>, h: nat) {
    && |s.left| + |s.right| == |s.keys|
    && (forall i :: 0 <= i < |s.left| ==> Shaped(s.left[i], h))
    && (forall i :: 0 <= i < |s.right| ==> Shaped(s.right[i], h))
  }

  lemma ShapedFill<V>(s: Step<V>, t: Tree<V>, h: nat)
    requires ShapedStep(s, h) && Shaped(t, h)
    ensures Shaped(Fill(s, t), h + 1)
  {
  }

  // ----- search -----

  lemma {:induction false} GetByPath<V>(path: seq<Step<V>>, t: Tree<V>, k: int, h: nat)
    requires ShapedPath(path, h) && Shaped(t, h) && Leads(path, k)
    ensures Shaped(Plug(path, t), h + |path|) && GetValue(Plug(path, t), k, h + |path|) == GetValue(t, k, h)
    decreases |path|
  {
    if path != [] {
      var s := path[|path| - 1];
      ShapedFill(s, t, h);
      assert GetValue(Fill(s, t), k, h + 1) == GetValue(t, k, h);
      GetByPath(path[..|path| - 1], Fill(s, t), k, h + 1);
    }
  }

  // ----- insertion -----

  /** A node whose child was split. */
  function Grow<V>(s: Step<V>, left: Tree<V>, key: int, right: Tree<V>, l: Limits, ghost h: nat): (g: Grown<V>)
    requires LimitsOk(l) && ShapedStep(s, h) && Shaped(left, h) && Shaped(right, h)
    ensures ShapedGrown(g, h + 1)
  {
    var keys, cs := InsertAt(s.keys, |s.left|, key), s.left + [left, right] + s.right;
    ShapedHalves(s, left, key, right, h);
    if |cs| <= l.internalMax then Whole(Node(keys, cs)) else SplitNode(keys, cs, l, h + 1)
  }

  /** What an insertion gives at the end of a path, carried up to the whole tree. */
  function Carry<V>(path: seq<Step<V>>, g: Grown<V>, l: Limits, ghost h: nat): Tree<V>
    requires LimitsOk(l) && ShapedPath(path, h) && ShapedGrown(g, h)
    decreases |path|
  {
    match g
    case Whole(t) => Plug(path, t)
    case Halves(left, key, right) =>
      if path == [] then Node([key], [left, right])
      else Carry(path[..|path| - 1], Grow(path[|path| - 1], left, key, right, l, h), l, h + 1)
  }

  lemma ShapedHalves<V>(s: Step<V>, left: Tree<V>, key: int, right: Tree<V>, h: nat)
    requires ShapedStep(s, h) && Shaped(left, h) && Shaped(right, h)
    ensures Shaped(Node(InsertAt(s.keys, |s.left|, key), s.left + [left, right] + s.right), h + 1)
  {
  }

  lemma FilledChildren<V>(s: Step<V>, t: Tree<V>, c: Tree<V>, r: Tree<V>)
    ensures var cs, i := s.left + [t] + s.right, |s.left|;
            && cs[i] == t && cs[i := c] == s.left + [c] + s.right
            && InsertAt(cs[i := c], i + 1, r) == s.left + [c, r] + s.right
  {
  }

  /** One step down is one step up. */
  lemma InsertFill<V>(s: Step<V>, t: Tree<V>, k: int, v: V, l: Limits, h: nat)
    requires LimitsOk(l) && Shaped(t, h) && ShapedStep(s, h) && ChildOf(s.keys, k) == |s.left|
    ensures Shaped(Fill(s, t), h + 1)
    ensures InsertInto(Fill(s, t), k, v, l, h + 1) ==
            match InsertInto(t, k, v, l, h)
            case Whole(c) => Whole(Fill(s, c))
            case Halves(left, key, right) => Grow(s, left, key, right, l, h)
  {
    ShapedFill(s, t, h);
    match InsertInto(t, k, v, l, h)
    case Whole(c) => FilledChildren(s, t, c, c);
    case Halves(left, key, right) => FilledChildren(s, t, left, right);
  }

  lemma CarryStep<V>(path: seq<Step<V>>, t: Tree<V>, k: int, v: V, l: Limits, h: nat)
    requires LimitsOk(l) && path != [] && ShapedPath(path, h) && Shaped(t, h) && Leads(path, k)
    ensures Shaped(Fill(path[|path| - 1], t), h + 1)
    ensures Carry(path, InsertInto(t, k, v, l, h), l, h)
            == Carry(path[..|path| - 1], InsertInto(Fill(path[|path| - 1], t), k, v, l, h + 1), l, h + 1)
  {
    InsertFill(path[|path| - 1], t, k, v, l, h);
    hide InsertInto, Grow, Shaped, ShapedStep;
  }

  /** Inserting from the root down is inserting at the end of the search path and going up. */
  ghost predicate InsertAgrees<V>(path: seq<Step<V>>, t: Tree<V>, k: int, v: V, l: Limits, h: nat) {
    && LimitsOk(l) && ShapedPath(path, h) && Shaped(t, h) && Shaped(Plug(path, t), h + |path|)
    && InsertRoot(Some(Plug(path, t)), k, v, l, h + |path|) == Some(Carry(path, InsertInto(t, k, v, l, h), l, h))
  }

  lemma InsertAgreesUp<V>(path: seq<Step<V>>, t: Tree<V>, rest: seq<Step<V>>, up: Tree<V>, k: int, v: V, l: Limits,
                          h: nat)
    requires LimitsOk(l) && ShapedPath(path, h) && Shaped(t, h) && InsertAgrees(rest, up, k, v, l, h + 1)
    requires Plug(path, t) == Plug(rest, up) && |path| == |rest| + 1
    requires Carry(path, InsertInto(t, k, v, l, h), l, h) == Carry(rest, InsertInto(up, k, v, l, h + 1), l, h + 1)
    ensures InsertAgrees(path, t, k, v, l, h)
  {
    hide Plug, Shaped, ShapedPath, InsertRoot, InsertInto, Carry, LimitsOk;
    assert h + |path| == h + 1 + |rest|;
  }

  lemma {:induction false} InsertByPath<V>(path: seq<Step<V>>, t: Tree<V>, k: int, v: V, l: Limits, h: nat)
    requires LimitsOk(l) && ShapedPath(path, h) && Shaped(t, h) && Leads(path, k)
    ensures InsertAgrees(path, t, k, v, l, h)
    decreases |path|
  {
    if path != [] {
      hide InsertAgrees;
      CarryStep(path, t, k, v, l, h);
      InsertByPath(path[..|path| - 1], Fill(path[|path| - 1], t), k, v, l, h + 1);
      InsertAgreesUp(path, t, path[..|path| - 1], Fill(path[|path| - 1], t), k, v, l, h);
    }
  }

  // ----- removal -----

  function AdjustRoot<V>(t: Tree<V>): Option<Tree<V>> {
    match t
    case Leaf(es) => if es == [] then None else Some(t)
    case Node(_, cs) => if |cs| == 1 then Some(cs[0]) else Some(t)
  }

  /** The whole tree after the node at the end of the path has become `t`: repaired as far up as needed. */
  function RepairUp<V>(path: seq<Step<V>>, t: Tree<V>, l: Limits, ghost h: nat): Option<Tree<V>>
    requires LimitsOk(l) && ShapedPath(path, h) && Shaped(t, h)
    decreases |path|
  {
    if path == [] then AdjustRoot(t)
    else if Size(t) >= MinSize(t, l) then Some(Plug(path, t))
    else
      var s := path[|path| - 1];
      ShapedFill(s, t, h);
      RepairUp(path[..|path| - 1], Repair(s.keys, s.left + [t] + s.right, |s.left|, l, h + 1), l, h + 1)
  }

  /** Nodes on the path have enough children. */
  ghost predicate FullPath<V>(path: seq<Step<V>>, l: Limits) {
    forall i :: 0 <= i < |path| ==> |path[i].keys| + 1 >= if i == 0 then 2 else NodeMin(l)
  }

  lemma RemoveFill<V>(s: Step<V>, t: Tree<V>, k: int, l: Limits, h: nat)
    requires LimitsOk(l) && Shaped(t, h) && ShapedStep(s, h) && ChildOf(s.keys, k) == |s.left|
    ensures Shaped(Fill(s, t), h + 1) && Shaped(Fill(s, RemoveFrom(t, k, l, h)), h + 1)
    ensures var c := RemoveFrom(t, k, l, h);
            RemoveFrom(Fill(s, t), k, l, h + 1) ==
            if Size(c) >= MinSize(c, l) then Fill(s, c) else Repair(s.keys, s.left + [c] + s.right, |s.left|, l, h + 1)
  {
    ShapedFill(s, t, h);
    ShapedFill(s, RemoveFrom(t, k, l, h), h);
    FilledChildren(s, t, RemoveFrom(t, k, l, h), t);
  }

  lemma RepairStep<V>(path: seq<Step<V>>, t: Tree<V>, k: int, l: Limits, h: nat)
    requires LimitsOk(l) && path != [] && ShapedPath(path, h) && Shaped(t, h) && Leads(path, k) && FullPath(path, l)
    ensures Shaped(Fill(path[|path| - 1], t), h + 1)
    ensures RepairUp(path, RemoveFrom(t, k, l, h), l, h)
            == RepairUp(path[..|path| - 1], RemoveFrom(Fill(path[|path| - 1], t), k, l, h + 1), l, h + 1)
  {
    var s, c := path[|path| - 1], RemoveFrom(t, k, l, h);
    RemoveFill(s, t, k, l, h);
    assert Size(Fill(s, c)) == |s.keys| + 1 >= if |path| == 1 then 2 else NodeMin(l);
    hide RemoveFrom, Repair, Shaped, ShapedStep;
    if Size(c) >= MinSize(c, l) {
      assert RepairUp(path[..|path| - 1], Fill(s, c), l, h + 1) == Some(Plug(path, c));
    }
  }

  /** Removing from the root down is removing at the end of the search path and repairing upwards. */
  ghost predicate RemoveAgrees<V>(path: seq<Step<V>>, t: Tree<V>, k: int, l: Limits, h: nat) {
    && LimitsOk(l) && ShapedPath(path, h) && Shaped(t, h) && Shaped(Plug(path, t), h + |path|)
    && RemoveRoot(Some(Plug(path, t)), k, l, h + |path|) == RepairUp(path, RemoveFrom(t, k, l, h), l, h)
  }

  lemma RemoveAgreesUp<V>(path: seq<Step<V>>, t: Tree<V>, rest: seq<Step<V>>, up: Tree<V>, k: int, l: Limits, h: nat)
    requires LimitsOk(l) && ShapedPath(path, h) && Shaped(t, h) && RemoveAgrees(rest, up, k, l, h + 1)
    requires Plug(path, t) == Plug(rest, up) && |path| == |rest| + 1
    requires RepairUp(path, RemoveFrom(t, k, l, h), l, h) == RepairUp(rest, RemoveFrom(up, k, l, h + 1), l, h + 1)
    ensures RemoveAgrees(path, t, k, l, h)
  {
    hide Plug, Shaped, ShapedPath, RemoveRoot, RemoveFrom, RepairUp, LimitsOk;
    assert h + |path| == h + 1 + |rest|;
  }

  lemma {:induction false} RemoveByPath<V>(path: seq<Step<V>>, t: Tree<V>, k: int, l: Limits, h: nat)
    requires LimitsOk(l) && ShapedPath(path, h) && Shaped(t, h) && Leads(path, k) && FullPath(path, l)
    ensures RemoveAgrees(path, t, k, l, h)
    decreases |path|
  {
    if path != [] {
      hide RemoveAgrees;
      RepairStep(path, t, k, l, h);
      RemoveByPath(path[..|path| - 1], Fill(path[|path| - 1], t), k, l, h + 1);
      RemoveAgreesUp(path, t, path[..|path| - 1], Fill(path[|path| - 1], t), k, l, h);
    }
  }

  // ----- paths in a sound tree -----

  /** What soundness of a tree says about the end of a path and the steps to it. */
  lemma {:induction false} SoundPath<V>(path: seq<Step<V>>, t: Tree<V>, l: Limits, h: nat)
    returns (lo: Option<int>, hi: Option<int>)
    requires LimitsOk(l) && SoundRoot(Some(Plug(path, t)), l, h + |path|)
    ensures Sound(t, l, h, lo, hi) && Shaped(t, h) && (path != [] ==> Size(t) >= MinSize(t, l))
    ensures path == [] ==> Size(t) >= if t.Leaf? then 1 else 2
    ensures ShapedPath(path, h) && FullPath(path, l)
    decreases |path|
  {
    if path == [] {
      lo, hi := None, None;
      SoundIsShaped(t, l, h, None, None);
    } else {
      var s, rest := path[|path| - 1], path[..|path| - 1];
      lo, hi := SoundPath(rest, Fill(s, t), l, h + 1);
      SoundStep(s, t, l, h, lo, hi);
      lo, hi := Lo(s.keys, |s.left|, lo), Hi(s.keys, |s.left|, hi);
      SoundIsShaped(t, l, h, lo, hi);
      assert forall i :: 0 <= i < |rest| ==> path[i] == rest[i];
    }
  }

  lemma SoundStep<V>(s: Step<V>, t: Tree<V>, l: Limits, h: nat, lo: Option<int>, hi: Option<int>)
    requires Sound(Fill(s, t), l, h + 1, lo, hi)
    ensures |s.left| + |s.right| == |s.keys| && ShapedStep(s, h)
    ensures SoundChild(t, l, h, Lo(s.keys, |s.left|, lo), Hi(s.keys, |s.left|, hi))
  {
    var cs := s.left + [t] + s.right;
    assert SoundChildren(s.keys, cs, l, h + 1, lo, hi);
    assert SoundChild(cs[|s.left|], l, h, Lo(s.keys, |s.left|, lo), Hi(s.keys, |s.left|, hi));
    ChildrenShaped(s.keys, cs, l, h + 1, lo, hi);
    assert forall i :: 0 <= i < |s.left| ==> s.left[i] == cs[i];
    assert forall i :: 0 <= i < |s.right| ==> s.right[i] == cs[|s.left| + 1 + i];
  }
}
