/**
 The LRU-K replacer.  The class keeps the two lists, the two maps of list iterators, the access
 counts, the evictable flags and the size of the original; the ghost field `log` records every
 call that had an effect, and `Valid` says what the lists must look like after that history.
 */
module LruK {
  import opened Options
  import Sets

  // ----- histories -----

  /** `Access`: RecordAccess, `Mark`: SetEvictable, `Drop`: Evict or Remove of a tracked frame. */
  datatype Event = Access(frame: int) | Mark(frame: int, evictable: bool) | Drop(frame: int)

  /** Accesses of `f` since it last entered the replacer. */
  ghost function Count(log: seq<Event>, f: int): nat {
    if log == [] then 0
    else
      var n, e := Count(log[..|log| - 1], f), log[|log| - 1];
      if e.frame != f then n
      else match e
        case Access(_) => n + 1
        case Mark(_, _) => n
        case Drop(_) => 0
  }

  /** Time of the first access of `f` since it last entered, or -1. */
  ghost function First(log: seq<Event>, f: int): int {
    if log == [] then -1
    else
      var t, e := First(log[..|log| - 1], f), log[|log| - 1];
      if e.frame != f then t
      else match e
        case Access(_) => if t == -1 then |log| - 1 else t
        case Mark(_, _) => t
        case Drop(_) => -1
  }

  /** Time of the last access of `f` since it last entered, or -1. */
  ghost function Last(log: seq<Event>, f: int): int {
    if log == [] then -1
    else
      var t, e := Last(log[..|log| - 1], f), log[|log| - 1];
      if e.frame != f then t
      else match e
        case Access(_) => |log| - 1
        case Mark(_, _) => t
        case Drop(_) => -1
  }

  /** The flag of `f`: set by SetEvictable for a tracked frame only, cleared when the frame leaves. */
  ghost predicate Evictable(log: seq<Event>, f: int) {
    if log == [] then false
    else
      var b, e := Evictable(log[..|log| - 1], f), log[|log| - 1];
      if e.frame != f then b
      else match e
        case Access(_) => b
        case Mark(_, m) => if Count(log[..|log| - 1], f) == 0 then b else m
        case Drop(_) => false
  }

  lemma {:induction false} HistoryFacts(log: seq<Event>, f: int)
    ensures Evictable(log, f) ==> Count(log, f) > 0
    ensures Count(log, f) > 0 <==> First(log, f) >= 0
    ensures Count(log, f) > 0 <==> Last(log, f) >= 0
    ensures -1 <= First(log, f) <= Last(log, f) < |log|
  {
    if log != [] { HistoryFacts(log[..|log| - 1], f); }
  }

  /** What one more event does to each of the four readings of a history. */
  lemma Extend(log: seq<Event>, e: Event, f: int)
    ensures e.frame != f ==>
              && Count(log + [e], f) == Count(log, f) && Evictable(log + [e], f) == Evictable(log, f)
              && First(log + [e], f) == First(log, f) && Last(log + [e], f) == Last(log, f)
    ensures e == Access(f) ==>
              && Count(log + [e], f) == Count(log, f) + 1 && Evictable(log + [e], f) == Evictable(log, f)
              && First(log + [e], f) == (if Count(log, f) == 0 then |log| else First(log, f))
              && Last(log + [e], f) == |log|
    ensures e.Mark? && e.frame == f ==>
              && Count(log + [e], f) == Count(log, f)
              && Evictable(log + [e], f) == (Count(log, f) > 0 && e.evictable)
              && First(log + [e], f) == First(log, f) && Last(log + [e], f) == Last(log, f)
    ensures e == Drop(f) ==>
              && Count(log + [e], f) == 0 && !Evictable(log + [e], f)
              && First(log + [e], f) == -1 && Last(log + [e], f) == -1
  {
    HistoryFacts(log, f);
    assert (log + [e])[..|log + [e]| - 1] == log;
  }

  /**
   The frame Evict picks among the evictable frames `E`: of those with fewer than `k` accesses the one
   whose first access is earliest; if there is none, the one whose last access is earliest.
   */
  ghost predicate IsVictim(log: seq<Event>, k: nat, E: set<int>, v: int) {
    && v in E
    && (if exists f :: f in E && Count(log, f) < k
        then Count(log, v) < k && forall f :: f in E && Count(log, f) < k && f != v ==> First(log, v) < First(log, f)
        else forall f :: f in E && f != v ==> Last(log, v) < Last(log, f))
  }

  lemma {:induction false} TimesAreAccesses(log: seq<Event>, f: int)
    requires Count(log, f) > 0
    ensures 0 <= First(log, f) < |log| && log[First(log, f)] == Access(f)
    ensures 0 <= Last(log, f) < |log| && log[Last(log, f)] == Access(f)
  {
    HistoryFacts(log[..|log| - 1], f);
    if Count(log[..|log| - 1], f) > 0 { TimesAreAccesses(log[..|log| - 1], f); }
  }

  /** The frames that come first in a ranking have one of lowest rank, if they are any. */
  lemma {:induction false} Lowest(log: seq<Event>, byLast: bool, E: set<int>) returns (v: int)
    requires |E| > 0 && forall f :: f in E ==> Count(log, f) > 0
    ensures v in E && forall f :: f in E && f != v ==> Rank(log, byLast, v) < Rank(log, byLast, f)
    decreases E
  {
    var e := Sets.Member(E);
    v := e;
    if |E| > 1 {
      v := Lowest(log, byLast, E - {e});
      TimesAreAccesses(log, e);
      TimesAreAccesses(log, v);
      assert Rank(log, byLast, v) != Rank(log, byLast, e);
      if Rank(log, byLast, e) < Rank(log, byLast, v) { v := e; }
    } else {
      assert E - {e} == {};
    }
  }

  /** Any frames in the replacer have one victim among them, and one only. */
  lemma OneVictim(log: seq<Event>, k: nat, E: set<int>) returns (v: int)
    requires |E| > 0 && forall f :: f in E ==> Count(log, f) > 0
    ensures IsVictim(log, k, E, v) && forall w :: IsVictim(log, k, E, w) ==> w == v
  {
    hide Count, First, Last;
    var young := set f | f in E && Count(log, f) < k;
    if |young| > 0 {
      v := Lowest(log, false, young);
    } else {
      v := Lowest(log, true, E);
    }
    assert forall f :: f in young <==> f in E && Count(log, f) < k;
  }

  // ----- the documented policy -----

  /** Time of the `n`-th most recent access of `f` since it last entered, or -1. */
  ghost function NthLast(log: seq<Event>, n: nat, f: int): int {
    if log == [] || n == 0 then -1
    else
      var rest, e := log[..|log| - 1], log[|log| - 1];
      if e.frame != f || e.Mark? then NthLast(rest, n, f)
      else if e.Drop? then -1
      else if n == 1 then |log| - 1
      else NthLast(rest, n - 1, f)
  }

  /**
   The victim as the class comment promises it: classical LRU, that is the last access, ranks frames with
   fewer than `k` accesses, and the k-th previous access all others.
   */
  ghost predicate IsPromisedVictim(log: seq<Event>, k: nat, E: set<int>, v: int) {
    && v in E
    && (if exists f :: f in E && Count(log, f) < k
        then Count(log, v) < k && forall f :: f in E && Count(log, f) < k && f != v ==> Last(log, v) < Last(log, f)
        else forall f :: f in E && f != v ==> NthLast(log, k, v) < NthLast(log, k, f))
  }

  /**
   On this history first and last accesses rank frames with fewer than `k` accesses alike, and last and k-th
   previous accesses the others.
   */
  ghost predicate RankingsAgree(log: seq<Event>, k: nat) {
    && (forall f, g :: Count(log, f) < k && Count(log, g) < k && First(log, f) < First(log, g) ==>
        Last(log, f) < Last(log, g))
    && (forall f, g :: k <= Count(log, f) && k <= Count(log, g) && Last(log, f) < Last(log, g)
                       ==> NthLast(log, k, f) < NthLast(log, k, g))
  }

  /** Whatever frames are evictable, the victim is the promised one: exactly when the rankings agree. */
  lemma PolicyKeptIff(log: seq<Event>, k: nat)
    ensures (forall E: set<int>, v :: IsVictim(log, k, E, v) ==> IsPromisedVictim(log, k, E, v)) <==>
            RankingsAgree(log, k)
  {
    hide Count, First, Last, NthLast;
    if forall E: set<int>, v :: IsVictim(log, k, E, v) ==> IsPromisedVictim(log, k, E, v) {
      forall f, g | Count(log, f) < k && Count(log, g) < k && First(log, f) < First(log, g)
        ensures Last(log, f) < Last(log, g)
      {
        assert f in {f, g} && g in {f, g};
        assert IsVictim(log, k, {f, g}, f);
        assert IsPromisedVictim(log, k, {f, g}, f);
      }
      forall f, g | k <= Count(log, f) && k <= Count(log, g) && Last(log, f) < Last(log, g)
        ensures NthLast(log, k, f) < NthLast(log, k, g)
      {
        assert IsVictim(log, k, {f, g}, f);
        assert IsPromisedVictim(log, k, {f, g}, f);
        assert g in {f, g};
      }
    }
  }

  /** The rankings do not always agree: with k = 2 and accesses 1, 2, 2, 1 frame 2 is evicted instead of frame 1. */
  lemma PolicyNotAlwaysKept()
    ensures var log := [Access(1), Access(2), Access(2), Access(1)];
            && IsVictim(log, 2, {1, 2}, 2)
            && IsPromisedVictim(log, 2, {1, 2}, 1)
            && !RankingsAgree(log, 2)
  {
    var l1: seq<Event>, l2, l3 := [Access(1)], [Access(1), Access(2)], [Access(1), Access(2), Access(2)];
    var log := [Access(1), Access(2), Access(2), Access(1)];
    assert l1[..0] == [] && l2[..1] == l1 && l3[..2] == l2 && log[..3] == l3;
    assert Count(l1, 1) == 1 && Count(l1, 2) == 0 && NthLast(l1, 1, 1) == 0;
    assert Count(l2, 1) == 1 && Count(l2, 2) == 1 && NthLast(l2, 1, 1) == 0 && NthLast(l2, 1, 2) == 1;
    assert Count(l3, 1) == 1 && Count(l3, 2) == 2 && NthLast(l3, 1, 1) == 0 && NthLast(l3, 2, 2) == 1;
    assert Last(l3, 2) == 2;
    assert Count(log, 1) == 2 && Count(log, 2) == 2 && NthLast(log, 2, 1) == 0 && NthLast(log, 2, 2) == 1;
    assert Last(log, 1) == 3 && Last(log, 2) == 2;
  }

  /**
   Nor below k accesses: with k = 3 and accesses 1, 2, 1 frame 1 is evicted, though frame 2 was used less recently.
   */
  lemma ClassicalLruNotKept()
    ensures var log := [Access(1), Access(2), Access(1)];
            && IsVictim(log, 3, {1, 2}, 1)
            && IsPromisedVictim(log, 3, {1, 2}, 2)
            && !RankingsAgree(log, 3)
  {
    var l1: seq<Event>, l2, log := [Access(1)], [Access(1), Access(2)], [Access(1), Access(2), Access(1)];
    assert l1[..0] == [] && l2[..1] == l1 && log[..2] == l2;
    assert Count(l1, 1) == 1 && Count(l1, 2) == 0 && First(l1, 1) == 0 && First(l1, 2) == -1;
    assert Count(l2, 1) == 1 && Count(l2, 2) == 1 && First(l2, 1) == 0 && First(l2, 2) == 1 && Last(l2, 2) == 1;
    assert Count(log, 1) == 2 && Count(log, 2) == 1 && First(log, 1) == 0 && First(log, 2) == 1;
    assert Last(log, 1) == 2 && Last(log, 2) == 1;
    assert 1 in {1, 2} && 2 in {1, 2};
  }

  // ----- lists of nodes -----

  /** A list node; a reference to it is the iterator that the maps store. */
  class Node {
    const frame: int
    constructor (frame: int)
      ensures this.frame == frame
    {
      this.frame := frame;
    }
  }

  /** The map holds, for exactly the frames of the list, the iterator of their only node. */
  ghost predicate InStep(list: seq<Node>, iterators: map<int, Node>) {
    && (forall i :: 0 <= i < |list| ==> list[i].frame in iterators && iterators[list[i].frame] == list[i])
    && (forall f :: f in iterators ==> iterators[f] in list && iterators[f].frame == f)
    && (forall i, j :: 0 <= i < j < |list| ==> list[i] != list[j])
  }

  lemma IteratorInList(list: seq<Node>, iterators: map<int, Node>, f: int)
    requires InStep(list, iterators) && f in iterators
    ensures iterators[f] in list
  {
  }

  /** The time that orders a list: the last access for the cache, the first one for the history. */
  ghost function Rank(log: seq<Event>, byLast: bool, f: int): int {
    if byLast then Last(log, f) else First(log, f)
  }

  /** The list is in descending order of rank: newest in front. */
  ghost predicate Descending(list: seq<Node>, log: seq<Event>, byLast: bool) {
    forall i, j :: 0 <= i < j < |list| ==> Rank(log, byLast, list[i].frame) > Rank(log, byLast, list[j].frame)
  }

  function Position(list: seq<Node>, it: Node): (p: nat)
    requires it in list
    ensures p < |list| && list[p] == it
  {
    if list[0] == it then 0 else 1 + Position(list[1..], it)
  }

  /** `list.erase(it)`. */
  function Erase(list: seq<Node>, it: Node): seq<Node>
    requires it in list
  {
    var p := Position(list, it);
    list[..p] + list[p + 1..]
  }

  lemma EraseAt(list: seq<Node>, it: Node)
    requires it in list
    ensures |Erase(list, it)| == |list| - 1
    ensures forall i :: 0 <= i < |list| - 1 ==>
              Erase(list, it)[i] == list[if i < Position(list, it) then i else i + 1]
  {
  }

  lemma EraseMember(list: seq<Node>, it: Node, node: Node)
    requires it in list && node in list && node != it
    ensures node in Erase(list, it)
  {
    EraseAt(list, it);
    var i :| 0 <= i < |list| && list[i] == node;
    var p := Position(list, it);
    assert Erase(list, it)[if i < p then i else i - 1] == node;
  }

  lemma EraseInStep(list: seq<Node>, iterators: map<int, Node>, f: int)
    requires InStep(list, iterators) && f in iterators
    ensures InStep(Erase(list, iterators[f]), iterators - {f})
  {
    EraseAt(list, iterators[f]);
    hide Erase, Position;
    forall g | g in iterators - {f} ensures iterators[g] in Erase(list, iterators[f]) {
      EraseMember(list, iterators[f], iterators[g]);
    }
  }

  lemma EraseDescending(list: seq<Node>, it: Node, log: seq<Event>, byLast: bool)
    requires it in list && Descending(list, log, byLast)
    ensures Descending(Erase(list, it), log, byLast)
  {
    EraseAt(list, it);
    hide Erase, Position, Rank;
  }

  lemma PushInStep(list: seq<Node>, iterators: map<int, Node>, node: Node)
    requires InStep(list, iterators) && node.frame !in iterators
    ensures InStep([node] + list, iterators[node.frame := node])
  {
    var t := [node] + list;
    assert t[0] == node && t[0] in t;
    forall g | g in iterators ensures iterators[g] in t {
      var i :| 0 <= i < |list| && list[i] == iterators[g];
      assert t[i + 1] == list[i];
    }
  }

  lemma PushDescending(list: seq<Node>, iterators: map<int, Node>, node: Node, log: seq<Event>, byLast: bool)
    requires InStep(list, iterators) && Descending(list, log, byLast)
    requires forall f :: f in iterators ==> Rank(log, byLast, f) < Rank(log, byLast, node.frame)
    ensures Descending([node] + list, log, byLast)
  {
    hide Rank;
  }

  /** Events that leave the ranks of the listed frames alone leave the order alone. */
  lemma SameRanks(list: seq<Node>, iterators: map<int, Node>, log: seq<Event>, log': seq<Event>, byLast: bool)
    requires InStep(list, iterators) && Descending(list, log, byLast)
    requires forall f :: f in iterators ==> Rank(log, byLast, f) == Rank(log', byLast, f)
    ensures Descending(list, log', byLast)
  {
    hide Rank;
  }

  // ----- the two lists and the history -----

  /**
   The history list holds exactly the frames with `0 < count < k`, newest first access in front;
   the cache list exactly those with `count >= k`, newest last access in front.
   */
  ghost predicate ListsFit(hl: seq<Node>, hm: map<int, Node>, cl: seq<Node>, cm: map<int, Node>, log: seq<Event>,
                           k: nat) {
    && InStep(hl, hm) && InStep(cl, cm)
    && (forall f :: f in hm <==> 0 < Count(log, f) < k)
    && (forall f :: f in cm <==> 0 < Count(log, f) && k <= Count(log, f))
    && Descending(hl, log, false) && Descending(cl, log, true)
  }

  ghost function EvictableSet(hm: map<int, Node>, cm: map<int, Node>, log: seq<Event>): set<int> {
    set f | f in hm.Keys + cm.Keys && Evictable(log, f)
  }

  lemma EvictableSetMembers(hl: seq<Node>, hm: map<int, Node>, cl: seq<Node>, cm: map<int, Node>, log: seq<Event>,
                            k: nat)
    requires ListsFit(hl, hm, cl, cm, log, k)
    ensures forall f :: f in EvictableSet(hm, cm, log) <==> Evictable(log, f)
  {
    hide Count, First, Last, Evictable, InStep, Descending;
    forall f | Evictable(log, f) ensures f in hm.Keys + cm.Keys {
      HistoryFacts(log, f);
    }
  }

  /** Ranks and counts of the frames an event is not about. */
  lemma ExtendOthers(log: seq<Event>, e: Event)
    ensures forall f :: f != e.frame ==>
              && Count(log + [e], f) == Count(log, f)
              && Evictable(log + [e], f) == Evictable(log, f)
              && Rank(log + [e], false, f) == Rank(log, false, f)
              && Rank(log + [e], true, f) == Rank(log, true, f)
  {
    hide Count, First, Last, Evictable;
    forall f ensures f != e.frame ==>
              && Count(log + [e], f) == Count(log, f)
              && Evictable(log + [e], f) == Evictable(log, f)
              && Rank(log + [e], false, f) == Rank(log, false, f)
              && Rank(log + [e], true, f) == Rank(log, true, f)
    {
      Extend(log, e, f);
    }
  }

  /** Removing a node from one list, with an event that is about that node's frame. */
  lemma EraseFits(list: seq<Node>, iterators: map<int, Node>, log: seq<Event>, e: Event, byLast: bool)
    requires InStep(list, iterators) && Descending(list, log, byLast) && e.frame in iterators
    ensures InStep(Erase(list, iterators[e.frame]), iterators - {e.frame})
    ensures Descending(Erase(list, iterators[e.frame]), log + [e], byLast)
  {
    hide Erase, Rank, Descending;
    EraseInStep(list, iterators, e.frame);
    EraseDescending(list, iterators[e.frame], log, byLast);
    ExtendOthers(log, e);
    SameRanks(Erase(list, iterators[e.frame]), iterators - {e.frame}, log, log + [e], byLast);
  }

  /** Leaving alone a list that the event is not about. */
  lemma SkipFits(list: seq<Node>, iterators: map<int, Node>, log: seq<Event>, e: Event, byLast: bool)
    requires InStep(list, iterators) && Descending(list, log, byLast)
    requires e.frame in iterators ==> Rank(log + [e], byLast, e.frame) == Rank(log, byLast, e.frame)
    ensures Descending(list, log + [e], byLast)
  {
    hide Rank, Descending;
    ExtendOthers(log, e);
    SameRanks(list, iterators, log, log + [e], byLast);
  }

  /** An accessed frame that is put in front has the newest rank. */
  lemma PushFits(list: seq<Node>, iterators: map<int, Node>, node: Node, log: seq<Event>, byLast: bool)
    requires InStep(list, iterators) && node.frame !in iterators
    requires Descending(list, log + [Access(node.frame)], byLast)
    requires byLast || Count(log, node.frame) == 0
    ensures InStep([node] + list, iterators[node.frame := node])
    ensures Descending([node] + list, log + [Access(node.frame)], byLast)
  {
    hide Count, First, Last, Evictable, Descending;
    PushInStep(list, iterators, node);
    var e := Access(node.frame);
    Extend(log, e, node.frame);
    forall f | f in iterators ensures Rank(log + [e], byLast, f) < Rank(log + [e], byLast, node.frame) {
      Extend(log, e, f);
      HistoryFacts(log, f);
    }
    PushDescending(list, iterators, node, log + [e], byLast);
  }

  lemma CountAfterAccess(log: seq<Event>, f: int)
    ensures Count(log + [Access(f)], f) == Count(log, f) + 1
    ensures Count(log, f) > 0 ==> First(log + [Access(f)], f) == First(log, f)
  {
    hide Last, Evictable;
    Extend(log, Access(f), f);
  }

  /** RecordAccess number `k`: from the history to the front of the cache. */
  lemma AccessMoves(hl: seq<Node>, hm: map<int, Node>, cl: seq<Node>, cm: map<int, Node>, log: seq<Event>, k: nat,
                    node: Node)
    requires ListsFit(hl, hm, cl, cm, log, k) && k != 1
    requires Count(log, node.frame) + 1 == k
    ensures node.frame in hm && hm[node.frame] in hl
    ensures ListsFit(Erase(hl, hm[node.frame]), hm - {node.frame}, [node] + cl, cm[node.frame := node],
                     log + [Access(node.frame)], k)
  {
    hide Count, First, Last, Evictable, InStep, Descending, Erase;
    IteratorInList(hl, hm, node.frame);
    var e := Access(node.frame);
    EraseFits(hl, hm, log, e, false);
    SkipFits(cl, cm, log, e, true);
    PushFits(cl, cm, node, log, true);
    ExtendOthers(log, e);
    CountAfterAccess(log, node.frame);
  }

  /** A later RecordAccess: to the front of the cache. */
  lemma AccessRefreshes(hl: seq<Node>, hm: map<int, Node>, cl: seq<Node>, cm: map<int, Node>, log: seq<Event>, k: nat,
                        node: Node)
    requires ListsFit(hl, hm, cl, cm, log, k)
    requires Count(log, node.frame) + 1 > k && node.frame in cm && cm[node.frame] in cl
    ensures ListsFit(hl, hm, [node] + Erase(cl, cm[node.frame]), (cm - {node.frame})[node.frame := node],
                     log + [Access(node.frame)], k)
  {
    hide Count, First, Last, Evictable, InStep, Descending, Erase;
    var e := Access(node.frame);
    EraseFits(cl, cm, log, e, true);
    SkipFits(hl, hm, log, e, false);
    PushFits(Erase(cl, cm[node.frame]), cm - {node.frame}, node, log, true);
    ExtendOthers(log, e);
    CountAfterAccess(log, node.frame);
  }

  /** The first RecordAccess with `k == 0`: straight to the cache. */
  lemma AccessEntersCache(hl: seq<Node>, hm: map<int, Node>, cl: seq<Node>, cm: map<int, Node>, log: seq<Event>, k: nat,
                          node: Node)
    requires ListsFit(hl, hm, cl, cm, log, k)
    requires Count(log, node.frame) + 1 > k && node.frame !in cm
    ensures ListsFit(hl, hm, [node] + cl, cm[node.frame := node], log + [Access(node.frame)], k)
  {
    hide Count, First, Last, Evictable, InStep, Descending, Erase;
    var e := Access(node.frame);
    SkipFits(hl, hm, log, e, false);
    SkipFits(cl, cm, log, e, true);
    PushFits(cl, cm, node, log, true);
    ExtendOthers(log, e);
    CountAfterAccess(log, node.frame);
  }

  /** An early RecordAccess: into the history, once. */
  lemma AccessEntersHistory(hl: seq<Node>, hm: map<int, Node>, cl: seq<Node>, cm: map<int, Node>, log: seq<Event>,
                            k: nat, node: Node)
    requires ListsFit(hl, hm, cl, cm, log, k)
    requires Count(log, node.frame) + 1 < k && node.frame !in hm
    ensures ListsFit([node] + hl, hm[node.frame := node], cl, cm, log + [Access(node.frame)], k)
  {
    hide Count, First, Last, Evictable, InStep, Descending, Erase;
    var e := Access(node.frame);
    SkipFits(hl, hm, log, e, false);
    PushFits(hl, hm, node, log, false);
    SkipFits(cl, cm, log, e, true);
    ExtendOthers(log, e);
    CountAfterAccess(log, node.frame);
  }

  lemma AccessStaysInHistory(hl: seq<Node>, hm: map<int, Node>, cl: seq<Node>, cm: map<int, Node>, log: seq<Event>,
                             k: nat, f: int)
    requires ListsFit(hl, hm, cl, cm, log, k)
    requires Count(log, f) + 1 < k && f in hm
    ensures ListsFit(hl, hm, cl, cm, log + [Access(f)], k)
  {
    hide Count, First, Last, Evictable, InStep, Descending, Erase;
    var e := Access(f);
    CountAfterAccess(log, f);
    SkipFits(hl, hm, log, e, false);
    SkipFits(cl, cm, log, e, true);
    ExtendOthers(log, e);
  }

  lemma MarkFits(hl: seq<Node>, hm: map<int, Node>, cl: seq<Node>, cm: map<int, Node>, log: seq<Event>, k: nat, f: int,
                 b: bool)
    requires ListsFit(hl, hm, cl, cm, log, k)
    ensures ListsFit(hl, hm, cl, cm, log + [Mark(f, b)], k)
  {
    hide Count, First, Last, Evictable, InStep, Descending, Erase;
    var e := Mark(f, b);
    Extend(log, e, f);
    SkipFits(hl, hm, log, e, false);
    SkipFits(cl, cm, log, e, true);
    ExtendOthers(log, e);
  }

  /** Evict or Remove of a frame, from whichever list holds it. */
  lemma DropFits(hl: seq<Node>, hm: map<int, Node>, cl: seq<Node>, cm: map<int, Node>, log: seq<Event>, k: nat, f: int)
    requires ListsFit(hl, hm, cl, cm, log, k)
    ensures f in hm ==> hm[f] in hl && ListsFit(Erase(hl, hm[f]), hm - {f}, cl, cm, log + [Drop(f)], k)
    ensures f in cm ==> cm[f] in cl && ListsFit(hl, hm, Erase(cl, cm[f]), cm - {f}, log + [Drop(f)], k)
  {
    hide Count, First, Last, Evictable, InStep, Descending, Erase;
    var e := Drop(f);
    Extend(log, e, f);
    ExtendOthers(log, e);
    if f in hm {
      IteratorInList(hl, hm, f);
      EraseFits(hl, hm, log, e, false);
      SkipFits(cl, cm, log, e, true);
    }
    if f in cm {
      IteratorInList(cl, cm, f);
      EraseFits(cl, cm, log, e, true);
      SkipFits(hl, hm, log, e, false);
    }
  }

  /** The count and flag maps, missing entries reading as zero, agree with the history. */
  ghost predicate CountsFit(counts: map<int, nat>, flags: map<int, bool>, log: seq<Event>) {
    && (forall f :: Count(log, f) == if f in counts then counts[f] else 0)
    && (forall f :: Evictable(log, f) <==> f in flags && flags[f])
  }

  lemma AccessCounts(counts: map<int, nat>, flags: map<int, bool>, log: seq<Event>, f: int)
    requires CountsFit(counts, flags, log)
    ensures CountsFit(counts[f := Count(log, f) + 1], flags, log + [Access(f)])
  {
    hide Count, First, Last, Evictable, Rank;
    ExtendOthers(log, Access(f));
    Extend(log, Access(f), f);
  }

  lemma MarkCounts(counts: map<int, nat>, flags: map<int, bool>, log: seq<Event>, f: int, b: bool)
    requires CountsFit(counts, flags, log)
    ensures CountsFit(counts, if Count(log, f) == 0 then flags else flags[f := b], log + [Mark(f, b)])
  {
    hide Count, First, Last, Evictable, Rank;
    ExtendOthers(log, Mark(f, b));
    Extend(log, Mark(f, b), f);
    HistoryFacts(log, f);
  }

  lemma DropCounts(counts: map<int, nat>, flags: map<int, bool>, log: seq<Event>, f: int)
    requires CountsFit(counts, flags, log)
    ensures CountsFit(counts[f := 0], flags[f := false], log + [Drop(f)])
  {
    hide Count, First, Last, Evictable, Rank;
    ExtendOthers(log, Drop(f));
    Extend(log, Drop(f), f);
  }

  /** How an event changes the number of evictable frames, whatever it did to the lists. */
  lemma SizeStep(hl: seq<Node>, hm: map<int, Node>, cl: seq<Node>, cm: map<int, Node>, log: seq<Event>, k: nat,
                 hl': seq<Node>, hm': map<int, Node>, cl': seq<Node>, cm': map<int, Node>, e: Event)
    requires ListsFit(hl, hm, cl, cm, log, k) && ListsFit(hl', hm', cl', cm', log + [e], k)
    ensures |EvictableSet(hm', cm', log + [e])| == |EvictableSet(hm, cm, log)|
              + (if Evictable(log + [e], e.frame) then 1 else 0) - (if Evictable(log, e.frame) then 1 else 0)
  {
    hide Count, First, Last, Evictable, Rank, ListsFit;
    var s, s' := EvictableSet(hm, cm, log), EvictableSet(hm', cm', log + [e]);
    EvictableSetMembers(hl, hm, cl, cm, log, k);
    EvictableSetMembers(hl', hm', cl', cm', log + [e], k);
    hide EvictableSet;
    ExtendOthers(log, e);
    SetDelta(s, s', e.frame);
  }

  lemma SetDelta(s: set<int>, s': set<int>, x: int)
    requires forall y :: y != x ==> (y in s <==> y in s')
    ensures |s'| == |s| + (if x in s' then 1 else 0) - (if x in s then 1 else 0)
  {
    forall y ensures y in s' - {x} <==> y in s - {x} {
    }
    assert s' - {x} == s - {x};
    assert s == (if x in s then s - {x} + {x} else s - {x});
    assert s' == (if x in s' then s' - {x} + {x} else s' - {x});
  }

  // ----- the replacer -----

  class LRUKReplacer {
    const replacerSize: nat
    const k: nat
    var currSize: nat
    var accessCount: map<int, nat>
    var historyList: seq<Node>
    var historyMap: map<int, Node>
    var cacheList: seq<Node>
    var cacheMap: map<int, Node>
    var isEvictable: map<int, bool>

    ghost var log: seq<Event>

    /** Lookups in the unordered maps, which create missing entries as zero. */
    function CountOf(f: int): nat
      reads this
    {
      if f in accessCount then accessCount[f] else 0
    }

    predicate FlagOf(f: int)
      reads this
    {
      f in isEvictable && isEvictable[f]
    }

    ghost predicate Valid()
      reads this
    {
      && k != 1
      && CountsFit(accessCount, isEvictable, log)
      && ListsFit(historyList, historyMap, cacheList, cacheMap, log, k)
      && currSize == |Evictables()|
    }

    ghost function Evictables(): set<int>
      reads this
    {
      EvictableSet(historyMap, cacheMap, log)
    }

    constructor (numFrames: nat, k: nat)
      requires k != 1
      ensures Valid() && log == []
      ensures replacerSize == numFrames && this.k == k
    {
      replacerSize := numFrames;
      this.k := k;
      currSize := 0;
      accessCount := map[];
      historyList, historyMap := [], map[];
      cacheList, cacheMap := [], map[];
      isEvictable := map[];
      log := [];
      new;
      assert Evictables() == {};
    }

    /** Walks a list from its end to the first evictable frame; -1 if there is none. */
    method LastEvictable(list: seq<Node>) returns (i: int)
      ensures -1 <= i < |list|
      ensures i >= 0 ==> FlagOf(list[i].frame)
      ensures forall j :: i < j < |list| ==> !FlagOf(list[j].frame)
    {
      i := |list| - 1;
      while i >= 0 && !FlagOf(list[i].frame)
        invariant -1 <= i < |list|
        invariant forall j :: i < j < |list| ==> !FlagOf(list[j].frame)
      {
        i := i - 1;
      }
    }

    method Size() returns (n: nat)
      requires Valid()
      ensures n == |Evictables()|
      ensures n == 0 <==> forall f :: !Evictable(log, f)
    {
      hide Evictable;
      EvictableSetMembers(historyList, historyMap, cacheList, cacheMap, log, k);
      n := currSize;
      if n != 0 {
        ghost var f :| f in Evictables();
        assert Evictable(log, f);
      }
    }

    /** `ok` is false when the original throws. */
    method RecordAccess(frame: int) returns (ok: bool)
      requires Valid()
      modifies this
      ensures Valid()
      ensures ok <==> frame <= replacerSize
      ensures log == if ok then old(log) + [Access(frame)] else old(log)
    {
      hide Count, First, Last, Evictable, InStep, Descending, Erase, ListsFit, CountsFit, EvictableSet;
      if frame > replacerSize {
        return false;
      }
      ghost var hl, hm, cl, cm := historyList, historyMap, cacheList, cacheMap;
      CountAgrees(frame);
      FlagAgrees(frame);
      ListAgrees(frame);
      AccessCounts(accessCount, isEvictable, log, frame);
      accessCount := accessCount[frame := CountOf(frame) + 1];
      if accessCount[frame] == k {
        var node := new Node(frame);
        AccessMoves(hl, hm, cl, cm, log, k, node);
        historyList := Erase(historyList, historyMap[frame]);
        historyMap := historyMap - {frame};
        cacheList := [node] + cacheList;
        cacheMap := cacheMap[frame := node];
      } else if accessCount[frame] > k {
        var node := new Node(frame);
        if frame in cacheMap {
          AccessRefreshes(hl, hm, cl, cm, log, k, node);
          cacheList := Erase(cacheList, cacheMap[frame]);
        } else {
          AccessEntersCache(hl, hm, cl, cm, log, k, node);
        }
        cacheList := [node] + cacheList;
        cacheMap := cacheMap[frame := node];
        assert frame in cm ==> cacheMap == (cm - {frame})[frame := node];
      } else if frame !in historyMap {
        var node := new Node(frame);
        AccessEntersHistory(hl, hm, cl, cm, log, k, node);
        historyList := [node] + historyList;
        historyMap := historyMap[frame := node];
      } else {
        AccessStaysInHistory(hl, hm, cl, cm, log, k, frame);
      }
      log := log + [Access(frame)];
      Extend(old(log), Access(frame), frame);
      SizeStep(hl, hm, cl, cm, old(log), k, historyList, historyMap, cacheList, cacheMap, Access(frame));
      return true;
    }

    method SetEvictable(frame: int, evictable: bool) returns (ok: bool)
      requires Valid()
      modifies this
      ensures Valid()
      ensures ok <==> frame <= replacerSize
      ensures log == if ok then old(log) + [Mark(frame, evictable)] else old(log)
    {
      hide Count, First, Last, Evictable, InStep, Descending, Erase, ListsFit, CountsFit, EvictableSet;
      if frame > replacerSize {
        return false;
      }
      CountAgrees(frame);
      FlagAgrees(frame);
      MarkCounts(accessCount, isEvictable, log, frame, evictable);
      MarkFits(historyList, historyMap, cacheList, cacheMap, log, k, frame, evictable);
      Extend(log, Mark(frame, evictable), frame);
      SizeStep(historyList, historyMap, cacheList, cacheMap, log, k,
               historyList, historyMap, cacheList, cacheMap, Mark(frame, evictable));
      HistoryFacts(log, frame);
      log := log + [Mark(frame, evictable)];
      if CountOf(frame) == 0 {
        return true;
      }
      if !FlagOf(frame) && evictable {
        currSize := currSize + 1;
      }
      if FlagOf(frame) && !evictable {
        currSize := currSize - 1;
      }
      isEvictable := isEvictable[frame := evictable];
      return true;
    }

    /** Throws for a tracked frame that is not evictable; does nothing for an untracked one. */
    method Remove(frame: int) returns (ok: bool)
      requires Valid()
      modifies this
      ensures Valid()
      ensures ok <==> frame <= replacerSize && (Count(old(log), frame) == 0 || Evictable(old(log), frame))
      ensures log == if ok && Count(old(log), frame) > 0 then old(log) + [Drop(frame)] else old(log)
    {
      hide Count, First, Last, Evictable, InStep, Descending, Erase, ListsFit, CountsFit, EvictableSet;
      if frame > replacerSize {
        return false;
      }
      CountAgrees(frame);
      FlagAgrees(frame);
      ListAgrees(frame);
      var cnt := CountOf(frame);
      if cnt == 0 {
        return true;
      }
      if !FlagOf(frame) {
        return false;
      }
      Forget(frame, cnt < k);
      return true;
    }

    /** What Evict and Remove do to the frame that leaves. */
    method Forget(frame: int, inHistory: bool)
      requires Valid() && Evictable(log, frame) && Count(log, frame) > 0
      requires inHistory <==> Count(log, frame) < k
      modifies this
      ensures Valid()
      ensures log == old(log) + [Drop(frame)]
    {
      hide Count, First, Last, Evictable, InStep, Descending, Erase, ListsFit, CountsFit, EvictableSet;
      ghost var hl, hm, cl, cm := historyList, historyMap, cacheList, cacheMap;
      ListAgrees(frame);
      DropCounts(accessCount, isEvictable, log, frame);
      DropFits(hl, hm, cl, cm, log, k, frame);
      accessCount := accessCount[frame := 0];
      if inHistory {
        historyList := Erase(historyList, historyMap[frame]);
        historyMap := historyMap - {frame};
      } else {
        cacheList := Erase(cacheList, cacheMap[frame]);
        cacheMap := cacheMap - {frame};
      }
      log := log + [Drop(frame)];
      Extend(old(log), Drop(frame), frame);
      SizeStep(hl, hm, cl, cm, old(log), k, historyList, historyMap, cacheList, cacheMap, Drop(frame));
      currSize := currSize - 1;
      isEvictable := isEvictable[frame := false];
    }

    /** The frame that leaves is the victim of the history; there is one exactly when any frame is evictable. */
    method Evict() returns (victim: Option<int>)
      requires Valid()
      modifies this
      ensures Valid()
      ensures forall f :: f in old(Evictables()) <==> Evictable(old(log), f)
      ensures victim.None? <==> old(Evictables()) == {}
      ensures victim.None? <==> old(currSize) == 0
      ensures victim.Some? ==>
                victim.value in old(Evictables()) && IsVictim(old(log), k, old(Evictables()), victim.value)
      ensures log == if victim.Some? then old(log) + [Drop(victim.value)] else old(log)
    {
      hide Count, First, Last, Evictable, InStep, Descending, Erase, ListsFit, CountsFit, EvictableSet, IsVictim;
      EvictableSetMembers(historyList, historyMap, cacheList, cacheMap, log, k);
      if currSize == 0 {
        return None;
      }
      var i := LastEvictable(historyList);
      if i >= 0 {
        var frame := historyList[i].frame;
        HistoryVictim(i);
        Forget(frame, true);
        return Some(frame);
      }
      var j := LastEvictable(cacheList);
      CacheVictim(j);
      var frame := cacheList[j].frame;
      Forget(frame, false);
      return Some(frame);
    }

    lemma CountAgrees(f: int)
      requires Valid()
      ensures CountOf(f) == Count(log, f)
    {
    }

    lemma FlagAgrees(f: int)
      requires Valid()
      ensures FlagOf(f) == Evictable(log, f)
    {
    }

    lemma ListAgrees(f: int)
      requires Valid()
      ensures f in historyMap <==> 0 < Count(log, f) < k
      ensures f in cacheMap <==> 0 < Count(log, f) && k <= Count(log, f)
      ensures f in historyMap ==> historyMap[f] in historyList
      ensures f in cacheMap ==> cacheMap[f] in cacheList
    {
      if f in historyMap { IteratorInList(historyList, historyMap, f); }
      if f in cacheMap { IteratorInList(cacheList, cacheMap, f); }
    }

    /** The evictable frame nearest the end of the history list is the victim. */
    lemma HistoryVictim(i: nat)
      requires Valid() && i < |historyList|
      requires FlagOf(historyList[i].frame)
      requires forall j :: i < j < |historyList| ==> !FlagOf(historyList[j].frame)
      ensures 0 < Count(log, historyList[i].frame) < k
      ensures Evictable(log, historyList[i].frame) && IsVictim(log, k, Evictables(), historyList[i].frame)
    {
      hide Count, First, Last, Evictable;
      var v := historyList[i].frame;
      FlagAgrees(v);
      assert v in historyMap;
      forall f | Evictable(log, f) && Count(log, f) < k && f != v ensures First(log, v) < First(log, f) {
        HistoryFacts(log, f);
        assert f in historyMap;
        var j :| 0 <= j < |historyList| && historyList[j] == historyMap[f];
        FlagAgrees(f);
        assert j < i;
        assert Rank(log, false, f) > Rank(log, false, v);
      }
    }

    /** With no evictable frame in the history list there is one in the cache list, and the last one is the victim. */
    lemma CacheVictim(i: int)
      requires Valid() && currSize > 0 && -1 <= i < |cacheList|
      requires forall j :: 0 <= j < |historyList| ==> !FlagOf(historyList[j].frame)
      requires i >= 0 ==> FlagOf(cacheList[i].frame)
      requires forall j :: i < j < |cacheList| ==> !FlagOf(cacheList[j].frame)
      ensures i >= 0
      ensures Count(log, cacheList[i].frame) > 0 && k <= Count(log, cacheList[i].frame)
      ensures Evictable(log, cacheList[i].frame) && IsVictim(log, k, Evictables(), cacheList[i].frame)
    {
      hide Count, First, Last, Evictable;
      forall f | Evictable(log, f)
        ensures k <= Count(log, f) && f in cacheMap
      {
        HistoryFacts(log, f);
        FlagAgrees(f);
      }
      forall f | Evictable(log, f) && (i < 0 || f != cacheList[i].frame)
        ensures i >= 0 && Last(log, cacheList[i].frame) < Last(log, f)
      {
        var j :| 0 <= j < |cacheList| && cacheList[j] == cacheMap[f];
        FlagAgrees(f);
        assert j <= i;
        assert j < i ==> Rank(log, true, f) > Rank(log, true, cacheList[i].frame);
      }
      var f :| f in Evictables();
      assert Evictable(log, f);
      FlagAgrees(cacheList[i].frame);
    }
  }
}
