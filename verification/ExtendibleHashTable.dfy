/**
 The in-memory extendible hash table: a directory of `2^globalDepth` pointers to shared buckets,
 doubled and split on demand.  Buckets are heap objects, so that "two directory slots share a
 bucket" is equality of references, as in the program.
 */
module ExtendibleHash {
  import opened Bits
  import opened Options
  import opened Sets

  // ----- association lists -----

  ghost predicate HasKey<K(!new), V(!new)>(s: seq<(K, V)>, key: K) {
    exists i :: 0 <= i < |s| && s[i].0 == key
  }

  ghost predicate DistinctKeys<K(!new), V(!new)>(s: seq<(K, V)>) {
    forall i, j :: 0 <= i < j < |s| ==> s[i].0 != s[j].0
  }

  /** The finite map a list of pairs stands for. */
  ghost function Entries<K(!new), V(!new)>(s: seq<(K, V)>): map<K, V> {
    if s == [] then map[] else Entries(s[..|s| - 1])[s[|s| - 1].0 := s[|s| - 1].1]
  }

  lemma {:induction false} EntriesKeys<K(!new), V(!new)>(s: seq<(K, V)>)
    ensures forall k :: k in Entries(s) <==> HasKey(s, k)
  {
    if s != [] {
      var n := |s| - 1;
      EntriesKeys(s[..n]);
      forall k | k in Entries(s) ensures HasKey(s, k) {
        if k == s[n].0 {
          assert s[n].0 == k;
        } else {
          assert HasKey(s[..n], k);
          var i :| 0 <= i < |s[..n]| && s[..n][i].0 == k;
          assert s[i].0 == k;
        }
      }
      forall k | HasKey(s, k) ensures k in Entries(s) {
        var i :| 0 <= i < |s| && s[i].0 == k;
        assert i < n ==> s[..n][i].0 == k;
      }
    }
  }

  lemma {:induction false} EntryAt<K(!new), V(!new)>(s: seq<(K, V)>, i: nat)
    requires DistinctKeys(s) && i < |s|
    ensures s[i].0 in Entries(s) && Entries(s)[s[i].0] == s[i].1
  {
    if i < |s| - 1 {
      EntryAt(s[..|s| - 1], i);
    }
  }

  lemma {:induction false} EntriesSize<K(!new), V(!new)>(s: seq<(K, V)>)
    requires DistinctKeys(s)
    ensures |Entries(s)| == |s|
  {
    if s != [] {
      var n := |s| - 1;
      EntriesSize(s[..n]);
      EntriesKeys(s[..n]);
      assert !HasKey(s[..n], s[n].0);
    }
  }

  lemma {:induction false} EntriesConcat<K(!new), V(!new)>(s: seq<(K, V)>, t: seq<(K, V)>)
    ensures Entries(s + t) == Entries(s) + Entries(t)
  {
    if t == [] {
      assert s + t == s;
    } else {
      var n := |t| - 1;
      EntriesConcat(s, t[..n]);
      assert (s + t)[..|s + t| - 1] == s + t[..n];
    }
  }

  lemma DistinctWithout<K(!new), V(!new)>(s: seq<(K, V)>, i: nat)
    requires DistinctKeys(s) && i < |s|
    ensures DistinctKeys(s[..i] + s[i + 1..])
    ensures !HasKey(s[..i], s[i].0) && !HasKey(s[i + 1..], s[i].0)
  {
    var t := s[..i] + s[i + 1..];
    forall p, q | 0 <= p < q < |t| ensures t[p].0 != t[q].0 {
      assert t[p] == s[if p < i then p else p + 1];
      assert t[q] == s[if q < i then q else q + 1];
    }
  }

  /** Dropping the only entry of a key. */
  lemma EntriesWithout<K(!new), V(!new)>(s: seq<(K, V)>, i: nat)
    requires DistinctKeys(s) && i < |s|
    ensures DistinctKeys(s[..i] + s[i + 1..])
    ensures Entries(s[..i] + s[i + 1..]) == Entries(s) - {s[i].0}
  {
    hide DistinctKeys, HasKey, Entries;
    DistinctWithout(s, i);
    assert s == s[..i] + ([s[i]] + s[i + 1..]);
    EntriesWithoutMiddle(s[..i], s[i], s[i + 1..]);
  }

  lemma EntriesWithoutMiddle<K(!new), V(!new)>(a: seq<(K, V)>, e: (K, V), b: seq<(K, V)>)
    requires !HasKey(a, e.0) && !HasKey(b, e.0)
    ensures Entries(a + b) == Entries(a + ([e] + b)) - {e.0}
  {
    hide HasKey;
    EntriesConcat(a, b);
    EntriesConcat([e], b);
    EntriesConcat(a, [e] + b);
    assert [e][..0] == [];
    assert Entries([e]) == map[e.0 := e.1];
    EntriesKeys(a);
    EntriesKeys(b);
    RemoveMiddle(Entries(a), e.0, e.1, Entries(b));
  }

  lemma RemoveMiddle<K(!new), V(!new)>(a: map<K, V>, k: K, v: V, b: map<K, V>)
    requires k !in a && k !in b
    ensures (a + (map[k := v] + b)) - {k} == a + b
  {
  }

  /** Overwriting the only entry of a key. */
  lemma EntriesOverwrite<K(!new), V(!new)>(s: seq<(K, V)>, i: nat, value: V)
    requires DistinctKeys(s) && i < |s|
    ensures DistinctKeys(s[i := (s[i].0, value)])
    ensures Entries(s[i := (s[i].0, value)]) == Entries(s)[s[i].0 := value]
  {
    var t := s[i := (s[i].0, value)];
    EntriesWithout(s, i);
    EntriesWithout(t, i);
    assert t[..i] + t[i + 1..] == s[..i] + s[i + 1..];
    EntryAt(t, i);
    EntryAt(s, i);
    assert Entries(t) == (Entries(t) - {s[i].0})[s[i].0 := value];
  }

  /** `std::list::remove`: drop every element equal to `e`. */
  function RemoveAll<T(==)>(s: seq<T>, e: T): seq<T> {
    if s == [] then []
    else if s[0] == e then RemoveAll(s[1..], e)
    else [s[0]] + RemoveAll(s[1..], e)
  }

  lemma {:induction false} RemoveAllAbsent<T>(s: seq<T>, e: T)
    requires e !in s
    ensures RemoveAll(s, e) == s
  {
    if s != [] { RemoveAllAbsent(s[1..], e); }
  }

  /** With distinct keys, `remove` drops exactly the entry it was called for. */
  lemma {:induction false} RemoveAllOnce<K(!new), V(!new)>(s: seq<(K, V)>, i: nat)
    requires DistinctKeys(s) && i < |s|
    ensures RemoveAll(s, s[i]) == s[..i] + s[i + 1..]
  {
    if i == 0 {
      RemoveAllAbsent(s[1..], s[0]);
    } else {
      RemoveAllOnce(s[1..], i - 1);
      assert s[..i] + s[i + 1..] == [s[0]] + (s[1..][..i - 1] + s[1..][i..]);
    }
  }

  /** The entries of `s` whose hash has bit `d` set, or clear, in their order. */
  ghost function Dealt<K(!new), V(!new)>(s: seq<(K, V)>, hash: K -> nat, d: nat, set1: bool): (r: seq<(K, V)>)
    ensures |r| <= |s|
  {
    if s == [] then []
    else
      var n := |s| - 1;
      var r := Dealt(s[..n], hash, d, set1);
      if (Bit(hash(s[n].0), d) != 0) == set1 then r + [s[n]] else r
  }

  /** The entries of `m` whose hash has bit `d` set, or clear. */
  ghost function Half<K(!new), V(!new)>(m: map<K, V>, hash: K -> nat, d: nat, set1: bool): map<K, V> {
    map k | k in m && (Bit(hash(k), d) != 0) == set1 :: m[k]
  }

  lemma HalfUpdate<K(!new), V(!new)>(m: map<K, V>, key: K, value: V, hash: K -> nat, d: nat, set1: bool)
    ensures Half(m[key := value], hash, d, set1) ==
            if (Bit(hash(key), d) != 0) == set1 then Half(m, hash, d, set1)[key := value] else Half(m, hash, d, set1)
  {
  }

  lemma {:induction false} DealtEntries<K(!new), V(!new)>(s: seq<(K, V)>, hash: K -> nat, d: nat, set1: bool)
    ensures Entries(Dealt(s, hash, d, set1)) == Half(Entries(s), hash, d, set1)
  {
    hide Bit, Half;
    if s == [] {
      HalfEmpty<K, V>(hash, d, set1);
    } else {
      var n := |s| - 1;
      var r := Dealt(s[..n], hash, d, set1);
      DealtEntries(s[..n], hash, d, set1);
      HalfUpdate(Entries(s[..n]), s[n].0, s[n].1, hash, d, set1);
      assert (r + [s[n]])[..|r|] == r;
    }
  }

  lemma HalfEmpty<K(!new), V(!new)>(hash: K -> nat, d: nat, set1: bool)
    ensures Half<K, V>(map[], hash, d, set1) == map[]
  {
  }

  lemma {:induction false} DealtDistinct<K(!new), V(!new)>(s: seq<(K, V)>, hash: K -> nat, d: nat, set1: bool)
    requires DistinctKeys(s)
    ensures DistinctKeys(Dealt(s, hash, d, set1))
    ensures forall k :: HasKey(Dealt(s, hash, d, set1), k) ==> HasKey(s, k)
  {
    hide Bit;
    if s != [] {
      var n := |s| - 1;
      var r := Dealt(s[..n], hash, d, set1);
      DealtDistinct(s[..n], hash, d, set1);
      forall j | 0 <= j < |r| ensures r[j].0 != s[n].0 {
        assert HasKey(r, r[j].0);
        assert HasKey(s[..n], r[j].0);
      }
      forall k | HasKey(s[..n], k) ensures HasKey(s, k) {
        var i :| 0 <= i < |s[..n]| && s[..n][i].0 == k;
        assert s[i].0 == k;
      }
    }
  }

  // ----- buckets -----

  class Bucket<K(==, !new), V(==, !new)> {
    const capacity: nat
    const depth: nat
    var items: seq<(K, V)>

    constructor (capacity: nat, depth: nat)
      ensures this.capacity == capacity && this.depth == depth && items == []
    {
      this.capacity := capacity;
      this.depth := depth;
      items := [];
    }

    predicate IsFull()
      reads this
    {
      |items| == capacity
    }

    method Find(key: K) returns (r: Option<V>)
      requires DistinctKeys(items)
      ensures r == if key in Entries(items) then Some(Entries(items)[key]) else None
    {
      EntriesKeys(items);
      for i := 0 to |items|
        invariant forall j :: 0 <= j < i ==> items[j].0 != key
      {
        if items[i].0 == key {
          EntryAt(items, i);
          return Some(items[i].1);
        }
      }
      return None;
    }

    method Remove(key: K) returns (removed: bool)
      requires DistinctKeys(items)
      modifies this
      ensures removed <==> key in Entries(old(items))
      ensures DistinctKeys(items) && |items| <= |old(items)|
      ensures Entries(items) == Entries(old(items)) - {key}
    {
      EntriesKeys(items);
      for i := 0 to |items|
        invariant items == old(items)
        invariant forall j :: 0 <= j < i ==> items[j].0 != key
      {
        if items[i].0 == key {
          RemoveAllOnce(items, i);
          EntriesWithout(items, i);
          items := RemoveAll(items, items[i]);
          return true;
        }
      }
      return false;
    }

    /** Appends without looking for the key: the caller has. */
    method Insert(key: K, value: V) returns (ok: bool)
      modifies this
      ensures ok <==> |old(items)| != capacity
      ensures items == if ok then old(items) + [(key, value)] else old(items)
    {
      if IsFull() {
        return false;
      }
      items := items + [(key, value)];
      return true;
    }
  }

  ghost predicate BucketValid<K(!new), V(!new)>(b: Bucket<K, V>, bucketSize: nat)
    reads b
  {
    b.capacity == bucketSize && |b.items| <= bucketSize && DistinctKeys(b.items)
  }

  // ----- the directory -----

  /** Slots share a bucket exactly when they agree on that bucket's local depth of low bits. */
  ghost predicate Sharing<K(!new), V(!new)>(dir: seq<Bucket<K, V>>, globalDepth: nat) {
    && |dir| == Pow2(globalDepth)
    && (forall i :: 0 <= i < |dir| ==> dir[i].depth <= globalDepth)
    && (forall i, j :: 0 <= i < |dir| && 0 <= j < |dir| ==>
          (dir[i] == dir[j] <==> Low(i, dir[i].depth) == Low(j, dir[i].depth)))
  }

  lemma DirectorySize<K(!new), V(!new)>(dir: seq<Bucket<K, V>>, g: nat)
    requires Sharing(dir, g)
    ensures |dir| == Pow2(g)
  {
  }

  lemma DirectorySlot<K(!new), V(!new)>(dir: seq<Bucket<K, V>>, g: nat, i: nat)
    requires Sharing(dir, g) && i < |dir|
    ensures dir[i].depth <= g
  {
  }

  ghost function Buckets<K(!new), V(!new)>(dir: seq<Bucket<K, V>>): set<Bucket<K, V>> {
    set i | 0 <= i < |dir| :: dir[i]
  }

  lemma DoublingKeepsSharing<K(!new), V(!new)>(dir: seq<Bucket<K, V>>, g: nat)
    requires Sharing(dir, g)
    ensures Sharing(dir + dir, g + 1)
    ensures Buckets(dir + dir) == Buckets(dir)
  {
    var d := dir + dir;
    var n := |dir|;
    forall i | 0 <= i < n ensures Low(i + n, dir[i].depth) == Low(i, dir[i].depth) {
      LowAddPow2(i, g, dir[i].depth);
    }
    forall i, j | 0 <= i < |d| && 0 <= j < |d|
      ensures d[i] == d[j] <==> Low(i, d[i].depth) == Low(j, d[i].depth)
    {
      var i', j' := if i < n then i else i - n, if j < n then j else j - n;
      assert d[i] == dir[i'] && d[j] == dir[j'];
      LowAddPow2(i', g, dir[i'].depth);
      LowAddPow2(j', g, dir[i'].depth);
    }
    assert forall i :: 0 <= i < n ==> d[i] == dir[i];
  }

  /** `after` is `before` with the slots of `target` redirected on bit `target.depth`. */
  ghost predicate Redirected<K(!new), V(!new)>(before: seq<Bucket<K, V>>, after: seq<Bucket<K, V>>,
                                   target: Bucket<K, V>, b0: Bucket<K, V>, b1: Bucket<K, V>) {
    && |after| == |before|
    && (forall i :: 0 <= i < |before| ==>
          after[i] == if before[i] != target then before[i]
                      else if Bit(i, target.depth) != 0 then b1 else b0)
  }

  /** `b0` and `b1` are new buckets one bit deeper than `target`. */
  ghost predicate Halves<K(!new), V(!new)>(dir: seq<Bucket<K, V>>, target: Bucket<K, V>, b0: Bucket<K, V>,
                                           b1: Bucket<K, V>) {
    && b0 !in dir && b1 !in dir && b0 != b1
    && b0.depth == b1.depth == target.depth + 1
  }

  lemma SplitKeepsSharing<K(!new), V(!new)>(before: seq<Bucket<K, V>>, after: seq<Bucket<K, V>>, g: nat,
                                target: Bucket<K, V>, b0: Bucket<K, V>, b1: Bucket<K, V>)
    requires Sharing(before, g) && target in before && target.depth < g
    requires Halves(before, target, b0, b1) && Redirected(before, after, target, b0, b1)
    ensures Sharing(after, g)
  {
    var d := target.depth;
    forall i, j | 0 <= i < |after| && 0 <= j < |after|
      ensures after[i] == after[j] <==> Low(i, after[i].depth) == Low(j, after[i].depth)
    {
      SameLowStep(i, j, d);
      LowBound(i, d);
      LowBound(j, d);
    }
  }

  /** Both halves of a split bucket really are reached from the directory. */
  lemma BothHalvesReached<K(!new), V(!new)>(before: seq<Bucket<K, V>>, after: seq<Bucket<K, V>>, g: nat,
                                            target: Bucket<K, V>, b0: Bucket<K, V>, b1: Bucket<K, V>)
    requires Sharing(before, g) && target in before && target.depth < g
    requires Redirected(before, after, target, b0, b1)
    ensures b0 in after && b1 in after
  {
    hide Low, Bit;
    var d := target.depth;
    var t :| 0 <= t < |before| && before[t] == target;
    var lo := Low(t, d);
    LowBound(t, d);
    LowSmall(lo, d);
    LowAddPow2(lo, d, d);
    Pow2Monotone(d + 1, g);
    assert before[lo] == target && after[lo] == b0;
    assert before[lo + Pow2(d)] == target && after[lo + Pow2(d)] == b1;
  }

  /** A split replaces one bucket by two. */
  lemma SplitAddsOneBucket<K(!new), V(!new)>(before: seq<Bucket<K, V>>, after: seq<Bucket<K, V>>, g: nat,
                                 target: Bucket<K, V>, b0: Bucket<K, V>, b1: Bucket<K, V>)
    requires Sharing(before, g) && target in before && target.depth < g
    requires Halves(before, target, b0, b1) && Redirected(before, after, target, b0, b1)
    ensures |Buckets(after)| == |Buckets(before)| + 1
  {
    hide Sharing;
    BothHalvesReached(before, after, g, target, b0, b1);
    forall b | b in Buckets(before) - {target} ensures b in Buckets(after) {
      var i :| 0 <= i < |before| && before[i] == b;
      assert after[i] == b;
    }
    assert target in Buckets(before) && b0 !in Buckets(before) && b1 !in Buckets(before);
    assert Buckets(after) == Buckets(before) - {target} + {b0, b1};
  }

  // ----- placement of entries -----

  /** Every entry of slot `i`'s bucket belongs there, and is current. */
  ghost predicate SlotValid<K(!new), V(!new)>(m: map<K, V>, depth: nat, i: nat, hash: K -> nat, contents: map<K, V>) {
    forall k :: k in m ==> Low(hash(k), depth) == Low(i, depth) && k in contents && contents[k] == m[k]
  }

  /** The directory, with the entries `view` of its buckets, holds `contents` and nothing else. */
  ghost predicate Placed<K(!new), V(!new)>(dir: seq<Bucket<K, V>>, view: map<Bucket<K, V>, map<K, V>>, g: nat,
                                           hash: K -> nat, contents: map<K, V>) {
    && Sharing(dir, g)
    && (forall i :: 0 <= i < |dir| ==> dir[i] in view && SlotValid(view[dir[i]], dir[i].depth, i, hash, contents))
    && (forall k :: k in contents ==> Low(hash(k), g) < |dir| && k in view[dir[Low(hash(k), g)]])
  }

  lemma SlotValidByLow<K(!new), V(!new)>(m: map<K, V>, depth: nat, i: nat, j: nat, hash: K -> nat, contents: map<K, V>)
    requires SlotValid(m, depth, i, hash, contents) && Low(i, depth) == Low(j, depth)
    ensures SlotValid(m, depth, j, hash, contents)
  {
  }

  /** The slot of a hash value, and with it the only bucket that may hold a key with that hash. */
  lemma SlotOf<K(!new), V(!new)>(dir: seq<Bucket<K, V>>, g: nat, h: nat)
    requires Sharing(dir, g)
    ensures Low(h, g) < |dir|
    ensures forall i :: 0 <= i < |dir| ==>
              (dir[i] == dir[Low(h, g)] <==> Low(h, dir[i].depth) == Low(i, dir[i].depth))
  {
    LowBound(h, g);
    forall i | 0 <= i < |dir|
      ensures Low(Low(h, g), dir[i].depth) == Low(h, dir[i].depth)
    {
      LowLow(h, g, dir[i].depth);
    }
  }

  /** What a lookup relies on: the bucket of a key decides whether the key is stored. */
  lemma KeyInSlot<K(!new), V(!new)>(dir: seq<Bucket<K, V>>, view: map<Bucket<K, V>, map<K, V>>, g: nat, hash: K -> nat,
                                    contents: map<K, V>, key: K)
    requires Placed(dir, view, g, hash, contents)
    ensures Sharing(dir, g)
    ensures Low(hash(key), g) < |dir| && dir[Low(hash(key), g)] in view
    ensures key in view[dir[Low(hash(key), g)]] <==> key in contents
    ensures key in contents ==> view[dir[Low(hash(key), g)]][key] == contents[key]
  {
    hide Low;
    SlotOf(dir, g, hash(key));
  }

  lemma PlacedSlot<K(!new), V(!new)>(dir: seq<Bucket<K, V>>, view: map<Bucket<K, V>, map<K, V>>, g: nat, hash: K -> nat,
                                     contents: map<K, V>, i: nat)
    requires Placed(dir, view, g, hash, contents) && i < |dir|
    ensures Sharing(dir, g)
    ensures dir[i] in view && SlotValid(view[dir[i]], dir[i].depth, i, hash, contents)
  {
  }

  lemma DoubledSlot<K(!new), V(!new)>(dir: seq<Bucket<K, V>>, view: map<Bucket<K, V>, map<K, V>>, g: nat,
                                      hash: K -> nat, contents: map<K, V>, i: nat)
    requires Placed(dir, view, g, hash, contents) && i < |dir + dir|
    ensures (dir + dir)[i] in view && SlotValid(view[(dir + dir)[i]], (dir + dir)[i].depth, i, hash, contents)
  {
    hide Low, Sharing, SlotValid;
    DirectorySize(dir, g);
    var j := if i < |dir| then i else i - |dir|;
    assert (dir + dir)[i] == dir[j];
    DirectorySlot(dir, g, j);
    LowAddPow2(j, g, dir[j].depth);
    SlotValidByLow(view[dir[j]], dir[j].depth, j, i, hash, contents);
  }

  lemma DoubledKey<K(!new), V(!new)>(dir: seq<Bucket<K, V>>, view: map<Bucket<K, V>, map<K, V>>, g: nat,
                                     hash: K -> nat, contents: map<K, V>, k: K)
    requires Placed(dir, view, g, hash, contents) && k in contents
    ensures Low(hash(k), g + 1) < |dir + dir|
    ensures (dir + dir)[Low(hash(k), g + 1)] == dir[Low(hash(k), g)]
  {
    hide Low, Bit, Sharing, SlotValid;
    DirectorySize(dir, g);
    LowStep(hash(k), g);
    var lo := Low(hash(k), g);
    assert lo < |dir| && (dir + dir)[lo] == dir[lo] && (dir + dir)[lo + |dir|] == dir[lo];
  }

  lemma DoublingKeepsPlaced<K(!new), V(!new)>(dir: seq<Bucket<K, V>>, view: map<Bucket<K, V>, map<K, V>>, g: nat,
                                              hash: K -> nat, contents: map<K, V>)
    requires Placed(dir, view, g, hash, contents)
    ensures Placed(dir + dir, view, g + 1, hash, contents)
    ensures Buckets(dir + dir) == Buckets(dir)
  {
    hide Low, Sharing, SlotValid, Buckets;
    DoublingKeepsSharing(dir, g);
    forall i | 0 <= i < |dir + dir|
      ensures (dir + dir)[i] in view && SlotValid(view[(dir + dir)[i]], (dir + dir)[i].depth, i, hash, contents)
    {
      DoubledSlot(dir, view, g, hash, contents, i);
    }
    forall k | k in contents ensures Low(hash(k), g + 1) < |dir + dir| && k in view[(dir + dir)[Low(hash(k), g + 1)]] {
      DoubledKey(dir, view, g, hash, contents, k);
    }
  }

  lemma InItsHalf<K(!new), V(!new)>(m: map<K, V>, hash: K -> nat, d: nat, key: K)
    requires key in m
    ensures key in Half(m, hash, d, Bit(hash(key), d) != 0)
  {
  }

  /** One half of a split bucket only holds entries that belong to its slots. */
  lemma HalfValid<K(!new), V(!new)>(m: map<K, V>, d: nat, i: nat, hash: K -> nat, contents: map<K, V>)
    requires SlotValid(m, d, i, hash, contents)
    ensures SlotValid(Half(m, hash, d, Bit(i, d) != 0), d + 1, i, hash, contents)
  {
    forall k | k in Half(m, hash, d, Bit(i, d) != 0) ensures Low(hash(k), d + 1) == Low(i, d + 1) {
      SameLowStep(hash(k), i, d);
      LowBound(i, d);
      LowBound(hash(k), d);
    }
  }

  lemma SplitKeepsPlaced<K(!new), V(!new)>(dir: seq<Bucket<K, V>>, view: map<Bucket<K, V>, map<K, V>>,
                                           dir': seq<Bucket<K, V>>, view': map<Bucket<K, V>, map<K, V>>, g: nat,
                                           hash: K -> nat, contents: map<K, V>,
                                           target: Bucket<K, V>, b0: Bucket<K, V>, b1: Bucket<K, V>)
    requires Placed(dir, view, g, hash, contents)
    requires target in dir && target in view && target.depth < g
    requires Halves(dir, target, b0, b1) && Redirected(dir, dir', target, b0, b1)
    requires forall b :: b in dir' ==> b in view'
    requires forall b :: b in view' && b in view ==> view'[b] == view[b]
    requires b0 in view' ==> view'[b0] == Half(view[target], hash, target.depth, false)
    requires b1 in view' ==> view'[b1] == Half(view[target], hash, target.depth, true)
    ensures Placed(dir', view', g, hash, contents)
    ensures |Buckets(dir')| == |Buckets(dir)| + 1
  {
    hide Low, Bit, Buckets, Sharing, SlotValid, Half;
    SplitKeepsSharing(dir, dir', g, target, b0, b1);
    SplitAddsOneBucket(dir, dir', g, target, b0, b1);
    forall i | 0 <= i < |dir'| ensures dir'[i] in view' && SlotValid(view'[dir'[i]], dir'[i].depth, i, hash, contents) {
      assert SlotValid(view[dir[i]], dir[i].depth, i, hash, contents);
      assert dir'[i] in dir';
      if dir[i] == target {
        HalfValid(view[target], target.depth, i, hash, contents);
        assert view'[dir'[i]] == Half(view[target], hash, target.depth, Bit(i, target.depth) != 0);
      } else {
        assert view'[dir'[i]] == view[dir[i]];
      }
    }
    forall k | k in contents ensures Low(hash(k), g) < |dir'| && k in view'[dir'[Low(hash(k), g)]] {
      var i := Low(hash(k), g);
      LowLow(hash(k), g, target.depth);
      assert dir'[i] in dir';
      if dir[i] == target {
        InItsHalf(view[target], hash, target.depth, k);
      }
    }
  }

  /** `view'` differs from `view` at most in what the bucket `t` says about `key`. */
  ghost predicate Touched<K(!new), V(!new)>(view: map<Bucket<K, V>, map<K, V>>, view': map<Bucket<K, V>, map<K, V>>,
                                            t: Bucket<K, V>, key: K) {
    && view'.Keys == view.Keys
    && (forall b :: b in view && b != t ==> view'[b] == view[b])
    && t in view && view'[t] - {key} == view[t] - {key}
  }

  lemma TouchedSlot<K(!new), V(!new)>(m: map<K, V>, m': map<K, V>, depth: nat, i: nat, hash: K -> nat,
                                      contents: map<K, V>, contents': map<K, V>, key: K)
    requires SlotValid(m, depth, i, hash, contents)
    requires contents' - {key} == contents - {key} && m' - {key} == m - {key}
    requires key in m' ==> Low(hash(key), depth) == Low(i, depth) && key in contents' && contents'[key] == m'[key]
    ensures SlotValid(m', depth, i, hash, contents')
  {
    hide Low;
    SameExcept(contents, contents', key);
    SameExcept(m, m', key);
  }

  /** Changing the entry of one key in that key's bucket. */
  lemma UpdateKeepsPlaced<K(!new), V(!new)>(dir: seq<Bucket<K, V>>, view: map<Bucket<K, V>, map<K, V>>,
                                            view': map<Bucket<K, V>, map<K, V>>, g: nat, hash: K -> nat,
                                            contents: map<K, V>, contents': map<K, V>, key: K)
    requires Placed(dir, view, g, hash, contents)
    requires Low(hash(key), g) < |dir| && Touched(view, view', dir[Low(hash(key), g)], key)
    requires contents' - {key} == contents - {key}
    requires key in view'[dir[Low(hash(key), g)]] <==> key in contents'
    requires key in contents' ==> view'[dir[Low(hash(key), g)]][key] == contents'[key]
    ensures Placed(dir, view', g, hash, contents')
  {
    hide Low, Sharing, SlotValid;
    SlotOf(dir, g, hash(key));
    var t := dir[Low(hash(key), g)];
    forall i | 0 <= i < |dir| ensures SlotValid(view'[dir[i]], dir[i].depth, i, hash, contents') {
      if dir[i] != t {
        NotThere(dir, view, g, hash, contents, key, i);
      }
      TouchedSlot(view[dir[i]], view'[dir[i]], dir[i].depth, i, hash, contents, contents', key);
    }
    SameExcept(contents, contents', key);
    SameExcept(view[t], view'[t], key);
  }

  /** A key is in no bucket but its own. */
  lemma NotThere<K(!new), V(!new)>(dir: seq<Bucket<K, V>>, view: map<Bucket<K, V>, map<K, V>>, g: nat, hash: K -> nat,
                                   contents: map<K, V>, key: K, i: nat)
    requires Placed(dir, view, g, hash, contents) && i < |dir|
    requires Low(hash(key), g) < |dir| && dir[i] != dir[Low(hash(key), g)]
    ensures key !in view[dir[i]]
  {
    hide Low, Sharing;
    SlotOf(dir, g, hash(key));
    assert SlotValid(view[dir[i]], dir[i].depth, i, hash, contents);
  }

  lemma SameExcept<K(!new), V(!new)>(m: map<K, V>, m': map<K, V>, key: K)
    requires m' - {key} == m - {key}
    ensures forall k :: k != key ==> (k in m <==> k in m')
    ensures forall k :: k != key && k in m ==> m'[k] == m[k]
  {
    forall k | k != key ensures k in m <==> k in m' {
      assert k in m <==> k in m - {key};
      assert k in m' <==> k in m' - {key};
    }
    forall k | k != key && k in m ensures m'[k] == m[k] {
      assert (m' - {key})[k] == (m - {key})[k];
    }
  }

  // ----- how deep the directory can get -----

  /** The keys of one bucket all have the same low bits. */
  lemma CrowdShares<K(!new), V(!new)>(m: map<K, V>, depth: nat, slot: nat, hash: K -> nat, contents: map<K, V>)
    requires SlotValid(m, depth, slot, hash, contents)
    ensures SameLow(m.Keys, hash, depth)
  {
  }

  lemma CrowdStored<K(!new), V(!new)>(m: map<K, V>, depth: nat, slot: nat, hash: K -> nat, contents: map<K, V>)
    requires SlotValid(m, depth, slot, hash, contents)
    ensures m.Keys <= contents.Keys
  {
  }

  ghost predicate SameLow<K(!new)>(ks: set<K>, hash: K -> nat, d: nat) {
    forall k, k' :: k in ks && k' in ks ==> Low(hash(k), d) == Low(hash(k'), d)
  }

  /** No two of the keys have the same `w`-bit hash. */
  ghost predicate InjectiveBits<K(!new)>(ks: set<K>, hash: K -> nat, w: nat) {
    && (forall k :: k in ks ==> hash(k) < Pow2(w))
    && (forall k, k' :: k in ks && k' in ks && hash(k) == hash(k') ==> k == k')
  }

  lemma AtMostOne<T>(s: set<T>)
    requires forall x, y :: x in s && y in s ==> x == y
    ensures |s| <= 1
  {
    if s != {} {
      var x :| x in s;
      assert s == {x};
    }
  }

  /** The keys with equal bit `d` among keys that share `d` low bits. */
  lemma HalfSharesMore<K(!new)>(ks: set<K>, half: set<K>, hash: K -> nat, d: nat, w: nat, bit: nat)
    requires half <= ks && InjectiveBits(ks, hash, w) && SameLow(ks, hash, d)
    requires forall k :: k in half ==> Bit(hash(k), d) == bit
    ensures InjectiveBits(half, hash, w) && SameLow(half, hash, d + 1)
  {
    hide Low, Bit;
    forall k, k' | k in half && k' in half ensures Low(hash(k), d + 1) == Low(hash(k'), d + 1) {
      SameLowStep(hash(k), hash(k'), d);
    }
  }

  /** Pigeonhole: distinct `w`-bit hashes that share `d` low bits leave room for `2^(w - d)` of them. */
  lemma {:induction false} Pigeonhole<K(!new)>(ks: set<K>, hash: K -> nat, d: nat, w: nat)
    requires d <= w && InjectiveBits(ks, hash, w) && SameLow(ks, hash, d)
    ensures |ks| * Pow2(d) <= Pow2(w)
    decreases w - d
  {
    if d == w {
      forall k | k in ks ensures Low(hash(k), w) == hash(k) { LowSmall(hash(k), w); }
      AtMostOne(ks);
      assert |ks| == 0 || |ks| == 1;
    } else {
      hide Low, Bit, InjectiveBits, SameLow;
      var ks0 := set k | k in ks && Bit(hash(k), d) == 0;
      var ks1 := ks - ks0;
      forall k | k in ks1 ensures Bit(hash(k), d) == 1 { LowBound(hash(k), d); }
      HalfSharesMore(ks, ks0, hash, d, w, 0);
      HalfSharesMore(ks, ks1, hash, d, w, 1);
      Pigeonhole(ks0, hash, d + 1, w);
      Pigeonhole(ks1, hash, d + 1, w);
      AddHalves(|ks0|, |ks1|, Pow2(d), Pow2(w));
    }
  }

  lemma AddHalves(a: nat, b: nat, p: nat, q: nat)
    requires a * (2 * p) <= q && b * (2 * p) <= q
    ensures (a + b) * p <= q
  {
    assert (a + b) * p * 2 == a * (2 * p) + b * (2 * p);
  }

  /** Two or more distinct `w`-bit hashes cannot agree on `w` or more low bits. */
  lemma SharedBitsBelowWidth<K(!new)>(ks: set<K>, hash: K -> nat, d: nat, w: nat)
    requires InjectiveBits(ks, hash, w) && SameLow(ks, hash, d) && |ks| >= 2
    ensures d < w
  {
    if w <= d {
      forall k | k in ks ensures Low(hash(k), d) == hash(k) {
        Pow2Monotone(w, d);
        LowSmall(hash(k), d);
      }
      AtMostOne(ks);
    }
  }

  /** Finitely many hashes fit into some number of bits. */
  lemma {:induction false} CommonWidth<K(!new)>(ks: set<K>, hash: K -> nat) returns (w: nat)
    ensures forall k :: k in ks ==> hash(k) < Pow2(w)
  {
    if ks == {} {
      w := 0;
    } else {
      var x :| x in ks;
      var w' := CommonWidth(ks - {x}, hash);
      w := w' + hash(x);
      Pow2Exceeds(hash(x));
      Pow2Monotone(hash(x), w);
      Pow2Monotone(w', w);
    }
  }

  // ----- the table -----

  class ExtendibleHashTable<K(==, !new), V(==, !new)> {
    const hash: K -> nat
    const bucketSize: nat
    var globalDepth: nat
    var numBuckets: nat
    var dir: seq<Bucket<K, V>>

    /** The finite map the table stands for. */
    ghost var contents: map<K, V>
    /** Every key that was ever inserted. */
    ghost var seen: set<K>
    /** Keys that were together in the bucket whose split last doubled the directory. */
    ghost var crowd: set<K>

    function IndexOf(key: K): nat
      reads this
    {
      Low(hash(key), globalDepth)
    }

    /** The entries of each bucket. */
    ghost function View(): map<Bucket<K, V>, map<K, V>>
      reads this`dir, dir
    {
      map b | b in dir :: Entries(b.items)
    }

    ghost predicate BucketsValid()
      reads this`dir, dir
    {
      forall i :: 0 <= i < |dir| ==> BucketValid(dir[i], bucketSize)
    }

    ghost predicate Valid()
      reads this, dir
    {
      && Placed(dir, View(), globalDepth, hash, contents)
      && BucketsValid()
      && numBuckets == |Buckets(dir)|
      && contents.Keys <= seen && crowd <= seen
      && (globalDepth > 0 ==> |crowd| == bucketSize && SameLow(crowd, hash, globalDepth - 1))
    }

    constructor (hash: K -> nat, bucketSize: nat)
      ensures Valid() && fresh(dir)
      ensures this.hash == hash && this.bucketSize == bucketSize
      ensures contents == map[] && seen == {} && globalDepth == 0 && numBuckets == 1
    {
      this.hash := hash;
      this.bucketSize := bucketSize;
      globalDepth := 0;
      numBuckets := 1;
      contents := map[];
      seen, crowd := {}, {};
      var b := new Bucket<K, V>(bucketSize, 0);
      dir := [b];
      new;
      assert Buckets(dir) == {b} by { assert dir[0] == b; }
    }

    method Find(key: K) returns (r: Option<V>)
      requires Valid()
      ensures r == if key in contents then Some(contents[key]) else None
    {
      hide Low, Placed;
      KeyInSlot(dir, View(), globalDepth, hash, contents, key);
      r := dir[IndexOf(key)].Find(key);
    }

    method Remove(key: K) returns (removed: bool)
      requires Valid()
      modifies this`contents, dir
      ensures Valid()
      ensures removed <==> key in old(contents)
      ensures contents == old(contents) - {key}
    {
      hide Low, Placed, DistinctKeys, Entries, Sharing, SameLow, Buckets;
      ghost var view := View();
      KeyInSlot(dir, view, globalDepth, hash, contents, key);
      removed := dir[IndexOf(key)].Remove(key);
      contents := contents - {key};
      UpdateKeepsPlaced(dir, view, View(), globalDepth, hash, old(contents), contents, key);
    }

    /** Doubles the directory: slot `i + capacity` becomes a second pointer to the bucket of slot `i`. */
    method Double()
      modifies this`globalDepth, this`dir
      ensures dir == old(dir) + old(dir)
      ensures globalDepth == old(globalDepth) + 1
    {
      globalDepth := globalDepth + 1;
      var capacity := |dir|;
      for i := 0 to capacity
        invariant dir == old(dir) + old(dir)[..i]
        invariant globalDepth == old(globalDepth) + 1
      {
        dir := dir + [dir[i]];
      }
      assert old(dir)[..capacity] == old(dir);
    }

    /** Makes room in the directory for the split of a full bucket. */
    method Grow(ghost slot: nat)
      requires Valid()
      requires slot < |dir| && dir[slot].IsFull() && dir[slot].depth == globalDepth
      modifies this`globalDepth, this`dir, this`crowd
      ensures Valid()
      ensures dir == old(dir) + old(dir)
      ensures globalDepth == old(globalDepth) + 1
    {
      hide Low, Placed, SlotValid, SameLow, DistinctKeys, Entries, Buckets;
      DoublingKeepsPlaced(dir, View(), globalDepth, hash, contents);
      PlacedSlot(dir, View(), globalDepth, hash, contents, slot);
      EntriesSize(dir[slot].items);
      CrowdShares(Entries(dir[slot].items), globalDepth, slot, hash, contents);
      CrowdStored(Entries(dir[slot].items), globalDepth, slot, hash, contents);
      crowd := Entries(dir[slot].items).Keys;
      Double();
      assert View() == old(View());
    }

    /** Deals the entries of a full bucket out to two fresh ones; no inner insert fails. */
    method Redistribute(target: Bucket<K, V>) returns (b0: Bucket<K, V>, b1: Bucket<K, V>)
      requires BucketValid(target, bucketSize)
      ensures fresh(b0) && fresh(b1) && b0 != b1
      ensures b0.depth == b1.depth == target.depth + 1
      ensures BucketValid(b0, bucketSize) && BucketValid(b1, bucketSize)
      ensures Entries(b0.items) == Half(Entries(target.items), hash, target.depth, false)
      ensures Entries(b1.items) == Half(Entries(target.items), hash, target.depth, true)
    {
      b0 := new Bucket(bucketSize, target.depth + 1);
      b1 := new Bucket(bucketSize, target.depth + 1);
      for i := 0 to |target.items|
        invariant b0.items == Dealt(target.items[..i], hash, target.depth, false)
        invariant b1.items == Dealt(target.items[..i], hash, target.depth, true)
      {
        var item := target.items[i];
        assert target.items[..i + 1][..i] == target.items[..i];
        var ok;
        if Bit(hash(item.0), target.depth) != 0 {
          ok := b1.Insert(item.0, item.1);
        } else {
          ok := b0.Insert(item.0, item.1);
        }
        assert ok;
      }
      assert target.items[..|target.items|] == target.items;
      DealtEntries(target.items, hash, target.depth, false);
      DealtEntries(target.items, hash, target.depth, true);
      DealtDistinct(target.items, hash, target.depth, false);
      DealtDistinct(target.items, hash, target.depth, true);
    }

    /** Points every slot of `target` at `b0` or `b1`, by bit `target.depth` of the slot number. */
    method Redirect(target: Bucket<K, V>, b0: Bucket<K, V>, b1: Bucket<K, V>)
      requires b0 != target && b1 != target
      modifies this`dir
      ensures Redirected(old(dir), dir, target, b0, b1)
    {
      for i := 0 to |dir|
        invariant |dir| == |old(dir)|
        invariant Redirected(old(dir)[..i], dir[..i], target, b0, b1)
        invariant dir[i..] == old(dir)[i..]
      {
        assert dir[i] == old(dir)[i];
        if dir[i] == target {
          dir := dir[i := if Bit(i, target.depth) != 0 then b1 else b0];
        }
      }
    }

    /** Splits a bucket whose slots differ on bit `target.depth`. */
    method SplitBucket(target: Bucket<K, V>, ghost slot: nat)
      requires Valid()
      requires slot < |dir| && dir[slot] == target && target.depth < globalDepth
      modifies this`numBuckets, this`dir
      ensures Valid()
      ensures numBuckets == old(numBuckets) + 1
      ensures |dir| == |old(dir)|
      ensures forall i :: 0 <= i < |dir| ==>
                if old(dir)[i] == target then fresh(dir[i]) && dir[i].depth == target.depth + 1
                else dir[i] == old(dir)[i]
    {
      hide Low, Bit, Placed, Sharing, SlotValid, Dealt, Half, Entries, Buckets, DistinctKeys, Pow2;
      var b0, b1 := Redistribute(target);
      numBuckets := numBuckets + 1;
      Redirect(target, b0, b1);
      SplitKeepsPlaced(old(dir), old(View()), dir, View(), globalDepth, hash, contents, target, b0, b1);
    }

    /** One turn of the insertion loop: the full bucket of `key` is split, and no entry is lost. */
    method Split(key: K)
      requires Valid()
      requires IndexOf(key) < |dir| && dir[IndexOf(key)].IsFull()
      modifies this`globalDepth, this`numBuckets, this`dir, this`crowd
      ensures Valid()
      ensures forall i :: 0 <= i < |dir| ==> dir[i] in old(dir) || fresh(dir[i])
      ensures IndexOf(key) < |dir| && dir[IndexOf(key)].depth == old(dir[IndexOf(key)].depth) + 1
      ensures numBuckets == old(numBuckets) + 1
    {
      hide Low, Bit, Placed, Sharing, SlotValid;
      ghost var slot := IndexOf(key);
      var target := dir[IndexOf(key)];
      KeyInSlot(dir, View(), globalDepth, hash, contents, key);
      SlotOf(dir, globalDepth, hash(key));
      DirectorySlot(dir, globalDepth, slot);
      if target.depth == globalDepth {
        Grow(slot);
      }
      KeyInSlot(dir, View(), globalDepth, hash, contents, key);
      SlotOf(dir, globalDepth, hash(key));
      assert dir[slot] == target;
      SplitBucket(target, slot);
    }

    /** The stored keys that no split can ever separate from `key`. */
    ghost function Colliding(key: K): set<K>
      reads this
    {
      set k | k in contents && hash(k) == hash(key)
    }

    /** Every key that collides with `key` sits in the bucket of `key`. */
    lemma CollidingInSlot(key: K)
      requires Valid()
      ensures IndexOf(key) < |dir|
      ensures |Colliding(key)| <= |dir[IndexOf(key)].items| <= bucketSize == dir[IndexOf(key)].capacity
    {
      hide Low, Sharing, SlotValid, Entries, DistinctKeys;
      KeyInSlot(dir, View(), globalDepth, hash, contents, key);
      var items := dir[IndexOf(key)].items;
      EntriesSize(items);
      SubsetSize(Colliding(key), Entries(items).Keys);
    }

    /** A full bucket with a key that does not collide with `key` can still be split to separate the two. */
    lemma FullBucketIsShallow(key: K, w: nat)
      requires Valid()
      requires |Colliding(key)| < bucketSize
      requires hash(key) < Pow2(w) && forall k :: k in contents ==> hash(k) < Pow2(w)
      requires IndexOf(key) < |dir| && dir[IndexOf(key)].IsFull()
      ensures dir[IndexOf(key)].depth < w
    {
      hide Low, Placed, Sharing, Entries, DistinctKeys;
      var i, b := IndexOf(key), dir[IndexOf(key)];
      PlacedSlot(dir, View(), globalDepth, hash, contents, i);
      DirectorySlot(dir, globalDepth, i);
      LowLow(hash(key), globalDepth, b.depth);
      if w <= b.depth {
        Pow2Monotone(w, b.depth);
        LowSmall(hash(key), b.depth);
        forall k | k in Entries(b.items) ensures k in Colliding(key) {
          LowSmall(hash(k), b.depth);
        }
        EntriesSize(b.items);
        SubsetSize(Entries(b.items).Keys, Colliding(key));
      }
    }

    method Insert(key: K, value: V)
      requires Valid()
      requires |Colliding(key)| < bucketSize
      modifies this, dir
      ensures Valid()
      ensures contents == old(contents)[key := value] && seen == old(seen) + {key}
      ensures forall i :: 0 <= i < |dir| ==> dir[i] in old(dir) || fresh(dir[i])
    {
      hide Low, Placed;
      ghost var w := CommonWidth(contents.Keys + {key}, hash);
      CollidingInSlot(key);
      while dir[IndexOf(key)].IsFull()
        invariant Valid() && contents == old(contents) && seen == old(seen) && IndexOf(key) < |dir|
        invariant forall i :: 0 <= i < |dir| ==> dir[i] in old(dir) || fresh(dir[i])
        decreases w - dir[IndexOf(key)].depth
      {
        FullBucketIsShallow(key, w);
        Split(key);
      }
      Store(key, value);
    }

    /** The end of an insertion, once the bucket of `key` has room. */
    method Store(key: K, value: V)
      requires Valid()
      requires IndexOf(key) < |dir| && !dir[IndexOf(key)].IsFull()
      modifies this`contents, this`seen, dir[IndexOf(key)]
      ensures Valid()
      ensures contents == old(contents)[key := value] && seen == old(seen) + {key}
    {
      hide Low, Placed, DistinctKeys, Entries, Sharing, SameLow, Buckets;
      ghost var view := View();
      KeyInSlot(dir, view, globalDepth, hash, contents, key);
      var b := dir[IndexOf(key)];
      StoreInBucket(b, key, value);
      contents := contents[key := value];
      seen := seen + {key};
      UpdateKeepsPlaced(dir, view, View(), globalDepth, hash, old(contents), contents, key);
    }

    method StoreInBucket(b: Bucket<K, V>, key: K, value: V)
      requires |b.items| < b.capacity && DistinctKeys(b.items)
      modifies b
      ensures |b.items| <= b.capacity && DistinctKeys(b.items)
      ensures Entries(b.items) == Entries(old(b.items))[key := value]
    {
      for i := 0 to |b.items|
        invariant b.items == old(b.items)
        invariant forall j :: 0 <= j < i ==> b.items[j].0 != key
      {
        if b.items[i].0 == key {
          EntriesOverwrite(b.items, i, value);
          b.items := b.items[i := (key, value)];
          return;
        }
      }
      var ok := b.Insert(key, value);
      assert b.items[..|b.items| - 1] == old(b.items);
    }

    /**
     The insertion loop for a key with `bucketSize` or more colliding keys: after any number of
     turns its guard still holds, so the precondition of `Insert` is exactly what makes it stop.
     */
    method SplitForever(key: K, turns: nat)
      requires Valid()
      requires |Colliding(key)| >= bucketSize
      modifies this`globalDepth, this`numBuckets, this`dir, this`crowd
      ensures Valid()
      ensures IndexOf(key) < |dir| && dir[IndexOf(key)].IsFull()
      ensures numBuckets == old(numBuckets) + turns
    {
      hide Low, Placed;
      CollidingInSlot(key);
      for i := 0 to turns
        invariant Valid()
        invariant IndexOf(key) < |dir| && dir[IndexOf(key)].IsFull()
        invariant numBuckets == old(numBuckets) + i
      {
        Split(key);
        CollidingInSlot(key);
      }
    }

    /** With distinct `w`-bit hashes, the directory never grows beyond what one full bucket justifies. */
    lemma DepthBound(w: nat)
      requires Valid() && 2 <= bucketSize
      requires InjectiveBits(seen, hash, w)
      ensures globalDepth > 0 ==> globalDepth <= w && bucketSize * Pow2(globalDepth - 1) <= Pow2(w)
    {
      hide Low, Placed;
      if globalDepth > 0 {
        SharedBitsBelowWidth(crowd, hash, globalDepth - 1, w);
        Pigeonhole(crowd, hash, globalDepth - 1, w);
      }
    }

    /** 31-bit hashes, such as page ids, and buckets of three or more keep `1 << globalDepth` inside an `int`. */
    lemma MaskFitsInt()
      requires Valid() && bucketSize >= 3
      requires InjectiveBits(seen, hash, 31)
      ensures globalDepth <= 30
    {
      DepthBound(31);
      if globalDepth > 30 { ThriceExceeds(bucketSize, 30, globalDepth - 1); }
    }
  }
}
