/**
 Index entries written by a transaction and their undoing.  An index holds one row id per key: inserting
 a key that is there does nothing, and deleting looks at the key only.
 */
module IndexUndo {
  import opened Options
  import opened TablePages

  type Key = seq<bv8>
  type Index = map<Key, Rid>
  type Indexes = map<nat, Index>

  datatype WType = INSERT | DELETE | UPDATE

  /** `prior` is the tuple before an update. */
  datatype IndexRecord = IndexRecord(rid: Rid, wtype: WType, tuple: Tuple, prior: Tuple, index: nat)

  function InsertEntry(m: Index, key: Key, rid: Rid): Index {
    if key in m then m else m[key := rid]
  }

  function DeleteEntry(m: Index, key: Key): Index {
    m - {key}
  }

  /** What the record stands for; `key` makes a key of a tuple. */
  function Apply(m: Index, r: IndexRecord, key: Tuple -> Key): Index {
    match r.wtype
    case INSERT => InsertEntry(m, key(r.tuple), r.rid)
    case DELETE => DeleteEntry(m, key(r.tuple))
    case UPDATE => InsertEntry(DeleteEntry(m, key(r.prior)), key(r.tuple), r.rid)
  }

  /** What abort does with it. */
  function Revert(m: Index, r: IndexRecord, key: Tuple -> Key): Index {
    match r.wtype
    case INSERT => DeleteEntry(m, key(r.tuple))
    case DELETE => InsertEntry(m, key(r.tuple), r.rid)
    case UPDATE => InsertEntry(DeleteEntry(m, key(r.tuple)), key(r.prior), r.rid)
  }

  /** The write changed the index: a new key was not there, an old one belonged to the row. */
  predicate Effective(m: Index, r: IndexRecord, key: Tuple -> Key) {
    match r.wtype
    case INSERT => key(r.tuple) !in m
    case DELETE => key(r.tuple) in m && m[key(r.tuple)] == r.rid
    case UPDATE =>
      && key(r.prior) in m && m[key(r.prior)] == r.rid
      && (key(r.tuple) !in m || key(r.tuple) == key(r.prior))
  }

  /** A write is undone exactly when it was effective. */
  lemma RevertIff(m: Index, r: IndexRecord, key: Tuple -> Key)
    ensures Revert(Apply(m, r, key), r, key) == m <==> Effective(m, r, key)
  {
    var m' := Revert(Apply(m, r, key), r, key);
    match r.wtype
    case INSERT => assert key(r.tuple) !in m';
    case DELETE => assert key(r.tuple) in m' && m'[key(r.tuple)] == r.rid;
    case UPDATE =>
      assert key(r.prior) in m';
      if key(r.tuple) != key(r.prior) { assert key(r.tuple) !in m'; }
  }

  // ----- several indexes -----

  type Keys = (nat, Tuple) -> Key

  function KeyOf(keys: Keys, index: nat): Tuple -> Key {
    t => keys(index, t)
  }

  function ApplyAt(s: Indexes, r: IndexRecord, keys: Keys): Indexes {
    if r.index in s then s[r.index := Apply(s[r.index], r, KeyOf(keys, r.index))] else s
  }

  function RevertAt(s: Indexes, r: IndexRecord, keys: Keys): Indexes {
    if r.index in s then s[r.index := Revert(s[r.index], r, KeyOf(keys, r.index))] else s
  }

  ghost function Write(s: Indexes, log: seq<IndexRecord>, keys: Keys): Indexes {
    if log == [] then s else ApplyAt(Write(s, log[..|log| - 1], keys), log[|log| - 1], keys)
  }

  /** From the back. */
  function RevertAll(s: Indexes, log: seq<IndexRecord>, keys: Keys): Indexes {
    if log == [] then s else RevertAll(RevertAt(s, log[|log| - 1], keys), log[..|log| - 1], keys)
  }

  lemma {:induction false} WriteFirst(s: Indexes, r: IndexRecord, rest: seq<IndexRecord>, keys: Keys)
    ensures Write(s, [r] + rest, keys) == Write(ApplyAt(s, r, keys), rest, keys)
    decreases |rest|
  {
    hide ApplyAt;
    var log := [r] + rest;
    if rest == [] {
      assert log[..0] == [];
    } else {
      assert log[..|log| - 1] == [r] + rest[..|rest| - 1];
      WriteFirst(s, r, rest[..|rest| - 1], keys);
    }
  }

  lemma {:induction false} RevertFirstLast(s: Indexes, r: IndexRecord, rest: seq<IndexRecord>, keys: Keys)
    ensures RevertAll(s, [r] + rest, keys) == RevertAt(RevertAll(s, rest, keys), r, keys)
    decreases |rest|
  {
    hide RevertAt;
    var log := [r] + rest;
    if rest == [] {
      assert log[..0] == [];
    } else {
      assert log[..|log| - 1] == [r] + rest[..|rest| - 1];
      RevertFirstLast(RevertAt(s, rest[|rest| - 1], keys), r, rest[..|rest| - 1], keys);
    }
  }

  // ----- one key -----

  /**
   The record is about the key of this index: it brings it in, takes it out, or takes it out and brings it in again.
   */
  predicate Brings(r: IndexRecord, index: nat, k: Key, keys: Keys) {
    r.index == index && r.wtype != DELETE && keys(index, r.tuple) == k
  }

  predicate TakesOut(r: IndexRecord, index: nat, k: Key, keys: Keys) {
    r.index == index && ((r.wtype == DELETE && keys(index, r.tuple) == k)
                         || (r.wtype == UPDATE && keys(index, r.prior) == k))
  }

  predicate Touched(log: seq<IndexRecord>, index: nat, k: Key, keys: Keys) {
    log != [] && (Brings(log[0], index, k, keys) || TakesOut(log[0], index, k, keys)
                  || Touched(log[1..], index, k, keys))
  }

  /**
   What an abort leaves of a key that the records are about: nothing if the first of them only brings it in; its row
   if the first takes it out and brings it in again; and if it only takes it out, what the later ones leave or else its
   row.
   */
  function Leaves(log: seq<IndexRecord>, index: nat, k: Key, keys: Keys): Option<Rid> {
    if log == [] then None
    else
      var r, later := log[0], Leaves(log[1..], index, k, keys);
      if TakesOut(r, index, k, keys) then (if Brings(r, index, k, keys) || later.None? then Some(r.rid) else later)
      else if Brings(r, index, k, keys) then None
      else later
  }

  function Get(s: Indexes, index: nat, k: Key): Option<Rid> {
    if index in s && k in s[index] then Some(s[index][k]) else None
  }

  lemma GetApplied(s: Indexes, r: IndexRecord, keys: Keys, index: nat, k: Key)
    requires r.index in s && !Brings(r, index, k, keys)
    ensures Get(ApplyAt(s, r, keys), index, k) == if TakesOut(r, index, k, keys) then None else Get(s, index, k)
    ensures ApplyAt(s, r, keys).Keys == s.Keys
  {
  }

  lemma GetReverted(s: Indexes, r: IndexRecord, keys: Keys, index: nat, k: Key)
    requires r.index in s
    ensures Get(RevertAt(s, r, keys), index, k) ==
            if TakesOut(r, index, k, keys)
            then (if Brings(r, index, k, keys) || Get(s, index, k).None? then Some(r.rid) else Get(s, index, k))
            else if Brings(r, index, k, keys) then None
            else Get(s, index, k)
    ensures RevertAt(s, r, keys).Keys == s.Keys
  {
  }

  lemma {:induction false} KeyAfterAbort(s: Indexes, log: seq<IndexRecord>, keys: Keys, index: nat, k: Key)
    requires forall i :: 0 <= i < |log| ==> log[i].index in s
    ensures Get(RevertAll(Write(s, log, keys), log, keys), index, k)
            == if Touched(log, index, k, keys) then Leaves(log, index, k, keys) else Get(s, index, k)
    ensures RevertAll(Write(s, log, keys), log, keys).Keys == s.Keys
    ensures !Touched(log, index, k, keys) ==> Leaves(log, index, k, keys) == None
    decreases |log|
  {
    if log != [] {
      var r, rest := log[0], log[1..];
      assert log == [r] + rest;
      var s1 := ApplyAt(s, r, keys);
      WriteFirst(s, r, rest, keys);
      RevertFirstLast(Write(s1, rest, keys), r, rest, keys);
      assert s1.Keys == s.Keys;
      KeyAfterAbort(s1, rest, keys, index, k);
      if !Brings(r, index, k, keys) { GetApplied(s, r, keys, index, k); }
      GetReverted(RevertAll(Write(s1, rest, keys), rest, keys), r, keys, index, k);
      hide Get, ApplyAt, RevertAt, Brings, TakesOut, Write, RevertAll;
    }
  }

  /** Every key that the records are about has in `s` what they leave. */
  ghost predicate KeysKept(s: Indexes, log: seq<IndexRecord>, keys: Keys) {
    forall index, k :: Touched(log, index, k, keys) ==> Get(s, index, k) == Leaves(log, index, k, keys)
  }

  /**
   Abort restores all indexes exactly when every key that the transaction wrote had at its beginning what the
   records leave.
   */
  lemma IndexesRestoredIff(s: Indexes, log: seq<IndexRecord>, keys: Keys)
    requires forall i :: 0 <= i < |log| ==> log[i].index in s
    ensures RevertAll(Write(s, log, keys), log, keys) == s <==> KeysKept(s, log, keys)
  {
    var s' := RevertAll(Write(s, log, keys), log, keys);
    forall index, k
      ensures Get(s', index, k) == if Touched(log, index, k, keys) then Leaves(log, index, k, keys)
                                   else Get(s, index, k)
    {
      KeyAfterAbort(s, log, keys, index, k);
    }
    KeyAfterAbort(s, log, keys, 0, []);
    SameGets(s, s');
    hide Write, RevertAll, Touched, Leaves, Get;
  }

  lemma SameGets(s: Indexes, s': Indexes)
    requires s.Keys == s'.Keys
    ensures s == s' <==> forall index, k :: Get(s', index, k) == Get(s, index, k)
  {
    if forall index, k :: Get(s', index, k) == Get(s, index, k) {
      forall index | index in s ensures s'[index] == s[index] {
        forall k ensures k in s'[index] <==> k in s[index]
                 ensures k in s[index] && k in s'[index] ==> s'[index][k] == s[index][k]
        {
          assert Get(s', index, k) == Get(s, index, k);
        }
      }
    }
  }

  /** A second row with a key that is taken: the insert does nothing, and undoing it removes the first row's entry. */
  lemma DuplicateKeyLoses(m: Index, r: IndexRecord, key: Tuple -> Key)
    requires r.wtype == INSERT && key(r.tuple) in m
    ensures Apply(m, r, key) == m && Revert(m, r, key) == m - {key(r.tuple)} != m
  {
    assert key(r.tuple) !in Revert(m, r, key);
  }
}
