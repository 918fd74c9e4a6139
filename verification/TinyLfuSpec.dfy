/** What the W-TinyLFU cache does to its state, as functions on values, with the invariant every
    operation keeps. The class beside this module is proved against these functions. */
module TinyLfuSpec {
  import opened Words
  import opened CountMinSketch

  /** A block key, which is only compared and hashed. */
  type Key = nat

  datatype Option<+T> = None | Some(value: T)

  datatype Queue = Window | Probation | Protected

  /** Missing data is None; data, when present, has `size` bytes. */
  datatype Entry = Entry(data: Option<seq<byte>>, size: nat, queue: Queue)

  datatype Config = Config(
    capacity: nat, protectedCapacity: nat, threshold: nat, depth: nat, hash: (Key, nat) -> nat)
  {
    predicate Valid() {
      protectedCapacity >= 1 && threshold < U32 && depth >= 1
    }
  }

  datatype Cache = Cache(
    entries: map<Key, Entry>, window: seq<Key>, probation: seq<Key>, protected: seq<Key>,
    totalSize: nat, log: seq<Use<Key>>, inserted: nat, evicted: nat, hits: nat, misses: nat)

  /** How many probation keys the eviction compares. */
  const SAMPLE: nat := 16

  // ---------- Sizes ----------

  ghost function SizeSum(entries: map<Key, Entry>): nat {
    if entries == map[] then 0
    else
      var k :| k in entries;
      entries[k].size + SizeSum(entries - {k})
  }

  lemma {:induction false} SizeWithout(entries: map<Key, Entry>, k: Key)
    requires k in entries
    ensures SizeSum(entries) == entries[k].size + SizeSum(entries - {k})
    decreases |entries|
  {
    var j :| j in entries && SizeSum(entries) == entries[j].size + SizeSum(entries - {j});
    if j != k {
      SizeWithout(entries - {j}, k);
      SizeWithout(entries - {k}, j);
      assert entries - {j} - {k} == entries - {k} - {j};
    }
  }

  lemma SizeWith(entries: map<Key, Entry>, k: Key, e: Entry)
    ensures SizeSum(entries[k := e]) == e.size + SizeSum(entries - {k})
  {
    SizeWithout(entries[k := e], k);
    assert entries[k := e] - {k} == entries - {k};
  }

  /** Changing an entry but not its size keeps the sum. */
  lemma SizeSame(entries: map<Key, Entry>, k: Key, e: Entry)
    requires k in entries && e.size == entries[k].size
    ensures SizeSum(entries[k := e]) == SizeSum(entries)
  {
    SizeWith(entries, k, e);
    SizeWithout(entries, k);
  }

  // ---------- Queues ----------

  ghost predicate NoDup(q: seq<Key>) {
    forall i, j :: 0 <= i < j < |q| ==> q[i] != q[j]
  }

  /** The queue without the first occurrence of a key. */
  function Without(q: seq<Key>, k: Key): seq<Key> {
    if q == [] then [] else if q[0] == k then q[1..] else [q[0]] + Without(q[1..], k)
  }

  lemma {:induction false} WithoutKeys(q: seq<Key>, k: Key)
    requires NoDup(q)
    ensures NoDup(Without(q, k))
    ensures forall x :: x in Without(q, k) <==> x in q && x != k
  {
    if q != [] {
      assert q[0] !in q[1..];
      assert forall x :: x in q <==> x == q[0] || x in q[1..];
      WithoutKeys(q[1..], k);
      if q[0] != k {
        var rest := Without(q[1..], k);
        assert forall x :: x in [q[0]] + rest <==> x == q[0] || x in rest;
      }
    }
  }

  ghost predicate Holds(entries: map<Key, Entry>, q: seq<Key>, tag: Queue) {
    && NoDup(q)
    && forall k :: k in q <==> k in entries && entries[k].queue == tag
  }

  // ---------- The invariant ----------

  ghost predicate Inv(cfg: Config, c: Cache) {
    && cfg.Valid()
    && Holds(c.entries, c.window, Window)
    && Holds(c.entries, c.probation, Probation)
    && Holds(c.entries, c.protected, Protected)
    && |c.protected| <= cfg.protectedCapacity
    && c.totalSize == SizeSum(c.entries)
    && Remembered(cfg.threshold, c.log)
    && (forall k :: k in c.entries ==> DataFits(c.entries[k]))
  }

  ghost predicate DataFits(e: Entry) {
    e.data.Some? ==> |e.data.value| == e.size
  }

  // ---------- Eviction ----------

  function Estimate(cfg: Config, c: Cache, k: Key): nat {
    Estimated(cfg.hash, cfg.depth, c.log, k)
  }

  /** The first position of a smallest estimate among the first n keys. */
  ghost predicate Least(cfg: Config, c: Cache, q: seq<Key>, n: nat, i: nat) {
    && i < n <= |q|
    && (forall j :: 0 <= j < n ==> Estimate(cfg, c, q[i]) <= Estimate(cfg, c, q[j]))
    && (forall j :: 0 <= j < i ==> Estimate(cfg, c, q[i]) < Estimate(cfg, c, q[j]))
  }

  function ArgLeast(cfg: Config, c: Cache, q: seq<Key>, n: nat): (i: nat)
    requires 1 <= n <= |q|
    ensures Least(cfg, c, q, n, i)
  {
    if n == 1 then 0
    else
      var i := ArgLeast(cfg, c, q, n - 1);
      if Estimate(cfg, c, q[n - 1]) < Estimate(cfg, c, q[i]) then n - 1 else i
  }

  function Sample(q: seq<Key>): nat {
    if |q| < SAMPLE then |q| else SAMPLE
  }

  /** Window before probation before protected; oldest first, except that probation gives up its
      least used key among the oldest sixteen. */
  function Victim(cfg: Config, c: Cache): (k: Key)
    requires c.window != [] || c.probation != [] || c.protected != []
  {
    if c.window != [] then c.window[0]
    else if c.probation != [] then c.probation[ArgLeast(cfg, c, c.probation, Sample(c.probation))]
    else c.protected[0]
  }

  function Dropped(c: Cache, k: Key): Cache
    requires k in c.entries && c.entries[k].size <= c.totalSize
  {
    c.(entries := c.entries - {k},
       window := Without(c.window, k),
       probation := Without(c.probation, k),
       protected := Without(c.protected, k),
       totalSize := c.totalSize - c.entries[k].size)
  }

  lemma NonEmpty(cfg: Config, c: Cache)
    requires Inv(cfg, c) && c.entries != map[]
    ensures c.window != [] || c.probation != [] || c.protected != []
    ensures Victim(cfg, c) in c.entries
  {
    var k :| k in c.entries;
    match c.entries[k].queue
    case Window => assert k in c.window;
    case Probation => assert k in c.probation;
    case Protected => assert k in c.protected;
    assert Victim(cfg, c) in c.window || Victim(cfg, c) in c.probation || Victim(cfg, c) in c.protected;
  }

  lemma SizeFits(cfg: Config, c: Cache, k: Key)
    requires Inv(cfg, c) && k in c.entries
    ensures c.entries[k].size <= c.totalSize
  {
    SizeWithout(c.entries, k);
  }

  lemma HoldsWithout(entries: map<Key, Entry>, q: seq<Key>, tag: Queue, k: Key)
    requires Holds(entries, q, tag)
    ensures Holds(entries - {k}, Without(q, k), tag)
    ensures |Without(q, k)| <= |q|
  {
    WithoutKeys(q, k);
    WithoutLength(q, k);
  }

  lemma {:induction false} WithoutLength(q: seq<Key>, k: Key)
    ensures |Without(q, k)| == if k in q then |q| - 1 else |q|
  {
    if q != [] && q[0] != k {
      WithoutLength(q[1..], k);
    }
  }

  lemma DroppedInv(cfg: Config, c: Cache, k: Key)
    requires Inv(cfg, c) && k in c.entries
    ensures c.entries[k].size <= c.totalSize && Inv(cfg, Dropped(c, k))
  {
    hide NoDup, Without, Holds, Remembered, DataFits;
    SizeWithout(c.entries, k);
    HoldsWithout(c.entries, c.window, Window, k);
    HoldsWithout(c.entries, c.probation, Probation, k);
    HoldsWithout(c.entries, c.protected, Protected, k);
  }

  /** One eviction. */
  function Evicted(cfg: Config, c: Cache): Cache
    requires Inv(cfg, c) && c.entries != map[]
  {
    NonEmpty(cfg, c);
    SizeFits(cfg, c, Victim(cfg, c));
    Dropped(c, Victim(cfg, c)).(evicted := c.evicted + 1)
  }

  lemma EvictedInv(cfg: Config, c: Cache)
    requires Inv(cfg, c) && c.entries != map[]
    ensures Inv(cfg, Evicted(cfg, c)) && |Evicted(cfg, c).entries| == |c.entries| - 1
  {
    hide Victim, Holds;
    NonEmpty(cfg, c);
    DroppedInv(cfg, c, Victim(cfg, c));
  }

  // ---------- Put ----------

  /** Evict until there is room, or nothing is left. */
  function Shrunk(cfg: Config, c: Cache): (c': Cache)
    requires Inv(cfg, c)
    ensures Inv(cfg, c') && (|c'.entries| < cfg.capacity || c'.entries == map[])
    ensures c'.entries.Keys <= c.entries.Keys
    decreases |c.entries|
  {
    hide Inv, Evicted;
    if |c.entries| < cfg.capacity || c.entries == map[] then c
    else
      EvictedInv(cfg, c);
      EvictedKeys(cfg, c);
      Shrunk(cfg, Evicted(cfg, c))
  }

  lemma EvictedKeys(cfg: Config, c: Cache)
    requires Inv(cfg, c) && c.entries != map[]
    ensures Evicted(cfg, c).entries.Keys <= c.entries.Keys
  {
    hide Inv, Victim;
    NonEmpty(cfg, c);
  }

  /** What the caller must pass: data of the given size, and data at all when a copy is made. */
  ghost predicate PutArgs(c: Cache, key: Key, data: Option<seq<byte>>, size: nat) {
    && (data.Some? ==> |data.value| == size)
    && (key in c.entries && c.entries[key].data.Some? && size > 0 ==> data.Some?)
  }

  /** The stored bytes with as many of the new ones copied over them as fit. */
  function Overwritten(was: seq<byte>, data: seq<byte>): (r: seq<byte>)
    ensures |r| == |was|
  {
    if |data| <= |was| then data + was[|data|..] else data[..|was|]
  }

  function PutOver(cfg: Config, c: Cache, key: Key, data: Option<seq<byte>>, size: nat): Cache
    requires PutArgs(c, key, data, size) && key in c.entries
  {
    var e := c.entries[key];
    var c' := c.(log := Accessed(cfg.threshold, c.log, key));
    if e.data.Some? && size > 0
    then c'.(entries := c.entries[key := e.(data := Some(Overwritten(e.data.value, data.value)))])
    else c'
  }

  /** What a new entry holds: a copy if there is anything to copy and memory for it. */
  function NewEntry(data: Option<seq<byte>>, size: nat, memory: bool): Entry {
    Entry(if size > 0 && memory then data else None, size, Window)
  }

  function PutNew(cfg: Config, c: Cache, key: Key, data: Option<seq<byte>>, size: nat, memory: bool): Cache {
    c.(entries := c.entries[key := NewEntry(data, size, memory)],
       window := c.window + [key],
       inserted := c.inserted + 1,
       totalSize := c.totalSize + size,
       log := Accessed(cfg.threshold, c.log, key))
  }

  /** `memory` says whether memory for a copy can be had. */
  function Put(cfg: Config, c: Cache, key: Key, data: Option<seq<byte>>, size: nat, memory: bool): Cache
    requires Inv(cfg, c) && PutArgs(c, key, data, size)
  {
    if key in c.entries then PutOver(cfg, c, key, data, size)
    else PutNew(cfg, Shrunk(cfg, c), key, data, size, memory)
  }

  /** An update that keeps the tag keeps the queue. */
  lemma HoldsSame(entries: map<Key, Entry>, q: seq<Key>, tag: Queue, k: Key, e: Entry)
    requires Holds(entries, q, tag)
    requires k in entries && e.queue == entries[k].queue
    ensures Holds(entries[k := e], q, tag)
  {
  }

  /** A new key joins the queue its tag names, and no other. */
  lemma HoldsNew(entries: map<Key, Entry>, q: seq<Key>, tag: Queue, k: Key, e: Entry)
    requires Holds(entries, q, tag) && k !in entries
    ensures Holds(entries[k := e], if e.queue == tag then q + [k] else q, tag)
  {
  }

  lemma PutOverInv(cfg: Config, c: Cache, key: Key, data: Option<seq<byte>>, size: nat)
    requires Inv(cfg, c) && PutArgs(c, key, data, size) && key in c.entries
    ensures Inv(cfg, PutOver(cfg, c, key, data, size))
  {
    hide Holds, Remembered, Accessed, Overwritten;
    var e := c.entries[key];
    RememberedAccess(cfg.threshold, c.log, key);
    if e.data.Some? && size > 0 {
      var e' := e.(data := Some(Overwritten(e.data.value, data.value)));
      SizeSame(c.entries, key, e');
      HoldsSame(c.entries, c.window, Window, key, e');
      HoldsSame(c.entries, c.probation, Probation, key, e');
      HoldsSame(c.entries, c.protected, Protected, key, e');
    }
  }

  lemma PutNewInv(cfg: Config, c: Cache, key: Key, data: Option<seq<byte>>, size: nat, memory: bool)
    requires Inv(cfg, c) && PutArgs(c, key, data, size) && key !in c.entries
    ensures Inv(cfg, PutNew(cfg, c, key, data, size, memory))
  {
    hide Holds, Remembered, Accessed;
    var e := NewEntry(data, size, memory);
    RememberedAccess(cfg.threshold, c.log, key);
    SizeWith(c.entries, key, e);
    assert c.entries - {key} == c.entries;
    HoldsNew(c.entries, c.window, Window, key, e);
    HoldsNew(c.entries, c.probation, Probation, key, e);
    HoldsNew(c.entries, c.protected, Protected, key, e);
  }

  /** Put keeps the invariant and holds the key. A resident key leaves the count alone; a new one
      leaves at most `capacity` entries, or one if the capacity is 0. */
  lemma PutInv(cfg: Config, c: Cache, key: Key, data: Option<seq<byte>>, size: nat, memory: bool)
    requires Inv(cfg, c) && PutArgs(c, key, data, size)
    ensures var c' := Put(cfg, c, key, data, size, memory);
      && Inv(cfg, c')
      && key in c'.entries
      && (key in c.entries ==> |c'.entries| == |c.entries|)
      && (key !in c.entries ==> |c'.entries| <= if cfg.capacity == 0 then 1 else cfg.capacity)
  {
    hide Inv, PutArgs;
    if key in c.entries {
      PutOverInv(cfg, c, key, data, size);
      PutOverKeys(cfg, c, key, data, size);
    } else {
      var s := Shrunk(cfg, c);
      assert PutArgs(s, key, data, size) by { SameArgs(c, s, key, data, size); }
      PutNewInv(cfg, s, key, data, size, memory);
      assert |s.entries[key := NewEntry(data, size, memory)]| == |s.entries| + 1;
    }
  }

  lemma SameArgs(c: Cache, s: Cache, key: Key, data: Option<seq<byte>>, size: nat)
    requires PutArgs(c, key, data, size) && key !in s.entries
    ensures PutArgs(s, key, data, size)
  {
  }

  lemma PutOverKeys(cfg: Config, c: Cache, key: Key, data: Option<seq<byte>>, size: nat)
    requires PutArgs(c, key, data, size) && key in c.entries
    ensures PutOver(cfg, c, key, data, size).entries.Keys == c.entries.Keys
    ensures |PutOver(cfg, c, key, data, size).entries| == |c.entries|
  {
    var c' := PutOver(cfg, c, key, data, size);
    assert |c'.entries.Keys| == |c.entries.Keys|;
  }

  // ---------- Get, Remove, Clear ----------

  function Retag(entries: map<Key, Entry>, k: Key, tag: Queue): map<Key, Entry>
    requires k in entries
  {
    entries[k := entries[k].(queue := tag)]
  }

  /** A probation hit moves to protected; if protected is full, its oldest key goes back. */
  function Promoted(cfg: Config, c: Cache, key: Key): Cache
    requires Inv(cfg, c) && key in c.entries && c.entries[key].queue == Probation
  {
    var probation := Without(c.probation, key);
    var entries := Retag(c.entries, key, Protected);
    if |c.protected| < cfg.protectedCapacity
    then c.(entries := entries, probation := probation, protected := c.protected + [key])
    else
      var oldest := c.protected[0];
      assert oldest in c.protected;
      c.(entries := Retag(entries, oldest, Probation),
         probation := probation + [oldest],
         protected := c.protected[1..] + [key])
  }

  function GetMiss(c: Cache): Cache {
    c.(misses := c.misses + 1)
  }

  function Get(cfg: Config, c: Cache, key: Key): Cache
    requires Inv(cfg, c)
  {
    if key !in c.entries then GetMiss(c)
    else
      var c' := c.(log := Accessed(cfg.threshold, c.log, key), hits := c.hits + 1);
      GetInvTouched(cfg, c, key);
      if c.entries[key].queue == Probation then Promoted(cfg, c', key) else c'
  }

  lemma GetInvTouched(cfg: Config, c: Cache, key: Key)
    requires Inv(cfg, c)
    ensures Inv(cfg, c.(log := Accessed(cfg.threshold, c.log, key), hits := c.hits + 1))
  {
    hide Holds, Remembered, Accessed;
    RememberedAccess(cfg.threshold, c.log, key);
  }

  /** Moving a key from the queue of its tag to the queue of another. */
  lemma HoldsRetag(entries: map<Key, Entry>, q: seq<Key>, tag: Queue, k: Key, newTag: Queue)
    requires Holds(entries, q, tag) && k in entries && entries[k].queue != newTag
    ensures Holds(Retag(entries, k, newTag),
                  if tag == newTag then q + [k] else if tag == entries[k].queue then Without(q, k) else q, tag)
  {
    WithoutKeys(q, k);
  }

  lemma FirstWithout(q: seq<Key>)
    requires q != []
    ensures Without(q, q[0]) == q[1..]
  {
  }

  lemma PromotedInv(cfg: Config, c: Cache, key: Key)
    requires Inv(cfg, c) && key in c.entries && c.entries[key].queue == Probation
    ensures Inv(cfg, Promoted(cfg, c, key))
  {
    hide Holds, Remembered, Without;
    var e1 := Retag(c.entries, key, Protected);
    SizeSame(c.entries, key, e1[key]);
    HoldsRetag(c.entries, c.window, Window, key, Protected);
    HoldsRetag(c.entries, c.probation, Probation, key, Protected);
    HoldsRetag(c.entries, c.protected, Protected, key, Protected);
    if |c.protected| >= cfg.protectedCapacity {
      var oldest := c.protected[0];
      OldestIsProtected(c.entries, c.protected, key);
      var p := Without(c.probation, key);
      SizeSame(e1, oldest, e1[oldest].(queue := Probation));
      HoldsRetag(e1, c.window, Window, oldest, Probation);
      HoldsRetag(e1, p, Probation, oldest, Probation);
      HoldsRetag(e1, c.protected + [key], Protected, oldest, Probation);
      assert (c.protected + [key])[0] == oldest;
      FirstWithout(c.protected + [key]);
      assert (c.protected + [key])[1..] == c.protected[1..] + [key];
    }
  }

  lemma OldestIsProtected(entries: map<Key, Entry>, protected: seq<Key>, key: Key)
    requires Holds(entries, protected, Protected) && protected != []
    requires key in entries && entries[key].queue == Probation
    ensures protected[0] in entries && entries[protected[0]].queue == Protected && protected[0] != key
  {
    assert protected[0] in protected;
  }

  lemma GetInv(cfg: Config, c: Cache, key: Key)
    requires Inv(cfg, c)
    ensures Inv(cfg, Get(cfg, c, key)) && Get(cfg, c, key).entries.Keys == c.entries.Keys
  {
    hide Holds, Remembered, Without, Accessed;
    if key in c.entries {
      GetInvTouched(cfg, c, key);
      if c.entries[key].queue == Probation {
        PromotedInv(cfg, c.(log := Accessed(cfg.threshold, c.log, key), hits := c.hits + 1), key);
        if |c.protected| >= cfg.protectedCapacity {
          OldestIsProtected(c.entries, c.protected, key);
        }
      }
    }
  }

  function Remove(cfg: Config, c: Cache, key: Key): Cache
    requires Inv(cfg, c)
  {
    if key !in c.entries then c
    else
      SizeFits(cfg, c, key);
      Dropped(c, key)
  }

  function Clear(c: Cache): Cache {
    c.(entries := map[], window := [], probation := [], protected := [], totalSize := 0)
  }

  lemma RemoveInv(cfg: Config, c: Cache, key: Key)
    requires Inv(cfg, c)
    ensures Inv(cfg, Remove(cfg, c, key))
    ensures Remove(cfg, c, key).entries == c.entries - {key}
  {
    hide Holds, Remembered, Without;
    if key in c.entries {
      DroppedInv(cfg, c, key);
    } else {
      assert c.entries - {key} == c.entries;
    }
  }

  lemma ClearInv(cfg: Config, c: Cache)
    requires Inv(cfg, c)
    ensures Inv(cfg, Clear(c))
  {
  }
}
