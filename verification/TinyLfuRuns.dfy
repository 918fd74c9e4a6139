/** Whole runs of the W-TinyLFU cache from its constructor. No operation ever puts a key into
    probation that was not there, so a run never leaves the window: the cache is a plain FIFO. */
module TinyLfuRuns {
  import opened Words
  import opened CountMinSketch
  import opened TinyLfuSpec

  datatype Op =
    | PutOp(key: Key, data: Option<seq<byte>>, size: nat, memory: bool)
    | GetOp(key: Key)
    | RemoveOp(key: Key)
    | ClearOp

  const EMPTY := Cache(map[], [], [], [], 0, [], 0, 0, 0, 0)

  ghost predicate Bounded(cfg: Config, c: Cache) {
    |c.entries| <= cfg.capacity || |c.entries| <= 1
  }

  /** The caller passes data that can be copied. */
  ghost predicate Allowed(c: Cache, op: Op) {
    op.PutOp? ==> PutArgs(c, op.key, op.data, op.size)
  }

  function Step(cfg: Config, c: Cache, op: Op): (c': Cache)
    requires Inv(cfg, c) && Bounded(cfg, c) && Allowed(c, op)
    ensures Inv(cfg, c') && Bounded(cfg, c')
  {
    hide Inv, Put, Get, Remove;
    match op
    case PutOp(key, data, size, memory) =>
      PutInv(cfg, c, key, data, size, memory);
      Put(cfg, c, key, data, size, memory)
    case GetOp(key) =>
      GetInv(cfg, c, key);
      SameCount(c.entries, Get(cfg, c, key).entries);
      Get(cfg, c, key)
    case RemoveOp(key) =>
      RemoveInv(cfg, c, key);
      FewerCount(c.entries, Remove(cfg, c, key).entries);
      Remove(cfg, c, key)
    case ClearOp =>
      ClearInv(cfg, c);
      Clear(c)
  }

  lemma SameCount(m: map<Key, Entry>, n: map<Key, Entry>)
    requires m.Keys == n.Keys
    ensures |m| == |n|
  {
    assert |m.Keys| == |n.Keys|;
  }

  lemma FewerCount(m: map<Key, Entry>, n: map<Key, Entry>)
    requires n.Keys <= m.Keys
    ensures |n| <= |m|
  {
    assert m.Keys == n.Keys + (m.Keys - n.Keys);
    assert |n.Keys| <= |m.Keys|;
  }

  lemma EmptyInv(cfg: Config)
    requires cfg.Valid()
    ensures Inv(cfg, EMPTY)
  {
  }

  /** Every call of a run is allowed in the state it is made in. */
  ghost predicate Legal(cfg: Config, ops: seq<Op>)
    requires cfg.Valid()
    decreases |ops|, 0
  {
    ops != [] ==> Legal(cfg, ops[..|ops| - 1]) && Allowed(Run(cfg, ops[..|ops| - 1]), ops[|ops| - 1])
  }

  /** The state after a run: the invariant holds throughout and the cache stays within capacity. */
  function Run(cfg: Config, ops: seq<Op>): (c: Cache)
    requires cfg.Valid() && Legal(cfg, ops)
    ensures Inv(cfg, c) && Bounded(cfg, c)
    decreases |ops|, 1
  {
    hide Inv, Step, Allowed;
    if ops == [] then
      EmptyInv(cfg);
      EMPTY
    else Step(cfg, Run(cfg, ops[..|ops| - 1]), ops[|ops| - 1])
  }

  /** Passing data of the right size is always allowed. */
  lemma {:induction false} DataIsLegal(cfg: Config, ops: seq<Op>)
    requires cfg.Valid()
    requires forall op :: op in ops && op.PutOp? ==> op.data.Some? && |op.data.value| == op.size
    ensures Legal(cfg, ops)
  {
    hide Run;
    if ops != [] {
      DataIsLegal(cfg, ops[..|ops| - 1]);
      assert ops[|ops| - 1] in ops;
    }
  }

  // ---------- The run is a FIFO ----------

  function Trimmed(capacity: nat, q: seq<Key>): seq<Key> {
    if |q| < capacity || q == [] then q else Trimmed(capacity, q[1..])
  }

  /** A queue of keys in order of insertion. Hits do nothing to it. */
  function Fifo(capacity: nat, ops: seq<Op>): seq<Key> {
    if ops == [] then []
    else
      var q := Fifo(capacity, ops[..|ops| - 1]);
      match ops[|ops| - 1]
      case PutOp(key, _, _, _) => if key in q then q else Trimmed(capacity, q) + [key]
      case GetOp(_) => q
      case RemoveOp(key) => Without(q, key)
      case ClearOp => []
  }

  ghost predicate OnlyWindow(c: Cache) {
    c.probation == [] && c.protected == []
  }

  lemma WindowKeys(cfg: Config, c: Cache)
    requires Inv(cfg, c) && OnlyWindow(c)
    ensures forall k :: k in c.entries <==> k in c.window
    ensures forall k :: k in c.entries ==> c.entries[k].queue == Window
    ensures |c.entries| == |c.window|
  {
    forall k
      ensures k in c.entries <==> k in c.window
      ensures k in c.entries ==> c.entries[k].queue == Window
    {
      if k in c.entries {
        assert c.entries[k].queue == Probation ==> k in c.probation;
        assert c.entries[k].queue == Protected ==> k in c.protected;
      }
    }
    SetOfNoDup(c.window);
    assert c.entries.Keys == KeySet(c.window);
  }

  ghost function KeySet(q: seq<Key>): set<Key> {
    set k | k in q
  }

  lemma {:induction false} SetOfNoDup(q: seq<Key>)
    requires NoDup(q)
    ensures |KeySet(q)| == |q|
  {
    if q != [] {
      SetOfNoDup(q[1..]);
      assert q[0] !in q[1..];
      assert KeySet(q) == KeySet(q[1..]) + {q[0]};
    }
  }

  lemma EvictedFifo(cfg: Config, c: Cache)
    requires Inv(cfg, c) && OnlyWindow(c) && c.entries != map[]
    ensures OnlyWindow(Evicted(cfg, c))
    ensures c.window != [] && Evicted(cfg, c).window == c.window[1..]
  {
    NonEmpty(cfg, c);
    FirstWithout(c.window);
  }

  lemma {:induction false} ShrunkFifo(cfg: Config, c: Cache)
    requires Inv(cfg, c) && OnlyWindow(c)
    ensures OnlyWindow(Shrunk(cfg, c))
    ensures Shrunk(cfg, c).window == Trimmed(cfg.capacity, c.window)
    decreases |c.entries|
  {
    hide Inv, Evicted;
    WindowKeys(cfg, c);
    if |c.entries| >= cfg.capacity && c.entries != map[] {
      EvictedInv(cfg, c);
      EvictedFifo(cfg, c);
      ShrunkFifo(cfg, Evicted(cfg, c));
    }
  }

  lemma StepFifo(cfg: Config, c: Cache, op: Op)
    requires Inv(cfg, c) && Bounded(cfg, c) && OnlyWindow(c) && Allowed(c, op)
    ensures OnlyWindow(Step(cfg, c, op))
    ensures Step(cfg, c, op).window ==
      match op
      case PutOp(key, _, _, _) => if key in c.window then c.window else Trimmed(cfg.capacity, c.window) + [key]
      case GetOp(_) => c.window
      case RemoveOp(key) => Without(c.window, key)
      case ClearOp => []
  {
    hide Inv;
    WindowKeys(cfg, c);
    match op
    case PutOp(key, data, size, memory) =>
      ShrunkFifo(cfg, c);
    case GetOp(key) =>
    case RemoveOp(key) =>
      if key !in c.window {
        WithoutNone(c.window, key);
      }
    case ClearOp =>
  }

  lemma {:induction false} WithoutNone(q: seq<Key>, k: Key)
    requires k !in q
    ensures Without(q, k) == q
  {
    if q != [] {
      WithoutNone(q[1..], k);
    }
  }

  /** Every run refines the FIFO: what is resident, and in which order it will be evicted. */
  lemma {:induction false} RunIsFifo(cfg: Config, ops: seq<Op>)
    requires cfg.Valid() && Legal(cfg, ops)
    ensures OnlyWindow(Run(cfg, ops))
    ensures Run(cfg, ops).window == Fifo(cfg.capacity, ops)
    ensures forall k :: k in Run(cfg, ops).entries <==> k in Fifo(cfg.capacity, ops)
  {
    hide Inv, Step, Allowed;
    if ops != [] {
      var before := Run(cfg, ops[..|ops| - 1]);
      RunIsFifo(cfg, ops[..|ops| - 1]);
      StepFifo(cfg, before, ops[|ops| - 1]);
    }
    WindowKeys(cfg, Run(cfg, ops));
  }

  // ---------- The run returns what was put ----------

  function LatestPut(ops: seq<Op>, key: Key): Option<Op> {
    if ops == [] then None
    else if ops[|ops| - 1].PutOp? && ops[|ops| - 1].key == key then Some(ops[|ops| - 1])
    else LatestPut(ops[..|ops| - 1], key)
  }

  /** Every Put of a key has one size. */
  ghost predicate OneSize(ops: seq<Op>, key: Key, size: nat) {
    forall op :: op in ops && op.PutOp? && op.key == key ==> op.size == size
  }

  /** Every Put of a key brings data and finds memory for it. */
  ghost predicate AllCopied(ops: seq<Op>, key: Key) {
    forall op :: op in ops && op.PutOp? && op.key == key ==> op.data.Some? && op.memory
  }

  /** What Evicted and Shrunk leave untouched. */
  lemma {:induction false} ShrunkKeeps(cfg: Config, c: Cache)
    requires Inv(cfg, c)
    ensures var s := Shrunk(cfg, c);
      && s.inserted == c.inserted
      && |s.entries| + s.evicted == |c.entries| + c.evicted
      && forall k :: k in s.entries ==> k in c.entries && s.entries[k] == c.entries[k]
    decreases |c.entries|
  {
    hide Inv, Evicted;
    if |c.entries| >= cfg.capacity && c.entries != map[] {
      EvictedInv(cfg, c);
      EvictedKeeps(cfg, c);
      ShrunkKeeps(cfg, Evicted(cfg, c));
    }
  }

  lemma EvictedKeeps(cfg: Config, c: Cache)
    requires Inv(cfg, c) && c.entries != map[]
    ensures var s := Evicted(cfg, c);
      && s.inserted == c.inserted && s.evicted == c.evicted + 1
      && forall k :: k in s.entries ==> k in c.entries && s.entries[k] == c.entries[k]
  {
    hide Inv, Victim;
    NonEmpty(cfg, c);
  }

  /** If all Puts of a key have one size, its resident block, if it holds data, holds that of the
      latest of them; and it holds data if each of them brought some and found memory for it. */
  lemma {:induction false} ResidentIsLatest(cfg: Config, ops: seq<Op>, size: nat, key: Key)
    requires cfg.Valid() && Legal(cfg, ops) && size > 0 && OneSize(ops, key, size)
    ensures key in Run(cfg, ops).entries ==>
      var e, put := Run(cfg, ops).entries[key], LatestPut(ops, key);
      && put.Some? && put.value.PutOp? && e.size == size
      && (e.data.Some? ==> e.data == put.value.data)
      && (AllCopied(ops, key) ==> e.data.Some?)
  {
    hide Inv, Step, Allowed;
    if ops != [] {
      var prev, op := ops[..|ops| - 1], ops[|ops| - 1];
      assert op in ops;
      ResidentIsLatest(cfg, prev, size, key);
      if key in Run(cfg, ops).entries {
        StepData(cfg, Run(cfg, prev), op, key, size);
      }
    }
  }

  /** What one step does to the block of one key. */
  lemma StepData(cfg: Config, c: Cache, op: Op, key: Key, size: nat)
    requires Inv(cfg, c) && Bounded(cfg, c) && Allowed(c, op) && size > 0
    requires op.PutOp? && op.key == key ==> op.size == size
    requires key in c.entries ==> c.entries[key].size == size
    ensures key in Step(cfg, c, op).entries ==>
      var e := Step(cfg, c, op).entries[key];
      if op.PutOp? && op.key == key then
        && e.size == size
        && (e.data.Some? ==> e.data == op.data)
        && (op.data.Some? && op.memory && (key in c.entries ==> c.entries[key].data.Some?) ==> e.data.Some?)
      else key in c.entries && e.data == c.entries[key].data && e.size == c.entries[key].size
  {
    hide Inv, Promoted, Shrunk, Accessed, Overwritten;
    match op
    case PutOp(k, data, _, _) =>
      ShrunkKeeps(cfg, c);
      if key == k && key in c.entries && c.entries[key].data.Some? {
        DataSize(cfg, c, key);
        WholeOverwrite(c.entries[key].data.value, data.value);
      }
    case GetOp(k) =>
      GetInv(cfg, c, k);
      if key in c.entries {
        GetData(cfg, c, k, key);
      }
    case RemoveOp(k) =>
    case ClearOp =>
  }

  lemma WholeOverwrite(was: seq<byte>, data: seq<byte>)
    requires |was| == |data|
    ensures Overwritten(was, data) == data
  {
  }

  lemma DataSize(cfg: Config, c: Cache, key: Key)
    requires Inv(cfg, c) && key in c.entries && c.entries[key].data.Some?
    ensures |c.entries[key].data.value| == c.entries[key].size
  {
  }

  lemma GetData(cfg: Config, c: Cache, k: Key, key: Key)
    requires Inv(cfg, c) && key in c.entries
    ensures key in Get(cfg, c, k).entries
    ensures Get(cfg, c, k).entries[key].data == c.entries[key].data
    ensures Get(cfg, c, k).entries[key].size == c.entries[key].size
  {
    hide Accessed, Without;
  }

  // ---------- Nothing is lost ----------

  /** Entries taken out by Remove and Clear over a run. */
  function Taken(cfg: Config, ops: seq<Op>): nat
    requires cfg.Valid() && Legal(cfg, ops)
  {
    if ops == [] then 0
    else
      var prev := ops[..|ops| - 1];
      Taken(cfg, prev) +
      match ops[|ops| - 1]
      case RemoveOp(key) => if key in Run(cfg, prev).entries then 1 else 0
      case ClearOp => |Run(cfg, prev).entries|
      case _ => 0
  }

  /** Every entry ever inserted is still resident, or was evicted, removed or cleared. */
  lemma {:induction false} Conservation(cfg: Config, ops: seq<Op>)
    requires cfg.Valid() && Legal(cfg, ops)
    ensures Run(cfg, ops).inserted == |Run(cfg, ops).entries| + Run(cfg, ops).evicted + Taken(cfg, ops)
  {
    hide Inv, Step, Allowed;
    if ops != [] {
      var prev := ops[..|ops| - 1];
      Conservation(cfg, prev);
      StepCounts(cfg, Run(cfg, prev), ops[|ops| - 1]);
    }
  }

  lemma StepCounts(cfg: Config, c: Cache, op: Op)
    requires Inv(cfg, c) && Bounded(cfg, c) && Allowed(c, op)
    ensures var c' := Step(cfg, c, op);
      c'.inserted - |c'.entries| - c'.evicted == c.inserted - |c.entries| - c.evicted +
        match op
        case RemoveOp(key) => if key in c.entries then 1 else 0
        case ClearOp => |c.entries|
        case _ => 0
  {
    hide Inv;
    match op
    case PutOp(key, data, size, memory) =>
      if key in c.entries {
        PutOverKeys(cfg, c, key, data, size);
      } else {
        ShrunkKeeps(cfg, c);
        var s := Shrunk(cfg, c).entries;
        assert |s[key := NewEntry(data, size, memory)]| == |s| + 1;
      }
    case GetOp(key) =>
      GetInv(cfg, c, key);
      SameCount(c.entries, Get(cfg, c, key).entries);
    case RemoveOp(key) =>
      RemoveInv(cfg, c, key);
    case ClearOp =>
  }
}
