/** What the W-TinyLFU cache counts over whole runs, and what a single operation does to a queue. */
module TinyLfuCounts {
  import opened Words
  import opened CountMinSketch
  import opened TinyLfuSpec
  import opened TinyLfuRuns

  // ---------- Counters ----------

  /** Lookups of keys that the queue of resident keys held, and lookups of others. */
  function Hits(capacity: nat, ops: seq<Op>): nat {
    if ops == [] then 0
    else
      var prev, op := ops[..|ops| - 1], ops[|ops| - 1];
      Hits(capacity, prev) + (if op.GetOp? && op.key in Fifo(capacity, prev) then 1 else 0)
  }

  function Misses(capacity: nat, ops: seq<Op>): nat {
    if ops == [] then 0
    else
      var prev, op := ops[..|ops| - 1], ops[|ops| - 1];
      Misses(capacity, prev) + (if op.GetOp? && op.key !in Fifo(capacity, prev) then 1 else 0)
  }

  function Inserts(capacity: nat, ops: seq<Op>): nat {
    if ops == [] then 0
    else
      var prev, op := ops[..|ops| - 1], ops[|ops| - 1];
      Inserts(capacity, prev) + (if op.PutOp? && op.key !in Fifo(capacity, prev) then 1 else 0)
  }

  /** The keys whose use is counted: every Put, and every lookup that hits. */
  function Touches(capacity: nat, ops: seq<Op>): seq<Key> {
    if ops == [] then []
    else
      var prev, op := ops[..|ops| - 1], ops[|ops| - 1];
      Touches(capacity, prev)
      + (if op.PutOp? || (op.GetOp? && op.key in Fifo(capacity, prev)) then [op.key] else [])
  }

  /** Over every run the statistics count hits, misses and insertions of the queue of resident keys,
      and the filter remembers the Puts and hits. */
  lemma {:induction false} RunCounts(cfg: Config, ops: seq<Op>)
    requires cfg.Valid() && Legal(cfg, ops)
    ensures var c := Run(cfg, ops);
      && c.hits == Hits(cfg.capacity, ops) && c.misses == Misses(cfg.capacity, ops)
      && c.inserted == Inserts(cfg.capacity, ops)
      && c.log == Remembering(cfg.threshold, Touches(cfg.capacity, ops))
  {
    hide Inv, Step, Allowed, Fifo, Accessed;
    if ops != [] {
      var prev, op := ops[..|ops| - 1], ops[|ops| - 1];
      var c := Run(cfg, prev);
      RunCounts(cfg, prev);
      RunIsFifo(cfg, prev);
      StepCounters(cfg, c, op);
      if op.PutOp? || (op.GetOp? && op.key in Fifo(cfg.capacity, prev)) {
        RememberingSnoc(cfg.threshold, Touches(cfg.capacity, prev), op.key);
        assert Touches(cfg.capacity, ops) == Touches(cfg.capacity, prev) + [op.key];
      } else {
        assert Touches(cfg.capacity, ops) == Touches(cfg.capacity, prev) + [] == Touches(cfg.capacity, prev);
      }
    }
  }

  lemma RememberingSnoc(threshold: nat, keys: seq<Key>, key: Key)
    ensures Remembering(threshold, keys + [key]) == Accessed(threshold, Remembering(threshold, keys), key)
  {
    hide Accessed;
    assert (keys + [key])[..|keys|] == keys;
  }

  lemma StepCounters(cfg: Config, c: Cache, op: Op)
    requires Inv(cfg, c) && Bounded(cfg, c) && Allowed(c, op)
    ensures var c' := Step(cfg, c, op);
      && c'.hits == c.hits + (if op.GetOp? && op.key in c.entries then 1 else 0)
      && c'.misses == c.misses + (if op.GetOp? && op.key !in c.entries then 1 else 0)
      && c'.inserted == c.inserted + (if op.PutOp? && op.key !in c.entries then 1 else 0)
      && c'.log == if op.PutOp? || (op.GetOp? && op.key in c.entries)
                   then Accessed(cfg.threshold, c.log, op.key) else c.log
  {
    hide Inv, Accessed, Without, Overwritten;
    match op
    case PutOp(key, data, size, memory) =>
      ShrunkCounters(cfg, c);
    case GetOp(key) =>
    case RemoveOp(key) =>
    case ClearOp =>
  }

  lemma {:induction false} ShrunkCounters(cfg: Config, c: Cache)
    requires Inv(cfg, c)
    ensures var s := Shrunk(cfg, c);
      s.hits == c.hits && s.misses == c.misses && s.inserted == c.inserted && s.log == c.log
    decreases |c.entries|
  {
    hide Inv, Victim, Without;
    if |c.entries| >= cfg.capacity && c.entries != map[] {
      EvictedInv(cfg, c);
      ShrunkCounters(cfg, Evicted(cfg, c));
    }
  }

  // ---------- How many keys eviction leaves ----------

  /** Making room leaves the latest capacity - 1 keys of a queue. */
  lemma {:induction false} TrimmedIsSuffix(capacity: nat, q: seq<Key>)
    ensures capacity == 0 ==> Trimmed(capacity, q) == []
    ensures capacity >= 1 ==> Trimmed(capacity, q) == q[|q| - Min(|q|, capacity - 1)..]
  {
    if |q| >= capacity && q != [] {
      TrimmedIsSuffix(capacity, q[1..]);
      if capacity >= 1 {
        assert q[1..][|q| - 1 - Min(|q| - 1, capacity - 1)..] == q[|q| - Min(|q|, capacity - 1)..];
      }
    }
  }

  // ---------- Victims and promotion ----------

  /** The victim is the oldest window key; without one, the first least used of the sixteen oldest
      probation keys; without those, the oldest protected key. */
  lemma VictimOrder(cfg: Config, c: Cache)
    requires c.window != [] || c.probation != [] || c.protected != []
    ensures c.window != [] ==> Victim(cfg, c) == c.window[0]
    ensures c.window == [] && c.probation != [] ==>
      exists i: nat :: i < |c.probation| && Least(cfg, c, c.probation, Min(|c.probation|, 16), i)
        && Victim(cfg, c) == c.probation[i]
    ensures c.window == [] && c.probation == [] ==> Victim(cfg, c) == c.protected[0]
  {
    hide Least;
    if c.window == [] && c.probation != [] {
      var i := ArgLeast(cfg, c, c.probation, Sample(c.probation));
      assert Least(cfg, c, c.probation, Min(|c.probation|, 16), i);
      LeastInside(cfg, c, c.probation, Sample(c.probation), i);
    }
  }

  lemma LeastInside(cfg: Config, c: Cache, q: seq<Key>, n: nat, i: nat)
    requires Least(cfg, c, q, n, i)
    ensures i < |q|
  {
  }

  /** A probation hit becomes the newest protected key. If protected was full, its oldest key becomes
      the newest probation key; no other key changes its queue or its place in order. */
  lemma ProbationHit(cfg: Config, c: Cache, key: Key)
    requires Inv(cfg, c) && key in c.entries && c.entries[key].queue == Probation
    ensures var c', full := Get(cfg, c, key), |c.protected| >= cfg.protectedCapacity;
      && (full ==> c.protected != [])
      && c'.window == c.window
      && c'.protected == (if full then c.protected[1..] else c.protected) + [key]
      && c'.probation == Without(c.probation, key) + (if full then [c.protected[0]] else [])
      && c'.entries[key].queue == Protected
      && forall k :: k in c.entries && k != key && !(full && k == c.protected[0]) ==>
           k in c'.entries && c'.entries[k] == c.entries[k]
  {
    hide Holds, Remembered, Without, Accessed, SizeSum;
    if |c.protected| >= cfg.protectedCapacity {
      OldestIsProtected(c.entries, c.protected, key);
    }
  }

  /** Other hits move nothing. */
  lemma OtherHit(cfg: Config, c: Cache, key: Key)
    requires Inv(cfg, c) && (key in c.entries ==> c.entries[key].queue != Probation)
    ensures var c' := Get(cfg, c, key);
      c'.entries == c.entries && c'.window == c.window && c'.probation == c.probation && c'.protected == c.protected
  {
    hide Inv, Accessed;
  }

  /** Overwriting copies the new bytes over as many old ones as there are. */
  lemma OverwrittenBytes(was: seq<byte>, data: seq<byte>, i: nat)
    requires i < |was|
    ensures Overwritten(was, data)[i] == if i < |data| then data[i] else was[i]
  {
  }
}
