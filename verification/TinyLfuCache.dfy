/** The W-TinyLFU cache itself: three queues, an entry map and the TinyLFU filter, updated in place. */
module TinyLfuCache {
  import opened Words
  import opened CountMinSketch
  import opened TinyLfuSpec
  import opened TinyLfuRuns

  class WTinyLfuCache {
    const capacity: nat
    const windowCapacity: nat
    const probationCapacity: nat
    const protectedCapacity: nat
    const filter: TinyLfu<Key>
    var entries: map<Key, Entry>
    var window: seq<Key>
    var probation: seq<Key>
    var protected: seq<Key>
    var totalSize: nat
    var inserted: nat
    var evicted: nat
    var hits: nat
    var misses: nat

    ghost function Cfg(): Config {
      Config(capacity, protectedCapacity, filter.threshold, filter.sketch.depth, filter.sketch.hash)
    }

    ghost function View(): Cache
      reads this, filter, filter.sketch
    {
      Cache(entries, window, probation, protected, totalSize, filter.sketch.log, inserted, evicted, hits, misses)
    }

    ghost predicate Valid()
      reads this, filter, filter.sketch
    {
      filter.Valid() && Inv(Cfg(), View())
    }

    /** Shares of the capacity are computed in 32 bits and are at least one entry. Only that of the
        protected queue is used afterwards. */
    constructor (capacity: nat, windowRatio: nat, protectedRatio: nat, width: nat, depth: nat)
      requires width > 0 && depth > 0
      ensures Valid() && View() == EMPTY && this.capacity == capacity
      ensures windowCapacity >= 1 && probationCapacity >= 1 && protectedCapacity >= 1
      ensures var w, p := Share(capacity, windowRatio), Share(capacity, protectedRatio);
        1 <= w && 1 <= p && w + p < capacity < U32 ==>
          windowCapacity == w && protectedCapacity == p && w + probationCapacity + p == capacity
      ensures fresh(filter) && fresh(filter.sketch)
    {
      hide Inv, Share, Sketch.Valid;
      this.capacity := capacity;
      var inWindow, inProtected := Share(capacity, windowRatio), Share(capacity, protectedRatio);
      windowCapacity := AtLeastOne(inWindow);
      protectedCapacity := AtLeastOne(inProtected);
      probationCapacity := AtLeastOne((capacity - inWindow - inProtected) % U32);
      var sketch := NewSketch(width, depth);
      filter := new TinyLfu<Key>(capacity, sketch);
      entries, window, probation, protected := map[], [], [], [];
      totalSize, inserted, evicted, hits, misses := 0, 0, 0, 0, 0;
      new;
      EmptyInv(Cfg());
    }

    /** Evicts one entry. The scan of probation finds a victim because every estimate is below UINT32_MAX. */
    method EvictOne() returns (found: bool)
      requires Valid()
      modifies this
      ensures Valid()
      ensures found == (old(entries) != map[])
      ensures View() == if found then Evicted(Cfg(), old(View())) else old(View())
    {
      hide Inv, Evicted, Victim, Plucked, TinyLfu.Valid, Sketch.Valid;
      ghost var cfg, c := Cfg(), View();
      if entries == map[] {
        NoEntries(cfg, c);
      } else {
        EvictedExplicit(cfg, c);
      }
      var victim;
      found, victim := TakeVictim();
      if found {
        Discard(victim);
      }
    }

    /** Takes a victim out of its queue. */
    method TakeVictim() returns (found: bool, victim: Key)
      requires Valid()
      modifies this`window, this`probation, this`protected
      ensures found == (old(window) != [] || old(probation) != [] || old(protected) != [])
      ensures found ==> victim == Victim(Cfg(), old(View()))
      ensures window == if old(window) != [] then old(window)[1..] else []
      ensures probation ==
        if old(window) == [] && old(probation) != [] then Plucked(Cfg(), old(View())) else old(probation)
      ensures protected ==
        if old(window) == [] && old(probation) == [] && old(protected) != [] then old(protected)[1..] else old(protected)
    {
      hide Inv, ArgLeast, Sample, TinyLfu.Valid, Sketch.Valid;
      found, victim := false, 0;
      if window != [] {
        victim := window[0];
        window := window[1..];
        found := true;
      } else if probation != [] {
        var index;
        found, index := LeastUsed();
        if found {
          victim := probation[index];
          probation := probation[..index] + probation[index + 1..];
        }
      } else if protected != [] {
        victim := protected[0];
        protected := protected[1..];
        found := true;
      }
    }

    /** Frees an entry and counts the eviction. */
    method Discard(victim: Key)
      requires victim in entries ==> entries[victim].size <= totalSize
      modifies this`totalSize, this`entries, this`evicted
      ensures entries == old(entries) - {victim}
      ensures victim in old(entries) ==>
        totalSize == old(totalSize) - old(entries)[victim].size && evicted == old(evicted) + 1
      ensures victim !in old(entries) ==> totalSize == old(totalSize) && evicted == old(evicted)
    {
      if victim in entries {
        totalSize := totalSize - entries[victim].size;
        entries := entries - {victim};
        evicted := evicted + 1;
      } else {
        assert entries - {victim} == entries;
      }
    }

    /** The scan of the oldest probation keys, which stops early at an estimate of zero. It looks for
        an estimate below UINT32_MAX, and always finds one because the filter resets in time. */
    method LeastUsed() returns (found: bool, index: nat)
      requires Valid() && probation != []
      ensures found && index == ArgLeast(Cfg(), View(), probation, Sample(probation))
    {
      hide Inv, Estimated, Remembered, Sketch.Valid;
      ghost var cfg, c := Cfg(), View();
      var least, i := UINT32_MAX, 0;
      found, index := false, 0;
      while i < |probation| && i < SAMPLE
        invariant i <= Sample(probation)
        invariant found == (i > 0)
        invariant found ==> index == ArgLeast(cfg, c, probation, i) && least == Estimate(cfg, c, probation[index])
        invariant !found ==> least == UINT32_MAX
      {
        var estimate := filter.sketch.Estimate(probation[i]);
        BelowMax(cfg, c, probation[i]);
        if estimate < least {
          least, index, found := estimate, i, true;
          if least == 0 {
            ZeroIsLeast(cfg, c, probation, i, Sample(probation));
            return;
          }
        }
        i := i + 1;
      }
    }

    method MakeRoom()
      requires Valid()
      modifies this
      ensures Valid() && View() == Shrunk(Cfg(), old(View()))
    {
      hide Inv, Evicted;
      ghost var cfg, c := Cfg(), View();
      while |entries| >= capacity
        invariant Valid()
        invariant Shrunk(cfg, View()) == Shrunk(cfg, c)
        decreases |entries|
      {
        ghost var before := View();
        var found := EvictOne();
        if !found {
          break;
        }
        EvictedInv(cfg, before);
      }
    }

    /** `memory` says whether memory for a copy can be had. */
    method Put(key: Key, data: Option<seq<byte>>, size: nat, memory: bool) returns (ok: bool)
      requires Valid() && PutArgs(View(), key, data, size)
      modifies this, filter, filter.sketch
      ensures Valid() && ok
      ensures View() == TinyLfuSpec.Put(Cfg(), old(View()), key, data, size, memory)
    {
      hide Inv, Accessed, Overwritten, Shrunk, Sketch.Valid, TinyLfu.Valid;
      ghost var cfg, c := Cfg(), View();
      if key in entries {
        PutOverInv(cfg, c, key, data, size);
        filter.Access(key);
        var e := entries[key];
        if e.data.Some? && size > 0 {
          entries := entries[key := e.(data := Some(Overwritten(e.data.value, data.value)))];
        }
        return true;
      }
      MakeRoom();
      ghost var s := View();
      SameArgs(c, s, key, data, size);
      PutNewInv(cfg, s, key, data, size, memory);
      var e := Entry(None, size, Window);
      if size > 0 && data.Some? {
        if memory {
          e := e.(data := data);
        }
      }
      entries := entries[key := e];
      window := window + [key];
      inserted := inserted + 1;
      totalSize := totalSize + size;
      filter.Access(key);
      return true;
    }

    /** A hit reports the size and, given a large enough buffer, copies the block into it. */
    method Get(key: Key, room: Option<nat>) returns (hit: bool, size: nat, copied: Option<seq<byte>>)
      requires Valid()
      modifies this, filter, filter.sketch
      ensures Valid() && View() == TinyLfuSpec.Get(Cfg(), old(View()), key)
      ensures hit == (key in old(entries))
      ensures size == if hit then old(entries)[key].size else 0
      ensures copied ==
        if hit && room.Some? && room.value >= old(entries)[key].size then old(entries)[key].data else None
    {
      hide Inv, Accessed, Without, TinyLfu.Valid, Sketch.Valid;
      ghost var cfg, c := Cfg(), View();
      GetInv(cfg, c, key);
      if key !in entries {
        misses := misses + 1;
        return false, 0, None;
      }
      filter.Access(key);
      hits := hits + 1;
      var e := entries[key];
      hit, size, copied := true, e.size, None;
      if room.Some? && e.data.Some? && room.value >= e.size {
        copied := e.data;
      }
      if e.queue == Probation {
        GetInvTouched(cfg, c, key);
        Promote(key);
      }
    }

    /** Moves a probation key to protected, demoting the oldest protected keys while there is no room. */
    method Promote(key: Key)
      requires Valid() && key in entries && entries[key].queue == Probation
      modifies this
      ensures Valid() && View() == Promoted(Cfg(), old(View()), key)
    {
      hide Inv, Without, TinyLfu.Valid, Sketch.Valid;
      ghost var cfg, c := Cfg(), View();
      PromotedInv(cfg, c, key);
      ProtectedKeys(cfg, c, key);
      probation := Without(probation, key);
      entries := Retag(entries, key, Protected);
      ghost var p, q, es := probation, protected, entries;
      ghost var moved := false;
      while |protected| >= protectedCapacity
        modifies this`protected, this`probation, this`entries
        invariant !moved ==> probation == p && protected == q && entries == es
        invariant moved ==>
          && |q| == protectedCapacity && q[0] in es
          && protected == q[1..] && probation == p + [q[0]] && entries == Retag(es, q[0], Probation)
        decreases |protected|
      {
        var demoted := protected[0];
        protected := protected[1..];
        if demoted in entries {
          entries := Retag(entries, demoted, Probation);
          probation := probation + [demoted];
        }
        moved := true;
      }
      protected := protected + [key];
    }

    method Remove(key: Key) returns (ok: bool)
      requires Valid()
      modifies this
      ensures Valid() && ok == (key in old(entries))
      ensures View() == TinyLfuSpec.Remove(Cfg(), old(View()), key)
    {
      hide Inv, Holds, SizeSum, Remembered, NoDup, Without;
      ghost var cfg, c := Cfg(), View();
      RemoveInv(cfg, c, key);
      if key !in entries {
        return false;
      }
      SizeFits(cfg, c, key);
      QueuesApartAt(cfg, c, key);
      totalSize := totalSize - entries[key].size;
      match entries[key].queue {
        case Window => window := Without(window, key);
        case Probation => probation := Without(probation, key);
        case Protected => protected := Without(protected, key);
      }
      entries := entries - {key};
      return true;
    }

    method Clear()
      requires Valid()
      modifies this
      ensures Valid() && View() == TinyLfuSpec.Clear(old(View()))
    {
      ClearInv(Cfg(), View());
      entries, window, probation, protected, totalSize := map[], [], [], [], 0;
    }
  }

  /** A percentage of the capacity, in 32 bits. */
  function Share(capacity: nat, percent: nat): nat {
    capacity * percent % U32 / 100
  }

  /** As long as nothing wraps, a share is that many hundredths, rounded down. */
  lemma ShareOf(capacity: nat, percent: nat)
    requires capacity * percent < U32
    ensures 100 * Share(capacity, percent) <= capacity * percent < 100 * Share(capacity, percent) + 100
  {
    var product := capacity * percent;
    assert product % U32 == product;
  }

  function AtLeastOne(n: nat): nat {
    if n == 0 then 1 else n
  }

  /** Each key lies only in the queue its tag names, so the other queues do not change without it. */
  lemma QueuesApartAt(cfg: Config, c: Cache, k: Key)
    requires Inv(cfg, c) && k in c.entries
    ensures c.entries[k].queue != Window ==> Without(c.window, k) == c.window
    ensures c.entries[k].queue != Probation ==> Without(c.probation, k) == c.probation
    ensures c.entries[k].queue != Protected ==> Without(c.protected, k) == c.protected
  {
    if k !in c.window { WithoutNone(c.window, k); }
    if k !in c.probation { WithoutNone(c.probation, k); }
    if k !in c.protected { WithoutNone(c.protected, k); }
  }

  lemma NoEntries(cfg: Config, c: Cache)
    requires Inv(cfg, c) && c.entries == map[]
    ensures c.window == c.probation == c.protected == []
  {
    if c.window != [] {
      FirstIsHeld(c.entries, c.window, Window);
    }
    if c.probation != [] {
      FirstIsHeld(c.entries, c.probation, Probation);
    }
    if c.protected != [] {
      FirstIsHeld(c.entries, c.protected, Protected);
    }
  }

  lemma FirstIsHeld(entries: map<Key, Entry>, q: seq<Key>, tag: Queue)
    requires Holds(entries, q, tag) && q != []
    ensures q[0] in entries
  {
    assert q[0] in q;
  }

  /** What one eviction does, queue by queue. */
  lemma EvictedExplicit(cfg: Config, c: Cache)
    requires Inv(cfg, c) && c.entries != map[]
    ensures Inv(cfg, Evicted(cfg, c))
    ensures c.window != [] || c.probation != [] || c.protected != []
    ensures var v := Victim(cfg, c);
      && v in c.entries
      && c.entries[v].size <= c.totalSize
      && Evicted(cfg, c) == c.(
           entries := c.entries - {v},
           window := if c.window != [] then c.window[1..] else c.window,
           probation := if c.window == [] && c.probation != [] then Plucked(cfg, c) else c.probation,
           protected := if c.window == [] && c.probation == [] then c.protected[1..] else c.protected,
           totalSize := c.totalSize - c.entries[v].size,
           evicted := c.evicted + 1)
  {
    hide Inv, Victim, Without, Plucked;
    NonEmpty(cfg, c);
    EvictedInv(cfg, c);
    SizeFits(cfg, c, Victim(cfg, c));
    EvictedQueues(cfg, c);
  }

  lemma EvictedQueues(cfg: Config, c: Cache)
    requires Inv(cfg, c) && (c.window != [] || c.probation != [] || c.protected != [])
    requires Victim(cfg, c) in c.entries
    ensures var v := Victim(cfg, c);
      && Without(c.window, v) == (if c.window != [] then c.window[1..] else c.window)
      && Without(c.probation, v) == (if c.window == [] && c.probation != [] then Plucked(cfg, c) else c.probation)
      && Without(c.protected, v) == (if c.window == [] && c.probation == [] then c.protected[1..] else c.protected)
  {
    hide SizeSum, Remembered, Without, NoDup, DataFits;
    var v := Victim(cfg, c);
    QueuesApartAt(cfg, c, v);
    if c.window != [] {
      assert v in c.window;
      FirstWithout(c.window);
    } else if c.probation != [] {
      assert v in c.probation;
      PluckedIsWithout(cfg, c);
    } else {
      assert v in c.protected;
      FirstWithout(c.protected);
    }
  }

  lemma PluckedIsWithout(cfg: Config, c: Cache)
    requires Inv(cfg, c) && c.window == [] && c.probation != []
    ensures Without(c.probation, Victim(cfg, c)) == Plucked(cfg, c)
  {
    hide Without;
    WithoutAt(c.probation, ArgLeast(cfg, c, c.probation, Sample(c.probation)));
  }

  /** Probation without its least used key. */
  function Plucked(cfg: Config, c: Cache): seq<Key>
    requires c.probation != []
  {
    var i := ArgLeast(cfg, c, c.probation, Sample(c.probation));
    c.probation[..i] + c.probation[i + 1..]
  }

  lemma {:induction false} WithoutAt(q: seq<Key>, i: nat)
    requires NoDup(q) && i < |q|
    ensures Without(q, q[i]) == q[..i] + q[i + 1..]
  {
    if i > 0 {
      WithoutAt(q[1..], i - 1);
      assert q[..i] == [q[0]] + q[1..][..i - 1];
    }
  }

  lemma BelowMax(cfg: Config, c: Cache, k: Key)
    requires Inv(cfg, c)
    ensures Estimate(cfg, c, k) < UINT32_MAX
  {
    FilterEstimate(cfg.threshold, cfg.hash, cfg.depth, c.log, k);
  }

  /** Once an estimate of zero is seen first at i, no later key can be smaller. */
  lemma {:induction false} ZeroIsLeast(cfg: Config, c: Cache, q: seq<Key>, i: nat, n: nat)
    requires i < n <= |q| && Estimate(cfg, c, q[i]) == 0
    requires forall j :: 0 <= j < i ==> Estimate(cfg, c, q[j]) > 0
    ensures ArgLeast(cfg, c, q, n) == i
  {
    hide Estimate;
    var k := ArgLeast(cfg, c, q, n);
    assert Least(cfg, c, q, n, k);
  }

  lemma ProtectedKeys(cfg: Config, c: Cache, key: Key)
    requires Inv(cfg, c) && key in c.entries && c.entries[key].queue == Probation
    ensures |c.protected| <= cfg.protectedCapacity && cfg.protectedCapacity >= 1
    ensures c.protected != [] ==> c.protected[0] in c.entries && c.protected[0] != key
  {
    if c.protected != [] {
      OldestIsProtected(c.entries, c.protected, key);
    }
  }
}
