/** The count-min sketch that estimates how often a key was used, for any hash function, and the
    TinyLFU filter that resets it. */
module CountMinSketch {

  import opened Words
  import opened Rounds

  const UINT32_MAX: nat := 0xFFFF_FFFF

  /** One call of Add. */
  datatype Use<+Key> = Use(key: Key, count: nat)

  /** Everything added: by key, by cell, and in all. */
  function Total<Key>(log: seq<Use<Key>>): nat {
    if log == [] then 0 else Total(log[..|log| - 1]) + log[|log| - 1].count
  }

  function TrueCount<Key(==)>(log: seq<Use<Key>>, key: Key): nat {
    if log == [] then 0
    else TrueCount(log[..|log| - 1], key) + (if log[|log| - 1].key == key then log[|log| - 1].count else 0)
  }

  function CellCount<Key>(hash: (Key, nat) -> nat, log: seq<Use<Key>>, row: nat, cell: nat): nat {
    if log == [] then 0
    else
      CellCount(hash, log[..|log| - 1], row, cell)
      + (if hash(log[|log| - 1].key, row) == cell then log[|log| - 1].count else 0)
  }

  /** The smallest of the key's cells over the first `depth` rows, at most UINT32_MAX. */
  function Estimated<Key>(hash: (Key, nat) -> nat, depth: nat, log: seq<Use<Key>>, key: Key): nat {
    if depth == 0 then UINT32_MAX
    else
      var rest := Estimated(hash, depth - 1, log, key);
      var here := CellCount(hash, log, depth - 1, hash(key, depth - 1)) % U32;
      if here < rest then here else rest
  }

  // ---------- Bounds on the estimate ----------

  /** A key's cell counts at least the key, and at most everything. */
  lemma {:induction false} CellBounds<Key>(hash: (Key, nat) -> nat, log: seq<Use<Key>>, row: nat, key: Key)
    ensures TrueCount(log, key) <= CellCount(hash, log, row, hash(key, row)) <= Total(log)
  {
    if log != [] {
      CellBounds(hash, log[..|log| - 1], row, key);
    }
  }

  /** As long as fewer than 2^32 uses were added, the estimate lies between the true count and the total. */
  lemma {:induction false} EstimateBounds<Key>(hash: (Key, nat) -> nat, depth: nat, log: seq<Use<Key>>, key: Key)
    requires Total(log) < U32
    ensures TrueCount(log, key) <= Estimated(hash, depth, log, key)
    ensures depth >= 1 ==> Estimated(hash, depth, log, key) <= Total(log)
  {
    if depth > 0 {
      EstimateBounds(hash, depth - 1, log, key);
      CellBounds(hash, log, depth - 1, key);
    } else if log != [] {
      CellBounds(hash, log, 0, key);
    }
  }

  /** What the table stores for a key in a row. */
  function KeyCell<Key>(hash: (Key, nat) -> nat, log: seq<Use<Key>>, row: nat, key: Key): nat {
    CellCount(hash, log, row, hash(key, row)) % U32
  }

  /** The estimate is the least of the key's cells: at most each, and equal to one. */
  lemma {:induction false} EstimateIsLeast<Key>(hash: (Key, nat) -> nat, depth: nat, log: seq<Use<Key>>, key: Key)
    requires depth >= 1
    ensures forall row: nat :: row < depth ==> Estimated(hash, depth, log, key) <= KeyCell(hash, log, row, key)
    ensures exists row: nat :: row < depth && Estimated(hash, depth, log, key) == KeyCell(hash, log, row, key)
  {
    var last := KeyCell(hash, log, depth - 1, key);
    if depth > 1 {
      EstimateIsLeast(hash, depth - 1, log, key);
    }
  }

  function Sum(row: seq<nat>): nat {
    if row == [] then 0 else row[0] + Sum(row[1..])
  }

  lemma {:induction false} SumUpdate(row: seq<nat>, i: nat, v: nat)
    requires i < |row|
    ensures Sum(row[i := v]) + row[i] == Sum(row) + v
  {
    if i > 0 {
      SumUpdate(row[1..], i - 1, v);
      assert row[i := v][1..] == row[1..][i - 1 := v];
    } else {
      assert row[0 := v][1..] == row[1..];
    }
  }

  lemma {:induction false} SumZeros(row: seq<nat>)
    requires forall i :: 0 <= i < |row| ==> row[i] == 0
    ensures Sum(row) == 0
  {
    if row != [] {
      SumZeros(row[1..]);
    }
  }

  /** The counts of one row, cell by cell. */
  function Row<Key>(hash: (Key, nat) -> nat, log: seq<Use<Key>>, row: nat, width: nat): (r: seq<nat>)
    ensures |r| == width
  {
    seq(width, (i: nat) => CellCount(hash, log, row, i))
  }

  /** Every row adds up to everything that was added. */
  lemma {:induction false} RowSum<Key>(hash: (Key, nat) -> nat, log: seq<Use<Key>>, row: nat, width: nat)
    requires forall u :: u in log ==> hash(u.key, row) < width
    ensures Sum(Row(hash, log, row, width)) == Total(log)
  {
    if log == [] {
      SumZeros(Row(hash, log, row, width));
    } else {
      var before, use := log[..|log| - 1], log[|log| - 1];
      RowSum(hash, before, row, width);
      var r, i := Row(hash, before, row, width), hash(use.key, row);
      SumUpdate(r, i, r[i] + use.count);
      assert Row(hash, log, row, width) == r[i := r[i] + use.count];
    }
  }

  /** The same counts as the table stores them, in 32 bits. */
  function Cells<Key>(hash: (Key, nat) -> nat, log: seq<Use<Key>>, row: nat, width: nat): (r: seq<nat>)
    ensures |r| == width
  {
    seq(width, (i: nat) => CellCount(hash, log, row, i) % U32)
  }

  lemma CellsAdd<Key>(hash: (Key, nat) -> nat, log: seq<Use<Key>>, use: Use<Key>, row: nat, width: nat)
    requires hash(use.key, row) < width
    ensures var cells, i := Cells(hash, log, row, width), hash(use.key, row);
      Cells(hash, log + [use], row, width) == cells[i := (cells[i] + use.count) % U32]
  {
    assert (log + [use])[..|log|] == log;
  }

  lemma {:induction false} CellAtMostTotal<Key>(hash: (Key, nat) -> nat, log: seq<Use<Key>>, row: nat, cell: nat)
    ensures CellCount(hash, log, row, cell) <= Total(log)
  {
    if log != [] {
      CellAtMostTotal(hash, log[..|log| - 1], row, cell);
    }
  }

  /** Below 2^32 uses nothing wraps: every row of the table adds up to everything that was added. */
  lemma CellsSum<Key>(hash: (Key, nat) -> nat, log: seq<Use<Key>>, row: nat, width: nat)
    requires Total(log) < U32
    requires forall u :: u in log ==> hash(u.key, row) < width
    ensures Sum(Cells(hash, log, row, width)) == Total(log)
  {
    RowSum(hash, log, row, width);
    forall i: nat | i < width
      ensures Cells(hash, log, row, width)[i] == Row(hash, log, row, width)[i]
    {
      CellAtMostTotal(hash, log, row, i);
    }
    assert Cells(hash, log, row, width) == Row(hash, log, row, width);
  }

  // ---------- The sketch ----------

  class Sketch<Key(==, !new)> {
    const width: nat
    const depth: nat
    const hash: (Key, nat) -> nat
    var table: seq<seq<nat>>
    ghost var log: seq<Use<Key>>  // since the last reset

    ghost predicate Valid()
      reads this
    {
      && (forall key: Key, row: nat :: row < depth ==> hash(key, row) < width)
      && |table| == depth
      && forall row: nat :: row < depth ==> table[row] == Cells(hash, log, row, width)
    }

    constructor (width: nat, depth: nat, hash: (Key, nat) -> nat)
      requires forall key: Key, row: nat :: row < depth ==> hash(key, row) < width
      ensures Valid() && log == []
      ensures this.width == width && this.depth == depth && this.hash == hash
    {
      this.width, this.depth, this.hash := width, depth, hash;
      table := seq(depth, _ => seq(width, _ => 0));
      log := [];
    }

    method Add(key: Key, count: nat)
      requires Valid()
      modifies this
      ensures Valid() && log == old(log) + [Use(key, count)]
    {
      ghost var was, use := log, Use(key, count);
      for row := 0 to depth
        invariant |table| == depth && log == was
        invariant forall r: nat :: r < row ==> table[r] == Cells(hash, was + [use], r, width)
        invariant forall r: nat :: row <= r < depth ==> table[r] == Cells(hash, was, r, width)
      {
        CellsAdd(hash, was, use, row, width);
        var i := hash(key, row);
        var sum: nat := (table[row][i] + count) % U32;
        var updated: seq<nat> := table[row][i := sum];
        table := table[row := updated];
      }
      log := log + [use];
    }

    method Estimate(key: Key) returns (min: nat)
      requires Valid()
      ensures min == Estimated(hash, depth, log, key)
    {
      min := UINT32_MAX;
      for row := 0 to depth
        invariant min == Estimated(hash, row, log, key)
      {
        var cell := table[row][hash(key, row)];
        min := if cell < min then cell else min;
      }
    }

    method Reset()
      modifies this
      requires Valid()
      ensures Valid() && log == []
    {
      log := [];
      table := seq(depth, _ => seq(width, _ => 0));
    }
  }

  // ---------- The hash of the repository ----------

  /** Row i is seeded with 2654435761 * (i + 1), in 32 bits. */
  function Seed(row: nat): bv32 {
    if row == 0 then 2654435761 else Seed(row - 1) + 2654435761
  }

  function Folded(h: bv64): bv64 {
    (h >> 16) ^ h
  }

  function Mixed(h: bv64): bv64 {
    Folded(h) * 0x45D9F3B
  }

  function Start(key: bv64, seed: bv32): bv64 {
    key ^ (seed as bv64)
  }

  /** All 64 bits of the hash, before it is reduced to the width. */
  function Scrambled(key: bv64, seed: bv32): bv64 {
    Folded(Mixed(Mixed(Start(key, seed))))
  }

  function Hash(key: bv64, seed: bv32, width: nat): (cell: nat)
    requires width > 0
    ensures cell < width
  {
    hide Scrambled;
    (Scrambled(key, seed) as nat) % width
  }

  lemma MixedValues()
    ensures Start(0, 0x9E37_79B1) == 0x9E37_79B1
    ensures Mixed(0x9E37_79B1) == 0x02B2_BC56_635C_95E2
    ensures Mixed(0x02B2_BC56_635C_95E2) == 0x9063_581D_D1CC_DFCA
    ensures Folded(0x9063_581D_D1CC_DFCA) == 0x9063_C87E_89D1_0E06
  {
  }

  /** The seeds of the first rows and a value of the hash, which fix its constants and steps. */
  lemma HashValues()
    ensures Seed(0) == 0x9E37_79B1 && Seed(1) == 0x3C6E_F362
    ensures Scrambled(0, 0x9E37_79B1) == 0x9063_C87E_89D1_0E06
  {
    hide Start, Mixed, Folded;
    MixedValues();
  }

  /** The hash of a 64-bit key in a row. */
  function RowHash(key: nat, row: nat, width: nat): (cell: nat)
    requires width > 0
    ensures cell < width
  {
    Hash((key % U64) as bv64, Seed(row), width)
  }

  /** The sketch as the repository builds it. */
  method NewSketch(width: nat, depth: nat) returns (sketch: Sketch<nat>)
    requires width > 0
    ensures fresh(sketch) && sketch.Valid() && sketch.log == []
    ensures sketch.width == width && sketch.depth == depth
  {
    hide RowHash;
    sketch := new Sketch<nat>(width, depth, (key: nat, row: nat) => RowHash(key, row, width));
  }

  // ---------- The filter that forgets ----------

  /** The uses remembered after one more access. */
  function Accessed<Key>(threshold: nat, log: seq<Use<Key>>, key: Key): seq<Use<Key>> {
    if |log| + 1 >= threshold then [] else log + [Use(key, 1)]
  }

  /** What holds between accesses: single uses only, and fewer than the threshold. */
  ghost predicate Remembered<Key>(threshold: nat, log: seq<Use<Key>>) {
    && threshold < U32
    && (log == [] || |log| < threshold)
    && forall u :: u in log ==> u.count == 1
  }

  lemma RememberedAccess<Key>(threshold: nat, log: seq<Use<Key>>, key: Key)
    requires Remembered(threshold, log)
    ensures Remembered(threshold, Accessed(threshold, log, key))
  {
  }

  /** What a run of accesses leaves remembered. */
  function Remembering<Key>(threshold: nat, keys: seq<Key>): seq<Use<Key>> {
    if keys == [] then [] else Accessed(threshold, Remembering(threshold, keys[..|keys| - 1]), keys[|keys| - 1])
  }

  function Singles<Key>(keys: seq<Key>): (log: seq<Use<Key>>)
    ensures |log| == |keys|
  {
    seq(|keys|, i requires 0 <= i < |keys| => Use(keys[i], 1))
  }

  /** How many of n accesses came after the last reset. */
  function SinceReset(threshold: nat, n: nat): (r: nat)
    requires threshold >= 1
    ensures r <= n
  {
    n % threshold
  }

  lemma SinceResetNext(threshold: nat, n: nat)
    requires threshold >= 1
    ensures SinceReset(threshold, 0) == 0
    ensures var r := SinceReset(threshold, n);
      r < threshold && SinceReset(threshold, n + 1) == if r + 1 < threshold then r + 1 else 0
  {
    Small(0, threshold);
    NextRound(n, threshold);
  }

  lemma {:induction false} RememberingSince<Key>(threshold: nat, keys: seq<Key>)
    requires threshold >= 1
    ensures Remembering(threshold, keys) == Singles(keys[|keys| - SinceReset(threshold, |keys|)..])
  {
    hide Accessed, Singles, SinceReset;
    if keys == [] {
      NoSingles(keys[0..]);
      SinceResetNext(threshold, 0);
    } else {
      var n := |keys| - 1;
      RememberingSince(threshold, keys[..n]);
      SinceResetNext(threshold, n);
      OneMore(threshold, keys, n - SinceReset(threshold, n));
      NoSingles(keys[|keys|..]);
    }
  }

  /** Remembered are the accesses since the last multiple of the threshold, each once and in order. */
  lemma RememberingIsSuffix<Key>(threshold: nat, keys: seq<Key>)
    requires threshold >= 1
    ensures Remembering(threshold, keys) == Singles(keys[|keys| - |keys| % threshold..])
  {
    hide Remembering, Singles;
    RememberingSince(threshold, keys);
  }

  lemma NoSingles<Key>(keys: seq<Key>)
    requires keys == []
    ensures Singles(keys) == []
  {
  }

  lemma OneMore<Key>(threshold: nat, keys: seq<Key>, since: nat)
    requires since < |keys|
    ensures var n := |keys| - 1;
      Accessed(threshold, Singles(keys[..n][since..]), keys[n])
        == if |keys| - since >= threshold then [] else Singles(keys[since..])
  {
    var n := |keys| - 1;
    assert keys[since..] == keys[..n][since..] + [keys[n]];
  }

  lemma {:induction false} TotalOfSingles<Key>(log: seq<Use<Key>>)
    requires forall u :: u in log ==> u.count == 1
    ensures Total(log) == |log|
  {
    if log != [] {
      TotalOfSingles(log[..|log| - 1]);
    }
  }

  /** The filter keeps every estimate below UINT32_MAX, and never below the true count. */
  lemma FilterEstimate<Key>(threshold: nat, hash: (Key, nat) -> nat, depth: nat, log: seq<Use<Key>>, key: Key)
    requires Remembered(threshold, log) && depth >= 1
    ensures TrueCount(log, key) <= Estimated(hash, depth, log, key) <= |log| < UINT32_MAX
  {
    TotalOfSingles(log);
    EstimateBounds(hash, depth, log, key);
  }

  class TinyLfu<Key(==, !new)> {
    const sketch: Sketch<Key>
    const threshold: nat
    var totalAccess: nat

    ghost predicate Valid()
      reads this, sketch
    {
      && sketch.Valid()
      && Remembered(threshold, sketch.log)
      && totalAccess == |sketch.log|
    }

    /** The threshold is ten times the capacity, computed in 32 bits. */
    constructor (capacity: nat, sketch: Sketch<Key>)
      requires sketch.Valid() && sketch.log == []
      ensures Valid() && this.sketch == sketch && threshold == capacity * 10 % U32
    {
      this.sketch := sketch;
      threshold := capacity * 10 % U32;
      totalAccess := 0;
    }

    method Access(key: Key)
      requires Valid()
      modifies this, sketch
      ensures Valid() && sketch.log == Accessed(threshold, old(sketch.log), key)
    {
      sketch.Add(key, 1);
      totalAccess := totalAccess + 1;
      if totalAccess >= threshold {
        sketch.Reset();
        totalAccess := 0;
      }
    }
  }

  /** Every row of the stored table adds up to the accesses since the reset. */
  lemma TableRowSum<Key(!new)>(f: TinyLfu<Key>, row: nat)
    requires f.Valid() && row < f.sketch.depth
    ensures Sum(f.sketch.table[row]) == f.totalAccess
  {
    hide Cells, CellCount;
    TotalOfSingles(f.sketch.log);
    CellsSum(f.sketch.hash, f.sketch.log, row, f.sketch.width);
  }
}
