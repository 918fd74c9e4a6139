/** The boot replay recorder: a byte ring of 33-byte entries, the file it is flushed to, and the
    analyzer that reads the file back. */
module ReplayRing {
  import opened Words
  import opened Crc32c
  import opened Rounds

  const ENTRY: nat := 33
  const HEADER: nat := 16

  /** Positions are computed in 32 bits; up to here their sums do not wrap. */
  const MAX_CAPACITY: nat := 0x8000_0000

  const MAGIC: bv32 := 0x4844_5852
  const FOOTER_MAGIC: bv32 := 0x4844_5846
  const VERSION: bv16 := 1

  datatype ReplayEntry = ReplayEntry(
    lba: bv64, offset: bv64, size: bv32, latency: bv32, status: bv32, timestamp: bv32, reserved: byte)

  // ---------- One entry ----------

  function PlaceBytes(e: ReplayEntry): (s: seq<byte>)
    ensures |s| == 16
  {
    Bytes64(e.lba) + Bytes64(e.offset)
  }

  function ResultBytes(e: ReplayEntry): (s: seq<byte>)
    ensures |s| == 17
  {
    Bytes32(e.size) + Bytes32(e.latency) + Bytes32(e.status) + Bytes32(e.timestamp) + [e.reserved]
  }

  function EntryBytes(e: ReplayEntry): (s: seq<byte>)
    ensures |s| == ENTRY
  {
    PlaceBytes(e) + ResultBytes(e)
  }

  function EntryOf(s: seq<byte>): ReplayEntry
    requires |s| == ENTRY
  {
    var p, r := s[..16], s[16..];
    ReplayEntry(Word64(p[..8]), Word64(p[8..]), Word32(r[..4]), Word32(r[4..8]), Word32(r[8..12]),
                Word32(r[12..16]), r[16])
  }

  lemma Split<T>(a: seq<T>, b: seq<T>)
    ensures (a + b)[..|a|] == a && (a + b)[|a|..] == b
  {
  }

  lemma PlaceRoundTrip(e: ReplayEntry)
    ensures var p := PlaceBytes(e); Word64(p[..8]) == e.lba && Word64(p[8..]) == e.offset
  {
    hide Bytes64, Word64;
    Split(Bytes64(e.lba), Bytes64(e.offset));
    WordOfBytes64(e.lba);
    WordOfBytes64(e.offset);
  }

  lemma ResultRoundTrip(e: ReplayEntry)
    ensures var r := ResultBytes(e);
      && Word32(r[..4]) == e.size && Word32(r[4..8]) == e.latency && Word32(r[8..12]) == e.status
      && Word32(r[12..16]) == e.timestamp && r[16] == e.reserved
  {
    hide Bytes32, Word32;
    var r := ResultBytes(e);
    assert r[..4] == Bytes32(e.size) && r[4..8] == Bytes32(e.latency) && r[8..12] == Bytes32(e.status);
    assert r[12..16] == Bytes32(e.timestamp);
    WordOfBytes32(e.size);
    WordOfBytes32(e.latency);
    WordOfBytes32(e.status);
    WordOfBytes32(e.timestamp);
  }

  lemma EntryRoundTrip(e: ReplayEntry)
    ensures EntryOf(EntryBytes(e)) == e
  {
    hide PlaceBytes, ResultBytes, Word32, Word64;
    Split(PlaceBytes(e), ResultBytes(e));
    PlaceRoundTrip(e);
    ResultRoundTrip(e);
  }

  /** The 33 bytes of an entry, field by field. */
  lemma EntryLayout(e: ReplayEntry)
    ensures var s := EntryBytes(e);
      && s[..8] == Bytes64(e.lba) && s[8..16] == Bytes64(e.offset) && s[16..20] == Bytes32(e.size)
      && s[20..24] == Bytes32(e.latency) && s[24..28] == Bytes32(e.status)
      && s[28..32] == Bytes32(e.timestamp) && s[32] == e.reserved
  {
    hide Bytes32, Bytes64;
    var s, r := EntryBytes(e), ResultBytes(e);
    assert s[16..] == r;
    assert r[..4] == Bytes32(e.size) && r[4..8] == Bytes32(e.latency) && r[8..12] == Bytes32(e.status);
    assert s[16..20] == r[..4] && s[20..24] == r[4..8] && s[24..28] == r[8..12] && s[28..32] == r[12..16];
  }

  // ---------- The ring ----------

  /** How many entries fit, and which of a history are still there. */
  function Slots(capacity: nat): nat {
    capacity / ENTRY
  }

  function Kept(slots: nat, n: nat): nat {
    if n < slots then n else slots
  }

  function Latest(slots: nat, history: seq<ReplayEntry>): (s: seq<ReplayEntry>)
    ensures |s| == Kept(slots, |history|)
  {
    history[|history| - Kept(slots, |history|)..]
  }

  /** The bytes of slot k. */
  function SlotBytes(buffer: seq<byte>, k: nat): (s: seq<byte>)
    requires ENTRY * k + ENTRY <= |buffer|
    ensures |s| == ENTRY
  {
    buffer[ENTRY * k..ENTRY * k + ENTRY]
  }

  /** Write i goes to slot i modulo the number of slots and stays there for one round. */
  ghost predicate Holds(buffer: seq<byte>, slots: nat, history: seq<ReplayEntry>) {
    && slots >= 1 && ENTRY * slots <= |buffer|
    && forall i :: |history| - Kept(slots, |history|) <= i < |history| ==>
         HoldsAt(buffer, i % slots, history[i])
  }

  ghost predicate HoldsAt(buffer: seq<byte>, k: nat, e: ReplayEntry) {
    ENTRY * k + ENTRY <= |buffer| && SlotBytes(buffer, k) == EntryBytes(e)
  }

  /** Where the head stands after n writes. */
  function HeadAfter(capacity: nat, n: nat): nat
    requires capacity >= ENTRY
  {
    if n == 0 then 0 else (ENTRY * ((n - 1) % Slots(capacity) + 1)) % capacity
  }

  /** The next write goes to the next slot, on any capacity. */
  lemma WritePosition(capacity: nat, n: nat)
    requires capacity >= ENTRY
    ensures var head := HeadAfter(capacity, n);
      (if head + ENTRY > capacity then 0 else head) == ENTRY * (n % Slots(capacity))
    ensures HeadAfter(capacity, n + 1) == (ENTRY * (n % Slots(capacity)) + ENTRY) % capacity
  {
    var slots := Slots(capacity);
    if n == 0 {
      Small(0, slots);
    } else {
      var s := (n - 1) % slots;
      NextRound(n - 1, slots);
      if s + 1 < slots {
        Small(ENTRY * (s + 1), capacity);
      } else if ENTRY * slots < capacity {
        Small(ENTRY * slots, capacity);
      } else {
        DivMod(capacity, 1, 0, capacity);
      }
    }
  }

  /** One more write into its slot. */
  lemma HoldsNext(buffer: seq<byte>, buffer': seq<byte>, slots: nat, history: seq<ReplayEntry>, e: ReplayEntry)
    requires Holds(buffer, slots, history) && |buffer'| == |buffer|
    requires HoldsAt(buffer', |history| % slots, e)
    requires forall k :: 0 <= k < slots && k != |history| % slots ==> SlotBytes(buffer', k) == SlotBytes(buffer, k)
    ensures Holds(buffer', slots, history + [e])
  {
    hide EntryBytes, SlotBytes;
    var n := |history|;
    forall i | n + 1 - Kept(slots, n + 1) <= i < n
      ensures HoldsAt(buffer', i % slots, history[i])
    {
      DifferentPlaces(i, n, slots);
      assert HoldsAt(buffer, i % slots, history[i]);
    }
  }

  class ReplayRingBuffer {
    const capacity: nat
    const buffer: array<byte>
    var writeCount: nat
    var overwriteCount: nat
    var head: nat
    var active: bool
    ghost var history: seq<ReplayEntry>

    ghost predicate Valid()
      reads this, buffer
    {
      && ENTRY <= capacity == buffer.Length && capacity <= MAX_CAPACITY
      && writeCount == |history|
      && overwriteCount == writeCount - Kept(Slots(capacity), writeCount)
      && head == HeadAfter(capacity, writeCount)
      && Holds(buffer[..], Slots(capacity), history)
    }

    /** A zeroed buffer; recording starts separately. */
    constructor (capacity: nat)
      requires ENTRY <= capacity <= MAX_CAPACITY
      ensures Valid() && history == [] && !active && this.capacity == capacity && fresh(buffer)
    {
      this.capacity := capacity;
      buffer := new byte[capacity](_ => 0);
      writeCount, overwriteCount, head, active := 0, 0, 0, false;
      history := [];
    }

    method StartRecording()
      requires Valid()
      modifies this`active
      ensures Valid() && active
    {
      active := true;
    }

    method CopyIn(pos: nat, s: seq<byte>)
      requires pos + |s| <= buffer.Length
      modifies buffer
      ensures buffer[pos..pos + |s|] == s
      ensures forall k :: 0 <= k < buffer.Length && !(pos <= k < pos + |s|) ==> buffer[k] == old(buffer[k])
    {
      for i := 0 to |s|
        invariant forall k :: 0 <= k < i ==> buffer[pos + k] == s[k]
        invariant forall k :: 0 <= k < buffer.Length && !(pos <= k < pos + i) ==> buffer[k] == old(buffer[k])
      {
        buffer[pos + i] := s[i];
      }
    }

    method Write(e: ReplayEntry)
      requires Valid()
      modifies this, buffer
      ensures Valid() && active == old(active)
      ensures history == if active then old(history) + [e] else old(history)
    {
      hide EntryBytes, Holds, HeadAfter;
      if !active {
        return;
      }
      ghost var slots, n, was := Slots(capacity), |history|, buffer[..];
      WritePosition(capacity, n);
      Place(capacity, n);
      var pos := head;
      if pos + ENTRY > capacity {
        pos := 0;
      }
      CopyIn(pos, EntryBytes(e));
      OnlyOneSlot(was, buffer[..], n % slots, EntryBytes(e), slots);
      HoldsNext(was, buffer[..], slots, history, e);
      head := (pos + ENTRY) % capacity;
      writeCount := writeCount + 1;
      history := history + [e];
      if writeCount > capacity / ENTRY {
        overwriteCount := writeCount - capacity / ENTRY;
      }
    }

    /** The i-th entry kept, read from the head on if anything was overwritten. */
    method ReadEntry(i: nat) returns (e: ReplayEntry)
      requires Valid()
      requires capacity % ENTRY == 0 || writeCount <= Slots(capacity)
      requires i < Kept(Slots(capacity), writeCount)
      ensures e == Latest(Slots(capacity), history)[i]
    {
      hide EntryBytes, EntryOf, HeadAfter, Holds, Latest;
      var start := if overwriteCount > 0 then head else 0;
      var pos := (start + i * ENTRY) % capacity;
      assert pos == ReadAt(capacity, writeCount, i);
      ReadsEntry(buffer[..], history, i);
      assert buffer[pos..pos + ENTRY] == buffer[..][pos..pos + ENTRY];
      e := EntryOf(buffer[pos..pos + ENTRY]);
    }

    /** Oldest first. After an overwrite this reads whole entries only if entries fill the ring exactly. */
    method GetAllEntries() returns (entries: seq<ReplayEntry>)
      requires Valid()
      requires capacity % ENTRY == 0 || writeCount <= Slots(capacity)
      ensures entries == Latest(Slots(capacity), history)
      ensures |entries| == Min(|history|, capacity / 33)
    {
      hide HeadAfter, Holds, Latest;
      var max := capacity / ENTRY;
      var count := if writeCount < max then writeCount else max;
      entries := [];
      for i := 0 to count
        invariant entries == Latest(max, history)[..i]
      {
        var e := ReadEntry(i);
        entries := entries + [e];
      }
    }

    /** The file written, or nothing when there is nothing to write or the file does not open. */
    method FlushToFile(opens: bool) returns (ok: bool, file: seq<byte>)
      requires Valid()
      requires capacity % ENTRY == 0 || writeCount <= Slots(capacity)
      modifies this`active
      ensures Valid() && !active
      ensures ok == (history != [] && opens)
      ensures file == if ok then FileBytes(Latest(Slots(capacity), history)) else []
    {
      hide FileBytes, Holds, HeadAfter;
      active := false;
      var entries := GetAllEntries();
      if entries == [] {
        return false, [];
      }
      file := WriteEntries(entries);
      if !opens {
        return false, [];
      }
      return true, file;
    }
  }

  lemma Place(capacity: nat, n: nat)
    requires capacity >= ENTRY
    ensures Slots(capacity) >= 1 && n % Slots(capacity) < Slots(capacity)
    ensures ENTRY * (n % Slots(capacity)) + ENTRY <= ENTRY * Slots(capacity) <= capacity
  {
  }

  lemma OnlyOneSlot(was: seq<byte>, now: seq<byte>, k: nat, s: seq<byte>, slots: nat)
    requires |was| == |now| && ENTRY * slots <= |was| && k < slots && |s| == ENTRY
    requires now[ENTRY * k..ENTRY * k + ENTRY] == s
    requires forall i :: 0 <= i < |was| && !(ENTRY * k <= i < ENTRY * k + ENTRY) ==> now[i] == was[i]
    ensures SlotBytes(now, k) == s
    ensures forall j :: 0 <= j < slots && j != k ==> SlotBytes(now, j) == SlotBytes(was, j)
  {
  }

  lemma SlotSlice(buffer: seq<byte>, k: nat, pos: nat)
    requires pos == ENTRY * k && pos + ENTRY <= |buffer|
    ensures buffer[pos..pos + ENTRY] == SlotBytes(buffer, k)
  {
  }

  lemma SlotIsEntry(buffer: seq<byte>, k: nat, e: ReplayEntry)
    requires HoldsAt(buffer, k, e)
    ensures EntryOf(SlotBytes(buffer, k)) == e
  {
    hide EntryBytes, EntryOf, SlotBytes;
    EntryRoundTrip(e);
  }

  /** Where the i-th entry is read: from the head on if anything was overwritten. */
  function ReadAt(capacity: nat, n: nat, i: nat): nat
    requires capacity >= ENTRY
  {
    ((if n > Slots(capacity) then HeadAfter(capacity, n) else 0) + i * ENTRY) % capacity
  }

  /** The i-th entry read lies in the slot of the i-th entry kept. */
  lemma ReadPosition(capacity: nat, n: nat, i: nat)
    requires capacity >= ENTRY && i < Kept(Slots(capacity), n)
    requires capacity % ENTRY == 0 || n <= Slots(capacity)
    ensures var slots := Slots(capacity);
      && ReadAt(capacity, n, i) == ENTRY * ((n - Kept(slots, n) + i) % slots)
      && ReadAt(capacity, n, i) + ENTRY <= capacity
  {
    var slots := Slots(capacity);
    Place(capacity, n - Kept(slots, n) + i);
    if n <= slots {
      Small(i, slots);
      Small(i * ENTRY, capacity);
    } else {
      assert capacity == ENTRY * slots;
      HeadIsPlace(capacity, n);
      PlaceSum(n, i, slots);
      SamePlace(n - slots + i, slots);
      PlaceScale(n % slots + i, ENTRY, slots);
    }
  }

  /** What is read there is the i-th entry kept. */
  lemma ReadsEntry(buffer: seq<byte>, history: seq<ReplayEntry>, i: nat)
    requires |buffer| >= ENTRY && Holds(buffer, Slots(|buffer|), history)
    requires i < Kept(Slots(|buffer|), |history|)
    requires |buffer| % ENTRY == 0 || |history| <= Slots(|buffer|)
    ensures var pos := ReadAt(|buffer|, |history|, i);
      pos + ENTRY <= |buffer| && EntryOf(buffer[pos..pos + ENTRY]) == Latest(Slots(|buffer|), history)[i]
  {
    hide EntryBytes, EntryOf, HeadAfter, SlotBytes, ReadAt;
    var slots, n := Slots(|buffer|), |history|;
    var j := n - Kept(slots, n) + i;
    ReadPosition(|buffer|, n, i);
    assert HoldsAt(buffer, j % slots, history[j]);
    SlotIsEntry(buffer, j % slots, history[j]);
    SlotSlice(buffer, j % slots, ReadAt(|buffer|, n, i));
  }

  /** The reader finds a whole entry at every position exactly when the entries fill the ring or
      nothing was overwritten: otherwise it reaches the unused bytes behind the last slot. */
  lemma ReadsWholeEntries(capacity: nat, n: nat)
    requires capacity >= ENTRY
    ensures (forall i: nat :: i < Kept(Slots(capacity), n) ==> ReadAt(capacity, n, i) + ENTRY <= capacity)
      <==> (capacity % ENTRY == 0 || n <= Slots(capacity))
  {
    hide HeadAfter;
    var slots := Slots(capacity);
    if capacity % ENTRY == 0 || n <= slots {
      forall i: nat | i < Kept(slots, n)
        ensures ReadAt(capacity, n, i) + ENTRY <= capacity
      {
        ReadPosition(capacity, n, i);
      }
    } else {
      var i := slots - ((n - 1) % slots + 1);
      HeadBeforeSlack(capacity, n);
      Small(ENTRY * slots, capacity);
      assert ReadAt(capacity, n, i) == ENTRY * slots;
    }
  }

  lemma HeadBeforeSlack(capacity: nat, n: nat)
    requires capacity >= ENTRY && capacity % ENTRY != 0 && n > 0
    ensures HeadAfter(capacity, n) == ENTRY * ((n - 1) % Slots(capacity) + 1)
    ensures (n - 1) % Slots(capacity) < Slots(capacity) && ENTRY * Slots(capacity) < capacity
  {
    Small(ENTRY * ((n - 1) % Slots(capacity) + 1), capacity);
  }

  lemma HeadIsPlace(capacity: nat, n: nat)
    requires capacity >= ENTRY && capacity == ENTRY * Slots(capacity)
    ensures HeadAfter(capacity, n) == ENTRY * (n % Slots(capacity))
  {
    WritePosition(capacity, n);
    var slots := Slots(capacity);
    if n > 0 {
      PlaceScale((n - 1) % slots + 1, ENTRY, slots);
      PlaceSum(n - 1, 1, slots);
    } else {
      Small(0, slots);
    }
  }

  // ---------- The file ----------

  function AllBytes(entries: seq<ReplayEntry>): (s: seq<byte>)
    ensures |s| == ENTRY * |entries|
  {
    if entries == [] then [] else EntryBytes(entries[0]) + AllBytes(entries[1..])
  }

  lemma NoBytes()
    ensures AllBytes([]) == []
  {
  }

  lemma {:induction false} AllBytesSnoc(entries: seq<ReplayEntry>, e: ReplayEntry)
    ensures AllBytes(entries + [e]) == AllBytes(entries) + EntryBytes(e)
  {
    hide EntryBytes;
    if entries == [] {
      assert [e][1..] == [];
    } else {
      assert (entries + [e])[1..] == entries[1..] + [e];
      AllBytesSnoc(entries[1..], e);
    }
  }

  /** Magic, version, count, two zero bytes and a checksum over these. */
  function HeaderBytes(count: nat): (s: seq<byte>)
    ensures |s| == HEADER
  {
    var fields := Bytes32(MAGIC) + Bytes16(VERSION) + CountBytes(count) + [0, 0];
    fields + Bytes32(Crc(fields))
  }

  function FileBytes(entries: seq<ReplayEntry>): seq<byte> {
    var body := HeaderBytes(|entries|) + AllBytes(entries);
    body + (Bytes32(Crc(body)) + Bytes32(FOOTER_MAGIC))
  }

  /** Header, every entry in turn, and a footer with the checksum of all before it. */
  method WriteEntries(entries: seq<ReplayEntry>) returns (file: seq<byte>)
    ensures file == FileBytes(entries)
  {
    hide EntryBytes, HeaderBytes, Crc, Bytes32, AllBytes;
    file := HeaderBytes(|entries|);
    NoBytes();
    for i := 0 to |entries|
      invariant file == HeaderBytes(|entries|) + AllBytes(entries[..i])
    {
      AllBytesSnoc(entries[..i], entries[i]);
      assert entries[..i + 1] == entries[..i] + [entries[i]];
      file := file + EntryBytes(entries[i]);
    }
    assert entries[..|entries|] == entries;
    file := file + (Bytes32(Crc(file)) + Bytes32(FOOTER_MAGIC));
  }

  /** Up to n whole entries at the front of some bytes. */
  function Entries(data: seq<byte>, n: nat): seq<ReplayEntry> {
    if n == 0 || |data| < ENTRY then [] else [EntryOf(data[..ENTRY])] + Entries(data[ENTRY..], n - 1)
  }

  function ReadBack(file: seq<byte>): seq<ReplayEntry> {
    if |file| < HEADER || Word32(file[..4]) != MAGIC || Word16(file[4..6]) != VERSION then []
    else Entries(file[HEADER..], CountOf(file[6..10]))
  }

  method ReadEntries(file: seq<byte>) returns (entries: seq<ReplayEntry>)
    ensures entries == ReadBack(file)
  {
    hide Word16, Word32, CountOf, EntryOf;
    entries := [];
    if |file| < HEADER {
      return;
    }
    if Word32(file[..4]) != MAGIC || Word16(file[4..6]) != VERSION {
      return;
    }
    var count := CountOf(file[6..10]);
    var at := HEADER;
    for i := 0 to count
      invariant HEADER <= at <= |file|
      invariant entries + Entries(file[at..], count - i) == ReadBack(file)
    {
      if at + ENTRY > |file| {
        return;
      }
      assert file[at..][..ENTRY] == file[at..at + ENTRY] && file[at..][ENTRY..] == file[at + ENTRY..];
      entries := entries + [EntryOf(file[at..at + ENTRY])];
      at := at + ENTRY;
    }
  }

  lemma Unfold(entries: seq<ReplayEntry>)
    requires entries != []
    ensures AllBytes(entries) == EntryBytes(entries[0]) + AllBytes(entries[1..])
  {
    hide EntryBytes;
  }

  lemma Regroup<T>(a: seq<T>, b: seq<T>, c: seq<T>)
    ensures (a + b) + c == a + (b + c)
  {
  }

  lemma FirstEntry(entries: seq<ReplayEntry>, rest: seq<byte>)
    requires entries != []
    ensures var data := AllBytes(entries) + rest;
      data[..ENTRY] == EntryBytes(entries[0]) && data[ENTRY..] == AllBytes(entries[1..]) + rest
  {
    hide EntryBytes, AllBytes;
    var first, tail := EntryBytes(entries[0]), AllBytes(entries[1..]);
    Unfold(entries);
    Regroup(first, tail, rest);
    Split(first, tail + rest);
  }

  lemma EntriesStep(data: seq<byte>, n: nat, e: ReplayEntry)
    requires n >= 1 && |data| >= ENTRY && data[..ENTRY] == EntryBytes(e)
    ensures Entries(data, n) == [e] + Entries(data[ENTRY..], n - 1)
  {
    hide EntryBytes, EntryOf;
    EntryRoundTrip(e);
  }

  /** Whole entries are read back, whatever follows them. */
  lemma {:induction false} EntriesOfAll(entries: seq<ReplayEntry>, rest: seq<byte>)
    ensures Entries(AllBytes(entries) + rest, |entries|) == entries
  {
    hide EntryBytes, EntryOf;
    if entries != [] {
      FirstEntry(entries, rest);
      EntriesStep(AllBytes(entries) + rest, |entries|, entries[0]);
      EntriesOfAll(entries[1..], rest);
      assert entries == [entries[0]] + entries[1..];
    }
  }

  /** A cut leaves the entries that lie whole before it. */
  lemma {:induction false} EntriesOfCut(entries: seq<ReplayEntry>, k: nat)
    requires k <= ENTRY * |entries|
    ensures Entries(AllBytes(entries)[..k], |entries|) == entries[..k / ENTRY]
  {
    hide EntryBytes, EntryOf, AllBytes;
    if k >= ENTRY {
      var data := AllBytes(entries)[..k];
      FirstEntry(entries, []);
      assert AllBytes(entries) + [] == AllBytes(entries) && AllBytes(entries[1..]) + [] == AllBytes(entries[1..]);
      assert data[..ENTRY] == AllBytes(entries)[..ENTRY];
      EntriesStep(data, |entries|, entries[0]);
      assert data[ENTRY..] == AllBytes(entries)[ENTRY..][..k - ENTRY];
      EntriesOfCut(entries[1..], k - ENTRY);
      assert entries[..k / ENTRY] == [entries[0]] + entries[1..][..(k - ENTRY) / ENTRY];
    }
  }

  lemma HeaderFields(file: seq<byte>, n: nat)
    requires n < U32 && HeaderBytes(n) <= file
    ensures Word32(file[..4]) == MAGIC && Word16(file[4..6]) == VERSION && CountOf(file[6..10]) == n
  {
    hide Bytes16, Bytes32, Word16, Word32, CountBytes, CountOf, Crc;
    var h := HeaderBytes(n);
    assert h[..4] == Bytes32(MAGIC) && h[4..6] == Bytes16(VERSION) && h[6..10] == CountBytes(n);
    assert file[..4] == h[..4] && file[4..6] == h[4..6] && file[6..10] == h[6..10];
    WordOfBytes32(MAGIC);
    WordOfBytes16(VERSION);
    CountOfBytes(n);
  }

  /** What a reader finds behind the header of a file cut at byte k. */
  lemma CutBody(entries: seq<ReplayEntry>, rest: seq<byte>, k: nat)
    requires k <= ENTRY * |entries| + |rest|
    ensures Entries((AllBytes(entries) + rest)[..k], |entries|) == entries[..Min(|entries|, k / ENTRY)]
  {
    hide AllBytes, Entries;
    var all := AllBytes(entries);
    if k < |all| {
      assert (all + rest)[..k] == all[..k];
      EntriesOfCut(entries, k);
      assert k / ENTRY <= |entries|;
    } else {
      assert (all + rest)[..k] == all + rest[..k - |all|];
      EntriesOfAll(entries, rest[..k - |all|]);
      assert k / ENTRY >= |entries|;
      assert entries[..|entries|] == entries;
    }
  }

  /** A flushed file gives back its entries, and cut at any byte behind the header it gives back
      the entries that lie whole before the cut. */
  lemma FileRoundTrip(entries: seq<ReplayEntry>, k: nat)
    requires |entries| < U32 && HEADER <= k <= |FileBytes(entries)|
    ensures ReadBack(FileBytes(entries)) == entries
    ensures ReadBack(FileBytes(entries)[..k]) == entries[..Min(|entries|, (k - HEADER) / ENTRY)]
  {
    hide Bytes32, Word16, Word32, CountOf, Crc, HeaderBytes, AllBytes, Entries;
    var n, file := |entries|, FileBytes(entries);
    var all := AllBytes(entries);
    var rest := Bytes32(Crc(HeaderBytes(n) + all)) + Bytes32(FOOTER_MAGIC);
    assert file == HeaderBytes(n) + (all + rest);
    HeaderFields(file, n);
    HeaderFields(file[..k], n);
    assert file[HEADER..] == all + rest;
    EntriesOfAll(entries, rest);
    assert file[..k][HEADER..] == (all + rest)[..k - HEADER];
    CutBody(entries, rest, k - HEADER);
  }

  /** The file around its entries: a header of 16 bytes with its own checksum, and a footer of 8 with
      the checksum of all before it. */
  lemma FileLayout(entries: seq<ReplayEntry>)
    ensures var f, n := FileBytes(entries), |entries|;
      && |f| == 16 + 33 * n + 8
      && f[..4] == Bytes32(0x4844_5852) && f[4..6] == Bytes16(1) && f[6..10] == CountBytes(n) && f[10..12] == [0, 0]
      && f[12..16] == Bytes32(Crc(f[..12]))
      && f[16 + 33 * n..20 + 33 * n] == Bytes32(Crc(f[..16 + 33 * n]))
      && f[20 + 33 * n..] == Bytes32(0x4844_5846)
  {
    hide Bytes16, Bytes32, CountBytes, Crc, AllBytes, HeaderBytes;
    var f, n := FileBytes(entries), |entries|;
    var h := HeaderBytes(n);
    HeaderLayout(n);
    assert f[..16] == h;
    assert f[..12] == h[..12] && f[..4] == h[..4] && f[4..6] == h[4..6] && f[6..10] == h[6..10];
    assert f[10..12] == h[10..12] && f[12..16] == h[12..16];
    assert f[..16 + 33 * n] == h + AllBytes(entries);
  }

  lemma HeaderLayout(n: nat)
    ensures var h := HeaderBytes(n);
      && h[..4] == Bytes32(MAGIC) && h[4..6] == Bytes16(VERSION) && h[6..10] == CountBytes(n) && h[10..12] == [0, 0]
      && h[12..16] == Bytes32(Crc(h[..12]))
  {
    hide Bytes16, Bytes32, CountBytes, Crc;
    var h := HeaderBytes(n);
    var fields := Bytes32(MAGIC) + Bytes16(VERSION) + CountBytes(n) + [0, 0];
    assert h[..12] == fields;
  }

  lemma LaterEntry(data: seq<byte>, i: nat, e: ReplayEntry)
    requires |data| >= ENTRY && i > 0 && EntryAt(data[ENTRY..], i - 1, e)
    ensures EntryAt(data, i, e)
  {
    hide EntryOf;
    Shifted(data, ENTRY, 33 * (i - 1), 33 * i);
  }

  lemma FirstAt(data: seq<byte>)
    requires |data| >= ENTRY
    ensures EntryAt(data, 0, EntryOf(data[..ENTRY]))
  {
    hide EntryOf;
    assert data[0..33] == data[..ENTRY];
  }

  lemma Shifted<T>(s: seq<T>, n: nat, a: nat, b: nat)
    requires n + b <= |s| && a <= b
    ensures s[n..][a..b] == s[n + a..n + b]
  {
  }

  lemma {:induction false} EntriesExact(data: seq<byte>, n: nat)
    ensures |Entries(data, n)| == Min(n, |data| / 33)
    ensures forall i :: 0 <= i < |Entries(data, n)| ==> EntryAt(data, i, Entries(data, n)[i])
    decreases n
  {
    hide EntryOf, EntryAt;
    if n > 0 && |data| >= ENTRY {
      EntriesExact(data[ENTRY..], n - 1);
      var all, rest := Entries(data, n), Entries(data[ENTRY..], n - 1);
      forall i | 0 <= i < |all|
        ensures EntryAt(data, i, all[i])
      {
        if i == 0 {
          FirstAt(data);
        } else {
          assert EntryAt(data[ENTRY..], i - 1, rest[i - 1]);
          LaterEntry(data, i, all[i]);
        }
      }
    }
  }

  ghost predicate EntryAt(data: seq<byte>, i: nat, e: ReplayEntry) {
    33 * i + 33 <= |data| && EntryOf(data[33 * i..33 * i + 33]) == e
  }

  /** What is read from any bytes: nothing unless they begin with magic number and version; otherwise
      the i-th entry from its place, up to the count in the header or the end. */
  lemma ReadBackExact(file: seq<byte>)
    ensures |file| < 16 || file[..4] != Bytes32(0x4844_5852) || file[4..6] != Bytes16(1) ==> ReadBack(file) == []
    ensures |file| >= 16 && file[..4] == Bytes32(0x4844_5852) && file[4..6] == Bytes16(1) ==>
      && |ReadBack(file)| == Min(CountOf(file[6..10]), (|file| - 16) / 33)
      && forall i :: 0 <= i < |ReadBack(file)| ==> EntryAt(file[16..], i, ReadBack(file)[i])
  {
    hide Bytes16, Bytes32, Word16, Word32, CountOf, EntryAt, Entries;
    if |file| >= 16 {
      BytesOfWord32(file[..4]);
      WordOfBytes32(MAGIC);
      BytesOfWord16(file[4..6]);
      WordOfBytes16(VERSION);
      EntriesExact(file[16..], CountOf(file[6..10]));
    }
  }
}
