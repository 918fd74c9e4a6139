/** The boot I/O trace: a ring of 65536 events behind 32-bit counters that wrap. */
module BootTrace {

  import opened Words

  const SIZE: nat := 65536

  /** The ring size divides 2^32, so slots do not notice that the counter wraps. */
  lemma SlotOfWrapped(x: int)
    ensures (x % U32) % SIZE == x % SIZE
  {
    var q, r := x / U32, x % U32;
    assert x == U32 * q + r;
    assert x == SIZE * (SIZE * q) + r;
    SlotShift(r, SIZE * q);
  }

  lemma SlotShift(r: int, k: int)
    ensures (SIZE * k + r) % SIZE == r % SIZE
  {
  }

  /** The newest event recorded in the same slot as event j, when n events were recorded. */
  function Newest(n: nat, j: int): (i: int)
    requires j < n
    ensures j <= i < n && n - i <= SIZE && i % SIZE == j % SIZE
  {
    SlotShift(n - 1 - (n - 1 - j) % SIZE, -((n - 1 - j) / SIZE));
    n - 1 - (n - 1 - j) % SIZE
  }

  lemma NewestIsSelf(n: nat, j: int)
    requires j < n && n - j <= SIZE
    ensures Newest(n, j) == j
  {
  }

  /** How many events a reader gets: the wrapped count, or as many as fit. */
  function ToCopy(n: nat, max: nat): nat {
    if n % U32 < max then n % U32 else max
  }

  /** What a reader gets after the events of a history. */
  function Copied<Event>(history: seq<Event>, max: nat): (out: seq<Event>)
    ensures |out| == Min(|history| % U32, max)
    ensures |history| < U32 ==> |out| == Min(|history|, max)
  {
    var n, m := |history|, ToCopy(|history|, max);
    seq(m, i requires 0 <= i < m => history[Newest(n, n - m + i)])
  }

  /** The last events, in order, for every history and every request of at most 65536. */
  lemma LastEvents<Event>(history: seq<Event>, max: nat)
    requires Min(|history| % U32, max) <= 65536
    ensures Copied(history, max) == history[|history| - Min(|history| % U32, max)..]
  {
    hide Newest;
    var n, m := |history|, ToCopy(|history|, max);
    forall i | 0 <= i < m
      ensures Copied(history, max)[i] == history[n - m + i]
    {
      NewestIsSelf(n, n - m + i);
    }
  }

  /** Beyond that the oldest requested event has been overwritten: of distinct events, the reader
      does not get the last ones. */
  lemma Overrun(n: nat, max: nat)
    requires Min(n % U32, max) > 65536
    ensures var history := seq(n, i => i);
      Copied(history, max) != history[n - Min(n % U32, max)..]
  {
    hide Newest;
    var history := seq(n, i => i);
    var m := ToCopy(n, max);
    assert Copied(history, max)[0] == Newest(n, n - m);
    assert history[n - m..][0] == n - m;
  }

  /** The last 65536 events lie in their slots. */
  ghost predicate Holds<Event>(buffer: seq<Event>, history: seq<Event>) {
    && |buffer| == SIZE
    && forall i :: 0 <= i < |history| && |history| - i <= SIZE ==> buffer[i % SIZE] == history[i]
  }

  /** Where a reader at `pos` looks for the i-th of m events. */
  function SourceIndex(pos: nat, m: nat, i: nat): (k: nat)
    ensures k < SIZE
  {
    (pos - m + i) % U32 % SIZE
  }

  lemma CopiedEvent<Event>(buffer: seq<Event>, history: seq<Event>, m: nat, i: nat)
    requires Holds(buffer, history) && i < m <= |history|
    ensures var n := |history|;
      buffer[SourceIndex(n % U32, m, i)] == history[Newest(n, n - m + i)]
  {
    hide Newest;
    SourceSlot(|history|, m, i);
  }

  lemma HoldsNext<Event>(buffer: seq<Event>, history: seq<Event>, event: Event)
    requires Holds(buffer, history)
    ensures Holds(buffer[|history| % SIZE := event], history + [event])
  {
    var n := |history|;
    forall i | 0 <= i < n && n + 1 - i <= SIZE
      ensures i % SIZE != n % SIZE
    {
      OtherSlot(i, n);
    }
  }

  class BootIoTrace<Event(0)> {
    const buffer: array<Event>
    var writePos: nat
    var count: nat
    ghost var history: seq<Event>  // since the last reset

    ghost predicate Valid()
      reads this, buffer
    {
      && buffer.Length == SIZE
      && writePos == count == |history| % U32
      && Holds(buffer[..], history)
    }

    constructor ()
      ensures Valid() && history == [] && fresh(buffer)
    {
      buffer := new Event[SIZE];
      writePos, count, history := 0, 0, [];
    }

    method RecordEvent(event: Event)
      requires Valid()
      modifies this, buffer
      ensures Valid() && history == old(history) + [event]
    {
      hide Holds;
      ghost var n := |history|;
      SlotOfWrapped(n);
      WrapNext(n);
      var pos := writePos % SIZE;
      writePos := (writePos + 1) % U32;
      HoldsNext(buffer[..], history, event);
      ghost var was := buffer[..];
      buffer[pos] := event;
      assert buffer[..] == was[pos := event];
      count := (count + 1) % U32;
      history := history + [event];
    }

    method GetEvents(max: nat) returns (out: seq<Event>)
      requires Valid()
      ensures out == Copied(history, max)
    {
      hide Newest, SourceIndex, Holds;
      var total := count;
      var toCopy := if total < max then total else max;
      var pos := writePos;
      ghost var n := |history|;
      out := [];
      for i := 0 to toCopy
        invariant |out| == i && forall k :: 0 <= k < i ==> out[k] == history[Newest(n, n - toCopy + k)]
      {
        var index := SourceIndex(pos, toCopy, i);
        CopiedEvent(buffer[..], history, toCopy, i);
        out := out + [buffer[index]];
      }
    }

    method Reset()
      requires Valid()
      modifies this
      ensures Valid() && history == []
    {
      writePos, count, history := 0, 0, [];
    }
  }

  lemma WrapNext(n: nat)
    ensures (n % U32 + 1) % U32 == (n + 1) % U32
  {
  }

  lemma OtherSlot(i: nat, n: nat)
    requires i < n && n - i < SIZE
    ensures i % SIZE != n % SIZE
  {
  }

  /** The wrapped subtraction finds the slot of event n - m + i. */
  lemma SourceSlot(n: nat, m: nat, i: nat)
    ensures (n % U32 - m + i) % U32 % SIZE == (n - m + i) % SIZE
  {
    var q := n / U32;
    SlotOfWrapped(n % U32 - m + i);
    assert n - m + i == SIZE * (SIZE * q) + (n % U32 - m + i);
    SlotShift(n % U32 - m + i, SIZE * q);
  }
}
