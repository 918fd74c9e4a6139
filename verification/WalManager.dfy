/** One run of the write-ahead log manager on fresh segment files: the sequence fence, segments
    with their files, and rollover. */
module WalManager {
  import opened Words
  import opened WalEntry
  import opened WalLog

  const SEGMENT_SIZE: nat := 64 * 1024 * 1024
  const MAX_ENTRIES: nat := 500000

  // ---------- What the manager's state means ----------

  /** A segment: the entries its file holds. A file that could not be opened stays empty. */
  datatype SegmentState = SegmentState(entries: seq<Entry>, usable: bool)

  /** One call that took an id: whether it was acknowledged, and what it wrote. */
  datatype Attempt = Attempt(entry: Entry, acknowledged: bool)

  datatype ManagerState = ManagerState(
    next: bv64, closed: seq<SegmentState>, active: SegmentState, attempts: seq<Attempt>)

  predicate Full(s: SegmentState) {
    |Written(s.entries)| >= SEGMENT_SIZE || |s.entries| >= MAX_ENTRIES
  }

  function Rolled(m: ManagerState, usable: bool): ManagerState {
    m.(closed := m.closed + [m.active], active := SegmentState([], usable))
  }

  /** A write: `written` says whether the file takes the whole entry or nothing, `usable` whether
      the next segment's file can be opened if the active one is now full. */
  function WriteStep(m: ManagerState, len: bv32, payload: seq<byte>, written: bool, usable: bool): ManagerState {
    var e := Entry(m.next, len, payload);
    var ok := written && m.active.usable;
    var m' := m.(next := Succ(m.next), attempts := m.attempts + [Attempt(e, ok)]);
    if !ok then m' else
      var active := m.active.(entries := m.active.entries + [e]);
      if Full(active) then Rolled(m'.(active := active), usable) else m'.(active := active)
  }

  function Initial(flushed: bv64, usable: bool): ManagerState {
    ManagerState(Succ(flushed), [], SegmentState([], usable), [])
  }

  // ---------- Runs ----------

  /** The calls that change the manager. Reading changes nothing. */
  datatype Op =
    | Write(len: bv32, payload: seq<byte>, written: bool, nextOpens: bool)
    | Rollover(opens: bool)

  function Step(m: ManagerState, op: Op): ManagerState {
    match op
    case Write(len, payload, written, nextOpens) => WriteStep(m, len, payload, written, nextOpens)
    case Rollover(opens) => Rolled(m, opens)
  }

  function Run(m: ManagerState, ops: seq<Op>): ManagerState {
    if ops == [] then m else Step(Run(m, ops[..|ops| - 1]), ops[|ops| - 1])
  }

  /** All entries in all segments, oldest segment first. */
  function Stored(segments: seq<SegmentState>): seq<Entry> {
    if segments == [] then [] else Stored(segments[..|segments| - 1]) + segments[|segments| - 1].entries
  }

  function Acknowledged(attempts: seq<Attempt>): seq<Entry> {
    if attempts == [] then []
    else
      var last := attempts[|attempts| - 1];
      Acknowledged(attempts[..|attempts| - 1]) + (if last.acknowledged then [last.entry] else [])
  }

  /** Each attempt takes the id after the previous one, starting at `first`. */
  ghost predicate Consecutive(first: bv64, next: bv64, attempts: seq<Attempt>) {
    && (attempts == [] ==> next == first)
    && (attempts != [] ==> attempts[0].entry.seqId == first && Succ(attempts[|attempts| - 1].entry.seqId) == next)
    && forall i :: 1 <= i < |attempts| ==> attempts[i].entry.seqId == Succ(attempts[i - 1].entry.seqId)
  }

  ghost predicate Inv(first: bv64, m: ManagerState) {
    && Consecutive(first, m.next, m.attempts)
    && Stored(m.closed + [m.active]) == Acknowledged(m.attempts)
    && !Full(m.active)
    && (forall s :: s in m.closed + [m.active] ==> |s.entries| <= MAX_ENTRIES && (!s.usable ==> s.entries == []))
  }

  lemma StoredSnoc(segments: seq<SegmentState>, s: SegmentState)
    ensures Stored(segments + [s]) == Stored(segments) + s.entries
  {
    assert (segments + [s])[..|segments|] == segments;
  }

  lemma AcknowledgedSnoc(attempts: seq<Attempt>, a: Attempt)
    ensures Acknowledged(attempts + [a]) == Acknowledged(attempts) + (if a.acknowledged then [a.entry] else [])
  {
    assert (attempts + [a])[..|attempts|] == attempts;
  }

  ghost predicate NothingIn(segments: seq<SegmentState>) {
    forall s :: s in segments ==> s.entries == []
  }

  lemma {:induction false} StoredNothing(segments: seq<SegmentState>)
    requires NothingIn(segments)
    ensures Stored(segments) == []
  {
    if segments != [] {
      StoredNothing(segments[..|segments| - 1]);
      assert segments[|segments| - 1] in segments;
    }
  }

  /** A run may start with empty segments rolled over before. */
  lemma InitialInv(flushed: bv64, usable: bool, closed: seq<SegmentState>)
    requires NothingIn(closed)
    ensures Inv(Succ(flushed), Initial(flushed, usable).(closed := closed))
  {
    StoredNothing(closed);
    StoredSnoc(closed, SegmentState([], usable));
    assert Written([]) == [];
  }

  lemma RolledInv(first: bv64, m: ManagerState, usable: bool)
    requires Consecutive(first, m.next, m.attempts)
    requires Stored(m.closed + [m.active]) == Acknowledged(m.attempts)
    requires forall s :: s in m.closed + [m.active] ==> |s.entries| <= MAX_ENTRIES && (!s.usable ==> s.entries == [])
    ensures Inv(first, Rolled(m, usable))
  {
    hide Consecutive, Acknowledged;
    StoredSnoc(m.closed + [m.active], SegmentState([], usable));
    assert Written([]) == [];
  }

  lemma WriteInv(first: bv64, m: ManagerState, len: bv32, payload: seq<byte>, written: bool, usable: bool)
    requires Inv(first, m)
    ensures Inv(first, WriteStep(m, len, payload, written, usable))
  {
    hide Acknowledged, Stored, Full, Written, Succ;
    var e := Entry(m.next, len, payload);
    var ok := written && m.active.usable;
    var m1 := m.(next := Succ(m.next), attempts := m.attempts + [Attempt(e, ok)]);
    AcknowledgedSnoc(m.attempts, Attempt(e, ok));
    assert Consecutive(first, m1.next, m1.attempts);
    if ok {
      var active := m.active.(entries := m.active.entries + [e]);
      var m2 := m1.(active := active);
      StoredSnoc(m.closed, m.active);
      StoredSnoc(m.closed, active);
      NotFull(m.active);
      assert Stored(m2.closed + [m2.active]) == Acknowledged(m2.attempts);
      RolledInv(first, m2, usable);
    }
  }

  lemma NotFull(s: SegmentState)
    requires !Full(s)
    ensures |s.entries| < MAX_ENTRIES
  {
  }

  /** Over every run: the segments hold exactly the acknowledged entries in order, every attempt
      takes the next id whether or not it succeeds, and no segment exceeds its entry limit. */
  lemma {:induction false} RunInv(flushed: bv64, usable: bool, ops: seq<Op>)
    ensures Inv(Succ(flushed), Run(Initial(flushed, usable), ops))
  {
    hide Inv, Initial, Rolled, WriteStep;
    if ops == [] {
      InitialInv(flushed, usable, []);
      assert Initial(flushed, usable).(closed := []) == Initial(flushed, usable) by { InitialClosed(flushed, usable); }
    } else {
      var m := Run(Initial(flushed, usable), ops[..|ops| - 1]);
      RunInv(flushed, usable, ops[..|ops| - 1]);
      StepInv(Succ(flushed), m, ops[|ops| - 1]);
    }
  }

  lemma InitialClosed(flushed: bv64, usable: bool)
    ensures Initial(flushed, usable).closed == []
  {
  }

  lemma StepInv(first: bv64, m: ManagerState, op: Op)
    requires Inv(first, m)
    ensures Inv(first, Step(m, op))
  {
    hide Rolled, WriteStep;
    match op
    case Write(len, payload, written, nextOpens) => WriteInv(first, m, len, payload, written, nextOpens);
    case Rollover(opens) => RolledInv(first, m, opens);
  }

  function Writes(ops: seq<Op>): nat {
    if ops == [] then 0 else Writes(ops[..|ops| - 1]) + (if ops[|ops| - 1].Write? then 1 else 0)
  }

  lemma {:induction false} AttemptCount(m: ManagerState, ops: seq<Op>)
    ensures |Run(m, ops).attempts| == |m.attempts| + Writes(ops)
  {
    hide Succ, Full, Step;
    if ops != [] {
      var before := ops[..|ops| - 1];
      AttemptCount(m, before);
      StepAttempts(Run(m, before), ops[|ops| - 1]);
    }
  }

  lemma {:induction false} NumberedFrom(flushed: bv64, next: bv64, attempts: seq<Attempt>, i: nat)
    requires Consecutive(Succ(flushed), next, attempts) && i < |attempts|
    requires Number(flushed) + |attempts| < U64
    ensures Number(attempts[i].entry.seqId) == Number(flushed) + 1 + i
  {
    hide Succ, Number;
    if i == 0 {
      NumberNext(flushed);
    } else {
      NumberedFrom(flushed, next, attempts, i - 1);
      NumberNext(attempts[i - 1].entry.seqId);
    }
  }

  /** Over every run that does not count beyond 2^64, the i-th attempt has the i-th id after the
      checkpoint, so ids strictly increase. */
  lemma IdsIncrease(flushed: bv64, usable: bool, ops: seq<Op>, i: nat)
    requires Number(flushed) + Writes(ops) < U64 && i < Writes(ops)
    ensures var attempts := Run(Initial(flushed, usable), ops).attempts;
      |attempts| == Writes(ops) && Number(attempts[i].entry.seqId) == Number(flushed) + 1 + i
  {
    hide Run, Writes, Succ, Number;
    var m := Run(Initial(flushed, usable), ops);
    AttemptCount(Initial(flushed, usable), ops);
    RunInv(flushed, usable, ops);
    NumberedFrom(flushed, m.next, m.attempts, i);
  }

  // ---------- When a segment is closed ----------

  predicate WithinLimits(es: seq<Entry>) {
    |Written(es)| < 64 * 1024 * 1024 && |es| < 500000
  }

  /** The active segment never reaches 64 MiB or 500000 entries. */
  lemma ActiveWithinLimits(flushed: bv64, usable: bool, ops: seq<Op>)
    ensures WithinLimits(Run(Initial(flushed, usable), ops).active.entries)
  {
    hide Run, Succ, Written, Consecutive, Acknowledged, Stored;
    RunInv(flushed, usable, ops);
  }

  /** A limit is reached, and without the last entry it was not. */
  ghost predicate JustFull(s: SegmentState) {
    s.entries != [] && !WithinLimits(s.entries) && WithinLimits(s.entries[..|s.entries| - 1])
  }

  /** Segments that no call rolled over were closed by the write that reached a limit. */
  lemma {:induction false} ClosedJustFull(flushed: bv64, usable: bool, ops: seq<Op>)
    requires forall op :: op in ops ==> op.Write?
    ensures forall s :: s in Run(Initial(flushed, usable), ops).closed ==> JustFull(s)
  {
    hide WriteStep, JustFull;
    if ops != [] {
      var before, op := ops[..|ops| - 1], ops[|ops| - 1];
      assert op in ops;
      ClosedJustFull(flushed, usable, before);
      ActiveWithinLimits(flushed, usable, before);
      WriteCloses(Run(Initial(flushed, usable), before), op);
    }
  }

  lemma WriteCloses(m: ManagerState, op: Op)
    requires op.Write? && WithinLimits(m.active.entries)
    ensures Step(m, op).closed == m.closed
      || exists s :: Step(m, op).closed == m.closed + [s] && JustFull(s)
  {
    hide Written, Succ;
    var e := Entry(m.next, op.len, op.payload);
    var active := m.active.(entries := m.active.entries + [e]);
    assert active.entries[..|active.entries| - 1] == m.active.entries;
    if Step(m, op).closed != m.closed {
      assert Step(m, op).closed == m.closed + [active] && JustFull(active);
    }
  }

  // ---------- Which writes are acknowledged ----------

  /** A write is acknowledged exactly if it goes through and the active file is open; it records what
      was passed, and changes no earlier attempt. */
  lemma WriteOutcome(flushed: bv64, usable: bool, ops: seq<Op>, op: Op)
    requires op.Write?
    ensures var m, m' := Run(Initial(flushed, usable), ops), Run(Initial(flushed, usable), ops + [op]);
      && |m'.attempts| == |m.attempts| + 1 && m'.attempts[..|m.attempts|] == m.attempts
      && var a := m'.attempts[|m.attempts|];
         && (a.acknowledged <==> op.written && m.active.usable)
         && a.entry.payload == op.payload && a.entry.len == op.len
  {
    hide Succ, Full;
    RunSnoc(Initial(flushed, usable), ops, op);
    StepAttempts(Run(Initial(flushed, usable), ops), op);
  }

  lemma RunSnoc(m: ManagerState, ops: seq<Op>, op: Op)
    ensures Run(m, ops + [op]) == Step(Run(m, ops), op)
  {
    hide Step;
    assert (ops + [op])[..|ops|] == ops;
  }

  /** A new segment takes writes exactly if its file could be opened. */
  lemma NewSegment(flushed: bv64, usable: bool, ops: seq<Op>, op: Op)
    ensures var m, m' := Run(Initial(flushed, usable), ops), Run(Initial(flushed, usable), ops + [op]);
      && (op.Rollover? ==> m'.closed == m.closed + [m.active] && m'.active == SegmentState([], op.opens))
      && (op.Write? ==>
            if m'.closed == m.closed then m'.active.usable == m.active.usable
            else m'.active == SegmentState([], op.nextOpens))
  {
    hide Succ, Full;
    RunSnoc(Initial(flushed, usable), ops, op);
  }

  ghost predicate AllOpen(ops: seq<Op>) {
    forall op :: op in ops ==> if op.Write? then op.nextOpens else op.opens
  }

  /** The payloads of the writes that go through. */
  function Through(ops: seq<Op>): seq<seq<byte>> {
    if ops == [] then []
    else
      var op := ops[|ops| - 1];
      Through(ops[..|ops| - 1]) + (if op.Write? && op.written then [op.payload] else [])
  }

  function Payloads(es: seq<Entry>): (ps: seq<seq<byte>>)
    ensures |ps| == |es|
  {
    seq(|es|, i requires 0 <= i < |es| => es[i].payload)
  }

  /** If every file can be opened, exactly the writes that go through are acknowledged, in order. */
  lemma {:induction false} ThroughIsAcknowledged(flushed: bv64, ops: seq<Op>)
    requires AllOpen(ops)
    ensures var m := Run(Initial(flushed, true), ops);
      m.active.usable && Payloads(Acknowledged(m.attempts)) == Through(ops)
  {
    hide Step, Run, Acknowledged;
    if ops == [] {
      NothingRun(flushed);
    } else {
      var before, op := ops[..|ops| - 1], ops[|ops| - 1];
      assert op in ops && ops == before + [op];
      ThroughIsAcknowledged(flushed, before);
      NewSegment(flushed, true, before, op);
      var m, m' := Run(Initial(flushed, true), before), Run(Initial(flushed, true), ops);
      if op.Write? {
        WriteOutcome(flushed, true, before, op);
        var a := m'.attempts[|m.attempts|];
        assert m'.attempts == m.attempts + [a];
        AcknowledgedSnoc(m.attempts, a);
      } else {
        RolloverAttempts(Initial(flushed, true), before, op);
      }
    }
  }

  lemma NothingRun(flushed: bv64)
    ensures var m := Run(Initial(flushed, true), []);
      m.active.usable && Acknowledged(m.attempts) == []
  {
  }

  lemma RolloverAttempts(m: ManagerState, ops: seq<Op>, op: Op)
    requires op.Rollover?
    ensures Run(m, ops + [op]).attempts == Run(m, ops).attempts
  {
    RunSnoc(m, ops, op);
  }

  // ---------- A crash after any run ----------

  /** The caller keeps every payload below the 32-bit size limit. */
  ghost predicate LoggableOps(ops: seq<Op>) {
    forall op :: op in ops && op.Write? ==> Entry(0, op.len, op.payload).Loggable()
  }

  ghost predicate LoggableAttempts(attempts: seq<Attempt>) {
    forall a :: a in attempts ==> a.entry.Loggable()
  }

  lemma {:induction false} RunLoggable(m: ManagerState, ops: seq<Op>)
    requires LoggableAttempts(m.attempts) && LoggableOps(ops)
    ensures LoggableAttempts(Run(m, ops).attempts)
  {
    hide Succ, Full, Size;
    if ops != [] {
      var before, op := ops[..|ops| - 1], ops[|ops| - 1];
      RunLoggable(m, before);
      assert op in ops;
      StepAttempts(Run(m, before), op);
    }
  }

  lemma StepAttempts(m: ManagerState, op: Op)
    ensures op.Rollover? ==> Step(m, op).attempts == m.attempts
    ensures op.Write? ==>
      var a := Attempt(Entry(m.next, op.len, op.payload), op.written && m.active.usable);
      Step(m, op).attempts == m.attempts + [a]
  {
    hide Succ, Full;
  }

  lemma {:induction false} AcknowledgedLoggable(attempts: seq<Attempt>)
    requires LoggableAttempts(attempts)
    ensures Loggable(Acknowledged(attempts))
  {
    hide Size;
    if attempts != [] {
      var n := |attempts| - 1;
      AcknowledgedLoggable(attempts[..n]);
      assert attempts[n] in attempts;
    }
  }

  /** What a replay reads from segment files, oldest first: each up to its first invalid entry. */
  function Replayed(files: seq<seq<byte>>): seq<Record> {
    if files == [] then [] else Replayed(files[..|files| - 1]) + Scan(files[|files| - 1])
  }

  function Files(segments: seq<SegmentState>): (files: seq<seq<byte>>)
    ensures |files| == |segments|
  {
    seq(|segments|, i requires 0 <= i < |segments| => Written(segments[i].entries))
  }

  lemma ReplayedSnoc(files: seq<seq<byte>>, file: seq<byte>)
    ensures Replayed(files + [file]) == Replayed(files) + Scan(file)
  {
    hide Scan;
    assert (files + [file])[..|files|] == files;
  }

  lemma ReplayedNone()
    ensures Replayed([]) == []
  {
  }

  lemma ScanWritten(es: seq<Entry>)
    requires Loggable(es)
    ensures Scan(Written(es)) == RecordsOf(es)
  {
    hide Scan, Written, RecordsOf;
    ScanIntact(es, []);
    ScanNothing([]);
    assert Written(es) + [] == Written(es);
  }

  /** Intact files give back what the segments hold. */
  lemma {:induction false} ReplayedFiles(segments: seq<SegmentState>)
    requires Loggable(Stored(segments))
    ensures Replayed(Files(segments)) == RecordsOf(Stored(segments))
  {
    hide Scan, Written, RecordOf, Loggable;
    if segments != [] {
      var n := |segments| - 1;
      var before, es := segments[..n], segments[n].entries;
      LoggableParts(Stored(before), es);
      ReplayedFiles(before);
      ScanWritten(es);
      assert Files(segments)[..n] == Files(before);
      RecordsAppend(Stored(before), es);
    }
  }

  /** The state after a run of loggable writes: what the segments hold, and that it can be read. */
  lemma RunStored(flushed: bv64, usable: bool, ops: seq<Op>)
    requires LoggableOps(ops)
    ensures var m := Run(Initial(flushed, usable), ops);
      && Stored(m.closed + [m.active]) == Stored(m.closed) + m.active.entries == Acknowledged(m.attempts)
      && Loggable(Stored(m.closed)) && Loggable(m.active.entries) && Loggable(Acknowledged(m.attempts))
  {
    hide Run, Succ, Acknowledged, Stored, Loggable;
    var m := Run(Initial(flushed, usable), ops);
    RunInv(flushed, usable, ops);
    RunLoggable(Initial(flushed, usable), ops);
    AcknowledgedLoggable(m.attempts);
    StoredSnoc(m.closed, m.active);
    LoggableParts(Stored(m.closed), m.active.entries);
  }

  /** What a replay reads from the files after any run: the acknowledged entries, in order. */
  lemma ReplayIsAcknowledged(flushed: bv64, usable: bool, ops: seq<Op>)
    requires LoggableOps(ops)
    ensures var m := Run(Initial(flushed, usable), ops);
      Replayed(Files(m.closed + [m.active])) == RecordsOf(Acknowledged(m.attempts))
  {
    hide Run, Replayed, Files, Stored, Acknowledged, RecordsOf, LoggableOps, Loggable;
    RunStored(flushed, usable, ops);
    var m := Run(Initial(flushed, usable), ops);
    ReplayedFiles(m.closed + [m.active]);
  }

  /** A crash after any run that tears the active segment's file at byte k: the replay reads all
      entries of the sealed segments and exactly those n of the active one that lie within k. */
  lemma CrashKeepsPrefix(flushed: bv64, usable: bool, ops: seq<Op>, k: nat) returns (n: nat)
    requires LoggableOps(ops)
    requires k <= |Written(Run(Initial(flushed, usable), ops).active.entries)|
    ensures var m := Run(Initial(flushed, usable), ops);
      && n <= |m.active.entries|
      && (forall i :: 0 <= i < |m.active.entries| ==> (i < n <==> EndOf(m.active.entries, i) <= k))
      && |Stored(m.closed)| + n <= |Acknowledged(m.attempts)|
      && Replayed(Files(m.closed) + [Written(m.active.entries)[..k]])
           == RecordsOf(Acknowledged(m.attempts)[..|Stored(m.closed)| + n])
  {
    hide Run, Scan, Written, Replayed, Files, Acknowledged, Stored, RecordsOf, LoggableOps, Loggable, EndOf;
    RunStored(flushed, usable, ops);
    var m := Run(Initial(flushed, usable), ops);
    var closed, active := Stored(m.closed), m.active.entries;
    n := TornTail(active, k);
    ReplayedFiles(m.closed);
    ReplayedSnoc(Files(m.closed), Written(active)[..k]);
    assert (closed + active)[..|closed| + n] == closed + active[..n];
    RecordsAppend(closed, active[..n]);
  }

  /** One changed byte in the file of segment j after any run costs at most entries of that
      segment: those from the damaged one on, or none if the byte is padding. */
  lemma DamagedSegment(flushed: bv64, usable: bool, ops: seq<Op>, j: nat, at: nat, b: byte) returns (i: nat)
    requires LoggableOps(ops)
    requires var m := Run(Initial(flushed, usable), ops);
      var all := m.closed + [m.active];
      j < |all| && at < |Written(all[j].entries)| && b != Written(all[j].entries)[at]
    ensures var m := Run(Initial(flushed, usable), ops);
      var all := m.closed + [m.active];
      var es := all[j].entries;
      && i < |es| && |Written(es[..i])| <= at < |Written(es[..i])| + |Printed(es[i])|
      && Replayed(Files(all)[j := Written(es)[at := b]]) ==
           RecordsOf(Stored(all[..j])) + RecordsOf(if at < EndOf(es, i) then es[..i] else es)
           + RecordsOf(Stored(all[j + 1..]))
  {
    hide Run, Scan, Written, Printed, Replayed, Files, Acknowledged, Stored, RecordsOf, LoggableOps, Loggable, EndOf;
    RunStored(flushed, usable, ops);
    var m := Run(Initial(flushed, usable), ops);
    var all := m.closed + [m.active];
    var before, es, after := all[..j], all[j].entries, all[j + 1..];
    assert all == before + [all[j]] + after;
    StoredAppend(before + [all[j]], after);
    StoredSnoc(before, all[j]);
    LoggableParts(Stored(before + [all[j]]), Stored(after));
    LoggableParts(Stored(before), es);
    i := DamagedByte(es, at, b);
    ReplayedFiles(before);
    ReplayedFiles(after);
    ChangedFile(all, j, Written(es)[at := b]);
    ReplayedAppend(Files(before) + [Written(es)[at := b]], Files(after));
    ReplayedSnoc(Files(before), Written(es)[at := b]);
  }

  lemma ChangedFile(all: seq<SegmentState>, j: nat, file: seq<byte>)
    requires j < |all|
    ensures Files(all)[j := file] == Files(all[..j]) + [file] + Files(all[j + 1..])
  {
    hide Written;
  }

  lemma {:induction false} ReplayedAppend(files: seq<seq<byte>>, more: seq<seq<byte>>)
    ensures Replayed(files + more) == Replayed(files) + Replayed(more)
  {
    hide Scan, Replayed;
    if more == [] {
      assert files + more == files && Replayed(more) == [] by { ReplayedNone(); }
    } else {
      var n := |more| - 1;
      ReplayedAppend(files, more[..n]);
      ReplayedSnoc(files + more[..n], more[n]);
      ReplayedSnoc(more[..n], more[n]);
      assert files + more == files + more[..n] + [more[n]] && more == more[..n] + [more[n]];
    }
  }

  lemma {:induction false} StoredAppend(segments: seq<SegmentState>, more: seq<SegmentState>)
    ensures Stored(segments + more) == Stored(segments) + Stored(more)
  {
    hide Stored;
    if more == [] {
      assert segments + more == segments && Stored(more) == [] by { StoredNothing(more); }
    } else {
      var n := |more| - 1;
      StoredAppend(segments, more[..n]);
      StoredSnoc(segments + more[..n], more[n]);
      StoredSnoc(more[..n], more[n]);
      assert segments + more == segments + more[..n] + [more[n]] && more == more[..n] + [more[n]];
    }
  }

  lemma LoggableParts(es: seq<Entry>, fs: seq<Entry>)
    requires Loggable(es + fs)
    ensures Loggable(es) && Loggable(fs)
  {
    hide Size;
    forall e | e in es || e in fs
      ensures e.Loggable()
    {
      assert e in es + fs;
    }
  }

  lemma RecordsAppend(es: seq<Entry>, fs: seq<Entry>)
    ensures RecordsOf(es + fs) == RecordsOf(es) + RecordsOf(fs)
  {
    hide RecordOf;
  }

  // ---------- The classes ----------

  /** Hands out ids one by one. */
  class SequenceFence {
    var next: bv64

    constructor ()
      ensures next == 1
    {
      next := 1;
    }

    method Next() returns (id: bv64)
      modifies this
      ensures id == old(next) && next == Succ(old(next))
    {
      id := next;
      next := Succ(next);
    }

    /** The last id handed out. */
    function Current(): bv64
      reads this
    {
      next - 1
    }

    method Reset(start: bv64)
      modifies this
      ensures next == start
    {
      next := start;
    }
  }

  /** A segment: an open file with a position, and counters beside it. */
  class Segment {
    const usable: bool  // the file could be opened
    var file: seq<byte>
    var pos: nat
    var lastSeqId: bv64
    var entryCount: nat
    var fileSize: nat
    var isSealed: bool
    ghost var entries: seq<Entry>

    ghost predicate Valid()
      reads this
    {
      && Loggable(entries)
      && file == Written(entries)
      && pos == fileSize == |file|
      && entryCount == |entries|
      && (!usable ==> entries == [])
    }

    ghost function View(): SegmentState
      reads this
    {
      SegmentState(entries, usable)
    }

    /** A fresh file. */
    constructor (start: bv64, usable: bool)
      ensures Valid() && !isSealed && View() == SegmentState([], usable)
    {
      this.usable := usable;
      file, pos, fileSize, entryCount := [], 0, 0, 0;
      lastSeqId := start;
      isSealed := false;
      entries := [];
    }

    /** Writes at the file position; the write takes the whole entry or nothing. */
    method WriteEntry(id: bv64, payload: seq<byte>, len: bv32, written: bool) returns (ok: bool)
      requires Valid() && Entry(id, len, payload).Loggable()
      modifies this
      ensures Valid() && isSealed == old(isSealed)
      ensures ok == (!isSealed && usable && written)
      ensures entries == if ok then old(entries) + [Entry(id, len, payload)] else old(entries)
      ensures ok ==> lastSeqId == id
    {
      hide Printed, Size;
      if isSealed || !usable {
        return false;
      }
      var buf := Build(id, payload, len);
      if !written {
        return false;
      }
      var bytes := buf[..];
      file := file[..pos] + bytes + Drop(file, pos + |bytes|);
      pos := pos + |bytes|;
      lastSeqId := id;
      entryCount := entryCount + 1;
      fileSize := fileSize + |bytes|;
      AppendOne(entries, Entry(id, len, payload));
      entries := entries + [Entry(id, len, payload)];
      return true;
    }

    /** Seeks to the start, reads the whole file and scans it. */
    method ReadAllEntries() returns (records: seq<Record>)
      requires Valid()
      modifies this`pos
      ensures Valid()
      ensures records == RecordsOf(entries)
    {
      hide Printed, Size, RecordsOf, Written, Scan, Inside;
      ghost var es := entries;
      assert Written(es) + [] == Written(es);
      ScanIntact(es, []);
      ScanNothing([]);
      if !usable {
        WrittenNone(es, []);
        return [];
      }
      pos := 0;
      var data := file[pos..pos + fileSize];
      pos := pos + fileSize;
      records := ReadEntries(data);
    }

    function IsFull(): bool
      reads this
    {
      fileSize >= SEGMENT_SIZE || entryCount >= MAX_ENTRIES
    }

    method Seal()
      modifies this`isSealed
      ensures isSealed
    {
      isSealed := true;
    }
  }

  lemma AppendOne(es: seq<Entry>, e: Entry)
    ensures Written(es + [e]) == Written(es) + Printed(e)
  {
    hide Printed;
    WrittenAppend(es, [e]);
    WrittenCons(e, []);
    assert [e] + [] == [e];
    assert Written([]) == [];
  }

  class Manager {
    const fence: SequenceFence
    var active: Segment?
    var segments: seq<Segment>  // sealed, oldest first
    var nextNumber: nat
    var isOpen: bool
    ghost var attempts: seq<Attempt>
    ghost var first: bv64  // the first id of this run

    /** While open, the state is one a run can reach; before, nothing is stored. */
    ghost predicate Valid()
      reads this, fence, active, segments
    {
      && Sound()
      && (isOpen ==> Inv(first, View()))
      && (!isOpen ==> attempts == [] && NothingIn(Views(segments)) && (active != null ==> active.entries == []))
    }

    ghost predicate Sound()
      reads this, active, segments
    {
      && (isOpen ==> active != null)
      && (active != null ==> active.Valid() && !active.isSealed && active !in segments)
      && (forall s :: s in segments ==> s.Valid() && s.isSealed)
    }

    ghost function View(): ManagerState
      requires active != null
      reads this, fence, active, segments
    {
      ManagerState(fence.next, Views(segments), active.View(), attempts)
    }

    constructor ()
      ensures Valid() && !isOpen && active == null && segments == [] && attempts == []
      ensures fresh(fence)
    {
      fence := new SequenceFence();
      active, segments, nextNumber, isOpen := null, [], 1, false;
      attempts, first := [], 1;
    }

    /** `flushed` is the id in the checkpoint, 0 if there is none. */
    method Open(flushed: bv64, usable: bool)
      requires Valid() && !isOpen
      modifies this, fence
      ensures Valid() && isOpen && fresh(active) && first == Succ(flushed)
      ensures View() == Initial(flushed, usable).(closed := old(Views(segments)))
    {
      hide Inv, Succ, NothingIn, Written, Loggable;
      InitialInv(flushed, usable, Views(segments));
      first := Succ(flushed);
      fence.Reset(Succ(flushed));
      active := new Segment(fence.Current(), usable);
      isOpen := true;
    }

    /** Returns the id of an acknowledged entry, or 0. */
    method WriteEntry(payload: seq<byte>, len: bv32, written: bool, nextUsable: bool) returns (id: bv64)
      requires Valid() && Entry(fence.next, len, payload).Loggable()
      modifies this, fence, active
      ensures Valid() && isOpen == old(isOpen) && first == old(first)
      ensures !isOpen ==> id == 0 && unchanged(this) && unchanged(fence)
      ensures isOpen ==> View() == WriteStep(old(View()), len, payload, written, nextUsable)
      ensures isOpen ==> id == if written && old(active.usable) then old(fence.next) else 0
      ensures active == old(active) || fresh(active)
    {
      hide Printed, Size, Succ, Written, Inv;
      if !isOpen || active == null {
        return 0;
      }
      WriteInv(first, View(), len, payload, written, nextUsable);
      id := fence.Next();
      var ok := active.WriteEntry(id, payload, len, written);
      attempts := attempts + [Attempt(Entry(id, len, payload), ok)];
      if !ok {
        return 0;
      }
      RollOverIfNeeded(nextUsable);
    }

    method RollOverIfNeeded(usable: bool)
      requires Sound() && isOpen
      modifies this, active
      ensures Sound() && isOpen && first == old(first)
      ensures View() == if Full(old(active.View())) then Rolled(old(View()), usable) else old(View())
      ensures active == old(active) || fresh(active)
    {
      hide Written;
      if active.IsFull() {
        RollOver(usable);
      }
    }

    method TriggerSegmentRollover(usable: bool)
      requires Valid()
      modifies this, active
      ensures Valid() && isOpen == old(isOpen) && first == old(first) && fresh(active)
      ensures old(active) != null ==> View() == Rolled(old(View()), usable)
      ensures old(active) == null ==> segments == old(segments) && active.View() == SegmentState([], usable)
    {
      hide Written, Consecutive, Stored, Acknowledged, Full, Rolled;
      if isOpen {
        RolledInv(first, View(), usable);
      }
      RollOver(usable);
      assert !isOpen ==> NothingIn(Views(segments)) by {
        if !isOpen && old(active) != null { RolledNothing(old(View()), usable); }
      }
    }

    /** Seals the active segment, if there is one, and opens the next one. */
    method RollOver(usable: bool)
      requires Sound()
      modifies this, active
      ensures Sound() && isOpen == old(isOpen) && first == old(first) && attempts == old(attempts) && fresh(active)
      ensures active.View() == SegmentState([], usable)
      ensures old(active) != null ==> View() == Rolled(old(View()), usable)
      ensures old(active) == null ==> segments == old(segments) && Views(segments) == old(Views(segments))
    {
      hide Written;
      if active != null {
        active.Seal();
        ViewsSnoc(segments, active);
        segments := segments + [active];
      }
      nextNumber := nextNumber + 1;
      active := new Segment(fence.Current(), usable);
    }

    /** Reads every segment, oldest first, and the active one last, if there is one. */
    method CollectEntriesForReplay() returns (all: seq<Record>)
      requires Valid()
      modifies (if active == null then {} else {active})`pos, (set s | s in segments)`pos
      ensures Valid() && Views(segments) == old(Views(segments))
      ensures active != null ==> View() == old(View())
      ensures all == RecordsOf(Acknowledged(attempts))
    {
      hide Written, RecordsOf, Inv, Stored, Acknowledged, Views;
      StoredIsAcknowledged();
      all := CollectSealed();
      if active != null {
        var records := active.ReadAllEntries();
        StoredSnoc(Views(segments), active.View());
        RecordsAppend(Stored(Views(segments)), active.entries);
        all := all + records;
      }
    }

    lemma StoredIsAcknowledged()
      requires Valid()
      ensures active == null ==> Stored(Views(segments)) == Acknowledged(attempts)
      ensures active != null ==> Stored(Views(segments) + [active.View()]) == Acknowledged(attempts)
    {
      hide Written, Views, Stored, Full, Consecutive;
      if !isOpen {
        StoredNothing(Views(segments));
        if active != null {
          StoredSnoc(Views(segments), active.View());
        }
      }
    }

    method CollectSealed() returns (all: seq<Record>)
      requires Sound()
      modifies (set s | s in segments)`pos
      ensures Sound() && Views(segments) == old(Views(segments))
      ensures all == RecordsOf(Stored(Views(segments)))
    {
      hide Written, RecordsOf, Stored;
      all := [];
      NothingStored(segments);
      for i := 0 to |segments|
        invariant Sound() && Views(segments) == old(Views(segments))
        invariant all == RecordsOf(Stored(Views(segments[..i])))
      {
        var records := segments[i].ReadAllEntries();
        assert segments[..i + 1] == segments[..i] + [segments[i]];
        ViewsSnoc(segments[..i], segments[i]);
        StoredSnoc(Views(segments[..i]), segments[i].View());
        RecordsAppend(Stored(Views(segments[..i])), segments[i].entries);
        all := all + records;
      }
      assert segments[..|segments|] == segments;
    }
  }

  lemma RolledNothing(m: ManagerState, usable: bool)
    requires NothingIn(m.closed) && m.active.entries == []
    ensures NothingIn(Rolled(m, usable).closed)
  {
  }

  lemma NothingStored(segments: seq<Segment>)
    ensures RecordsOf(Stored(Views(segments[..0]))) == []
  {
    assert Views(segments[..0]) == [];
  }

  ghost function Views(segments: seq<Segment>): (vs: seq<SegmentState>)
    reads segments
    ensures |vs| == |segments|
  {
    seq(|segments|, i requires 0 <= i < |segments| reads segments => segments[i].View())
  }

  lemma ViewsSnoc(segments: seq<Segment>, s: Segment)
    ensures Views(segments + [s]) == Views(segments) + [s.View()]
  {
  }
}
