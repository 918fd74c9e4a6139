/** Reading a segment of the write-ahead log: what survives a torn tail or a damaged byte. */
module WalLog {
  import opened Crc32c
  import opened Words
  import opened WalEntry

  /** The bytes of a list of entries, as written one after the other. */
  function Written(es: seq<Entry>): seq<byte> {
    if es == [] then [] else Printed(es[0]) + Written(es[1..])
  }

  ghost predicate Loggable(es: seq<Entry>) {
    forall e :: e in es ==> e.Loggable()
  }

  function RecordsOf(es: seq<Entry>): (rs: seq<Record>)
    ensures |rs| == |es|
  {
    seq(|es|, i requires 0 <= i < |es| => RecordOf(VERSION, es[i]))
  }

  function Drop(data: seq<byte>, n: nat): seq<byte> {
    if n <= |data| then data[n..] else []
  }

  /** The bytes an accepted entry occupies, padding included. */
  function Extent(data: seq<byte>): nat
    requires |data| >= OVERHEAD
  {
    Aligned(OVERHEAD + Size(LengthOf(data)))
  }

  /** An accepted entry whose bytes are all there. */
  predicate Whole(data: seq<byte>) {
    Validate(data).status == Ok && Fits(data)
  }

  /** The reader: entries up to the first one that does not validate. */
  function Scan(data: seq<byte>): seq<Record>
    decreases |data|
  {
    hide Validate;
    if data == [] || !Whole(data) then []
    else
      AcceptedFits(data);
      [Parse(data)] + Scan(Drop(data, Extent(data)))
  }

  /** Reading never accepts an entry whose size sum wraps, so it stays inside the data. */
  predicate Inside(data: seq<byte>)
    decreases |data|
  {
    hide Validate;
    || data == []
    || Validate(data).status != Ok
    || (Fits(data) && (AcceptedFits(data); Inside(Drop(data, Extent(data)))))
  }

  lemma ScanStep(data: seq<byte>)
    requires Whole(data)
    ensures |data| >= OVERHEAD && |data| >= OVERHEAD + Size(LengthOf(data))
    ensures Scan(data) == [Parse(data)] + Scan(Drop(data, Extent(data)))
    ensures Inside(data) == Inside(Drop(data, Extent(data)))
    ensures Parse(data).payloadLen == LengthOf(data)
  {
    hide Validate, Size, Word16, Word32, Word64, FooterCrcOf;
    AcceptedFits(data);
  }

  /** Nothing is read from bytes that do not validate. */
  lemma ScanNothing(data: seq<byte>)
    requires data == [] || Validate(data).status != Ok
    ensures Scan(data) == [] && Inside(data)
  {
    hide Validate;
  }

  lemma InsideStep(data: seq<byte>)
    requires Inside(data) && data != [] && Validate(data).status == Ok
    ensures Whole(data)
  {
    hide Validate;
  }

  /** The scanning loop, by offset. The parser needs all bytes of an entry that validates. */
  method ReadEntries(data: seq<byte>) returns (records: seq<Record>)
    requires Inside(data)
    ensures records == Scan(data)
  {
    hide Size, Parse, Validate, Scan, LengthOf, Inside, Whole;
    records := [];
    var offset := 0;
    while offset < |data|
      invariant records + Scan(Drop(data, offset)) == Scan(data)
      invariant Inside(Drop(data, offset))
      decreases |data| - offset
    {
      var rest := data[offset..];
      if Validate(rest).status != Ok {
        ScanNothing(rest);
        return;
      }
      InsideStep(rest);
      ScanStep(rest);
      var record := Parse(rest);
      var size := Aligned(OVERHEAD + Size(record.payloadLen));
      assert Drop(rest, size) == Drop(data, offset + size);
      assert records + ([record] + Scan(Drop(rest, size))) == (records + [record]) + Scan(Drop(rest, size));
      records := records + [record];
      offset := offset + size;
    }
    assert Drop(data, offset) == [];
    ScanNothing([]);
  }

  // ---------- Intact entries ----------

  /** Reading starts by giving back an intact entry, whatever its padding holds. */
  lemma ScanOne(e: Entry, data: seq<byte>)
    requires e.Loggable() && Unpadded(VERSION, e) <= data
    ensures Scan(data) == [RecordOf(VERSION, e)] + Scan(Drop(data, |Printed(e)|))
    ensures Inside(data) == Inside(Drop(data, |Printed(e)|))
  {
    hide Size, Parse, Validate, Unpadded, Scan, RecordOf, LengthOf, Inside;
    PrintedIsAccepted(VERSION, e, data);
    ScanStep(data);
  }

  /** Intact entries are given back, and reading goes on behind them. */
  lemma {:induction false} ScanIntact(es: seq<Entry>, tail: seq<byte>)
    requires Loggable(es)
    ensures Scan(Written(es) + tail) == RecordsOf(es) + Scan(tail)
    ensures Inside(Written(es) + tail) == Inside(tail)
  {
    hide Scan, Inside, RecordsOf, RecordOf, Unpadded, Printed, Written;
    if es == [] {
      WrittenNone(es, tail);
    } else {
      var rest := Written(es[1..]) + tail;
      var data := Printed(es[0]) + rest;
      WrittenFirst(es, tail);
      UnpaddedFirst(es[0], rest, data);
      ScanOne(es[0], data);
      assert Drop(data, |Printed(es[0])|) == rest;
      ScanIntact(es[1..], tail);
      RecordsFirst(es);
    }
  }

  lemma WrittenNone(es: seq<Entry>, tail: seq<byte>)
    requires es == []
    ensures Written(es) + tail == tail && RecordsOf(es) == []
  {
  }

  lemma WrittenFirst(es: seq<Entry>, tail: seq<byte>)
    requires es != []
    ensures Written(es) + tail == Printed(es[0]) + (Written(es[1..]) + tail)
  {
    hide Printed;
  }

  lemma RecordsFirst(es: seq<Entry>)
    requires es != []
    ensures RecordsOf(es) == [RecordOf(VERSION, es[0])] + RecordsOf(es[1..])
  {
    hide RecordOf;
  }

  lemma UnpaddedFirst(e: Entry, rest: seq<byte>, data: seq<byte>)
    requires data == Printed(e) + rest
    ensures Unpadded(VERSION, e) <= data
  {
    hide Unpadded;
  }

  lemma {:induction false} WrittenAppend(es: seq<Entry>, fs: seq<Entry>)
    ensures Written(es + fs) == Written(es) + Written(fs)
  {
    hide Printed;
    if es == [] {
      assert es + fs == fs;
    } else {
      assert (es + fs)[0] == es[0] && (es + fs)[1..] == es[1..] + fs;
      WrittenAppend(es[1..], fs);
    }
  }

  // ---------- A torn tail ----------

  /** Where the unpadded bytes of entry i end. */
  function EndOf(es: seq<Entry>, i: nat): nat
    requires i < |es|
  {
    |Written(es[..i])| + OVERHEAD + |es[i].payload|
  }

  /** A log cut at any byte k gives back exactly the entries whose unpadded bytes lie within k. */
  lemma {:induction false} TornTail(es: seq<Entry>, k: nat) returns (m: nat)
    requires Loggable(es) && k <= |Written(es)|
    ensures m <= |es| && forall i :: 0 <= i < |es| ==> (i < m <==> EndOf(es, i) <= k)
    ensures Scan(Written(es)[..k]) == RecordsOf(es[..m]) && Inside(Written(es)[..k])
  {
    hide Crc, Scan, Inside, RecordOf, Unpadded, Printed;
    var data := Written(es)[..k];
    if es == [] {
      m := 0;
      ScanNothing(data);
    } else {
      var n := |Printed(es[0])|;
      LaterEnds(es);
      if k < OVERHEAD + |es[0].payload| {
        m := 0;
        CutFirst(es[0], Written(es[1..]), data);
      } else {
        var k' := if n <= k then k - n else 0;
        var m' := TornTail(es[1..], k');
        m := m' + 1;
        assert Unpadded(VERSION, es[0]) <= data by { UnpaddedPrefix(es[0], Written(es[1..]), data); }
        ScanOne(es[0], data);
        assert Drop(data, n) == Written(es[1..])[..k'];
        assert es[..m][1..] == es[1..][..m'];
        assert RecordsOf(es[..m]) == [RecordOf(VERSION, es[0])] + RecordsOf(es[1..][..m']);
      }
    }
  }

  lemma LaterEnds(es: seq<Entry>)
    requires es != []
    ensures EndOf(es, 0) == OVERHEAD + |es[0].payload| <= |Printed(es[0])|
    ensures forall i :: 1 <= i < |es| ==> EndOf(es, i) == |Printed(es[0])| + EndOf(es[1..], i - 1)
  {
    hide Printed;
    forall i | 1 <= i < |es|
      ensures EndOf(es, i) == |Printed(es[0])| + EndOf(es[1..], i - 1)
    {
      assert es[..i][1..] == es[1..][..i - 1];
    }
  }

  lemma CutFirst(e: Entry, rest: seq<byte>, data: seq<byte>)
    requires e.Loggable() && data <= Printed(e) + rest && |data| < OVERHEAD + |e.payload|
    ensures Scan(data) == [] && Inside(data)
  {
    hide Crc, Validate, Unpadded;
    assert data == Printed(e)[..|data|];
    CutIsRejected(e, |data|);
  }

  lemma UnpaddedPrefix(e: Entry, rest: seq<byte>, data: seq<byte>)
    requires data <= Printed(e) + rest && |data| >= OVERHEAD + |e.payload|
    ensures Unpadded(VERSION, e) <= data
  {
    hide Crc, Body;
    var u := Unpadded(VERSION, e);
    assert u == data[..|u|];
  }

  /** A crash while one more entry is being written costs nothing that was written before it. */
  lemma CrashWhileWriting(es: seq<Entry>, e: Entry, k: nat)
    requires Loggable(es) && e.Loggable() && k <= |Printed(e)|
    ensures Scan(Written(es) + Printed(e)[..k])
      == RecordsOf(es) + (if k < OVERHEAD + |e.payload| then [] else [RecordOf(VERSION, e)])
    ensures Inside(Written(es) + Printed(e)[..k])
  {
    hide Crc, Scan, Inside, RecordsOf, RecordOf, Unpadded, Printed, Written;
    var tail := Printed(e)[..k];
    ScanIntact(es, tail);
    assert Printed(e) + [] == Printed(e);
    if k < OVERHEAD + |e.payload| {
      CutFirst(e, [], tail);
    } else {
      UnpaddedPrefix(e, [], tail);
      ScanOne(e, tail);
      assert Drop(tail, |Printed(e)|) == [];
      ScanNothing([]);
    }
  }

  // ---------- A damaged byte ----------

  /** Damage inside four adjacent bytes of entry i, in its unpadded part, costs that entry and
      everything after it, and nothing else, unless it is one of the two pairs that cancel. */
  lemma DamagedEntry(es: seq<Entry>, i: nat, damaged: seq<byte>, rest: seq<byte>, p: nat)
    requires Loggable(es) && i < |es|
    requires var u := Unpadded(VERSION, es[i]);
      |damaged| == |u| && damaged != u && DifferWithin(u, damaged, p) && !Cancels(u, damaged)
    ensures Scan(Written(es[..i]) + damaged + rest) == RecordsOf(es[..i])
    ensures Inside(Written(es[..i]) + damaged + rest)
  {
    hide Crc, Scan, Inside, Validate, Unpadded, DifferWithin, Written, RecordsOf;
    var tail := damaged + rest;
    assert tail[..|damaged|] == damaged;
    assert tail[14..18] == damaged[14..18] && tail[18..22] == damaged[18..22];
    assert !Cancels(Unpadded(VERSION, es[i]), tail);
    DamageIsRejected(es[i], tail, p);
    ScanNothing(tail);
    ScanIntact(es[..i], tail);
    assert Written(es[..i]) + damaged + rest == Written(es[..i]) + tail;
  }

  /** Every position of a log lies in one entry. */
  lemma {:induction false} Locate(es: seq<Entry>, at: nat) returns (i: nat)
    requires at < |Written(es)|
    ensures i < |es| && |Written(es[..i])| <= at < |Written(es[..i])| + |Printed(es[i])|
  {
    hide Printed;
    if at < |Printed(es[0])| {
      i := 0;
    } else {
      var i' := Locate(es[1..], at - |Printed(es[0])|);
      i := i' + 1;
      assert es[..i][1..] == es[1..][..i'];
    }
  }

  /** One changed byte anywhere in a log: in the unpadded part of an entry it costs that entry and
      the later ones, in padding it costs nothing. */
  lemma DamagedByte(es: seq<Entry>, at: nat, b: byte) returns (i: nat)
    requires Loggable(es)
    requires at < |Written(es)| && b != Written(es)[at]
    ensures i < |es| && |Written(es[..i])| <= at < |Written(es[..i])| + |Printed(es[i])|
    ensures Scan(Written(es)[at := b]) == RecordsOf(if at < EndOf(es, i) then es[..i] else es)
    ensures Inside(Written(es)[at := b])
  {
    hide Crc, Scan, Inside, Validate, RecordsOf, Printed, Unpadded, Written;
    i := Locate(es, at);
    var before, after := Written(es[..i]), Written(es[i + 1..]);
    SplitAt(es, i);
    var q := at - |before|;
    var tail := Printed(es[i])[q := b] + after;
    assert Written(es)[at := b] == before + tail;
    ScanIntact(es[..i], tail);
    if at < EndOf(es, i) {
      DamagedFirst(es[i], q, b, after);
    } else {
      DamagedPadding(es[i], q, b, after);
      ScanIntact(es[i + 1..], []);
      ScanNothing([]);
      assert after + [] == after;
      AllRecords(es, i);
    }
  }

  lemma AllRecords(es: seq<Entry>, i: nat)
    requires i < |es|
    ensures RecordsOf(es) == RecordsOf(es[..i]) + ([RecordOf(VERSION, es[i])] + RecordsOf(es[i + 1..]))
  {
    hide RecordOf;
  }

  lemma SplitAt(es: seq<Entry>, i: nat)
    requires i < |es|
    ensures Written(es) == Written(es[..i]) + (Printed(es[i]) + Written(es[i + 1..]))
  {
    hide Printed, Written;
    Split(es, i);
    WrittenAppend(es[..i], [es[i]] + es[i + 1..]);
    WrittenCons(es[i], es[i + 1..]);
  }

  lemma Split<T>(s: seq<T>, i: nat)
    requires i < |s|
    ensures s == s[..i] + ([s[i]] + s[i + 1..])
  {
  }

  lemma WrittenCons(e: Entry, es: seq<Entry>)
    ensures Written([e] + es) == Printed(e) + Written(es)
  {
    hide Printed;
    assert ([e] + es)[1..] == es;
  }

  lemma DamagedFirst(e: Entry, q: nat, b: byte, after: seq<byte>)
    requires e.Loggable() && q < OVERHEAD + |e.payload| && b != Printed(e)[q]
    ensures Scan(Printed(e)[q := b] + after) == [] && Inside(Printed(e)[q := b] + after)
  {
    hide Crc, Validate, Unpadded;
    OneByteIsRejected(e, Printed(e)[q := b] + after, q, b);
  }

  lemma DamagedPadding(e: Entry, q: nat, b: byte, after: seq<byte>)
    requires e.Loggable() && OVERHEAD + |e.payload| <= q < |Printed(e)|
    ensures Scan(Printed(e)[q := b] + after) == [RecordOf(VERSION, e)] + Scan(after)
    ensures Inside(Printed(e)[q := b] + after) == Inside(after)
  {
    hide Crc, Scan, Inside, RecordOf, Unpadded;
    var data := Printed(e)[q := b] + after;
    ScanOne(e, data);
    assert Drop(data, |Printed(e)|) == after;
  }
}
