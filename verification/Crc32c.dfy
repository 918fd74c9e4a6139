/** CRC32C, the Castagnoli checksum of section 12.1 of RFC 3720, as the repository computes it:
    one bit at a time (boot.meta, black box) and by a 256-entry table (frames, write-ahead log,
    replay files). The two forms are the same function, and a message followed by its checksum
    cannot be changed inside four adjacent bytes without the checksum showing it. */
module Crc32c {

  import opened Words

  /** The reflected Castagnoli polynomial. */
  const POLY: bv32 := 0x82F63B78

  /** The register starts here, and the final register is xored with it. */
  const INIT: bv32 := 0xFFFFFFFF

  // The register operations have names so that the solver can match on them.

  function Xor(a: bv32, b: bv32): bv32 {
    a ^ b
  }

  predicate Odd(c: bv32) {
    c & 1 == 1
  }

  function Half(c: bv32): bv32 {
    c >> 1
  }

  function LowByte(x: bv32): byte {
    (x & 0xFF) as byte
  }

  function Above(x: bv32): bv32 {
    x >> 8
  }

  /** One shift of the register. */
  function Step(c: bv32): bv32 {
    if Odd(c) then Xor(Half(c), POLY) else Half(c)
  }

  function Step8(c: bv32): bv32 {
    Step(Step(Step(Step(Step(Step(Step(Step(c))))))))
  }

  function Steps(n: nat, c: bv32): bv32 {
    if n == 0 then c else Step(Steps(n - 1, c))
  }

  /** The register after one more message byte. */
  function FeedByte(c: bv32, b: byte): bv32 {
    Step8(Xor(c, b as bv32))
  }

  /** The register after a message, first byte first. */
  function Feed(c: bv32, data: seq<byte>): bv32 {
    if data == [] then c else FeedByte(Feed(c, data[..|data| - 1]), data[|data| - 1])
  }

  /** The checksum of a message. */
  function Crc(data: seq<byte>): bv32 {
    Xor(Feed(INIT, data), INIT)
  }

  // ---------- The register step is linear and injective ----------

  lemma XorOdd(a: bv32, b: bv32)
    ensures Odd(Xor(a, b)) <==> (Odd(a) != Odd(b))
    ensures Half(Xor(a, b)) == Xor(Half(a), Half(b))
  {
  }

  lemma XorAssociative(a: bv32, b: bv32, c: bv32)
    ensures Xor(Xor(a, b), c) == Xor(a, Xor(b, c))
  {
  }

  lemma XorCommutative(a: bv32, b: bv32)
    ensures Xor(a, b) == Xor(b, a)
  {
  }

  lemma XorCancels(a: bv32, b: bv32)
    ensures Xor(Xor(a, b), b) == a
  {
  }

  lemma XorShuffle(a: bv32, b: bv32, p: bv32)
    ensures Xor(Xor(a, p), b) == Xor(Xor(a, b), p) == Xor(a, Xor(b, p))
    ensures Xor(Xor(a, p), Xor(b, p)) == Xor(a, b)
  {
    hide Xor;
    XorAssociative(a, p, b);
    XorCommutative(p, b);
    XorAssociative(a, b, p);
    XorAssociative(Xor(a, p), b, p);
    XorCancels(Xor(a, b), p);
  }

  lemma StepXor(a: bv32, b: bv32)
    ensures Step(Xor(a, b)) == Xor(Step(a), Step(b))
  {
    hide Xor, Odd, Half;
    XorOdd(a, b);
    XorShuffle(Half(a), Half(b), POLY);
  }

  lemma Step8Xor(a: bv32, b: bv32)
    ensures Step8(Xor(a, b)) == Xor(Step8(a), Step8(b))
  {
    hide Xor, Step, Steps, Step8;
    StepsXor(8, a, b);
    Steps8(a);
    Steps8(b);
    Steps8(Xor(a, b));
  }

  lemma Steps8(c: bv32)
    ensures Steps(8, c) == Step8(c)
  {
    hide Step;
    assert Steps(1, c) == Step(c);
    assert Steps(2, c) == Step(Steps(1, c));
    assert Steps(3, c) == Step(Steps(2, c));
    assert Steps(4, c) == Step(Steps(3, c));
    assert Steps(5, c) == Step(Steps(4, c));
    assert Steps(6, c) == Step(Steps(5, c));
    assert Steps(7, c) == Step(Steps(6, c));
  }

  lemma {:induction false} StepsXor(n: nat, a: bv32, b: bv32)
    ensures Steps(n, Xor(a, b)) == Xor(Steps(n, a), Steps(n, b))
  {
    hide Xor, Step;
    if n > 0 {
      StepsXor(n - 1, a, b);
      StepXor(Steps(n - 1, a), Steps(n - 1, b));
    }
  }

  lemma StepInjective(a: bv32, b: bv32)
    requires Step(a) == Step(b)
    ensures a == b
  {
  }

  lemma {:induction false} StepsInjective(n: nat, a: bv32, b: bv32)
    requires Steps(n, a) == Steps(n, b)
    ensures a == b
  {
    hide Step;
    if n > 0 {
      StepInjective(Steps(n - 1, a), Steps(n - 1, b));
      StepsInjective(n - 1, a, b);
    }
  }

  /** Eight steps only shift a register whose low byte is zero. */
  lemma Step8OfHigh(c: bv32)
    requires c & 0xFF == 0
    ensures Step8(c) == c >> 8
  {
  }

  /** A difference that leaves the top byte clean had a clean low byte. */
  lemma Step8TopByte(c: bv32)
    requires Step8(c) <= 0x00FF_FFFF
    ensures c & 0xFF == 0
  {
  }

  lemma FeedOneMore(c: bv32, data: seq<byte>, k: nat, before: bv32)
    requires k < |data| && Feed(c, data[..k]) == before
    ensures Feed(c, data[..k + 1]) == FeedByte(before, data[k])
  {
    hide FeedByte;
    assert data[..k + 1][..k] == data[..k];
  }

  function Digits(): seq<byte> {
    [0x31, 0x32, 0x33, 0x34, 0x35, 0x36, 0x37, 0x38, 0x39]
  }

  lemma CheckRegister()
    ensures Feed(INIT, Digits()[..4]) == 0x09C50B11
  {
    hide Feed;
    FeedNothing(INIT, Digits());
    FeedOneMore(INIT, Digits(), 0, 0xFFFFFFFF);
    FeedOneMore(INIT, Digits(), 1, 0x6F0A661C);
    FeedOneMore(INIT, Digits(), 2, 0x8CAA3B9F);
    FeedOneMore(INIT, Digits(), 3, 0xEF84D04D);
  }

  /** The published check value: the checksum of the digits 1 to 9 is 0xE3069283. */
  lemma CheckValue()
    ensures Crc(Digits()) == 0xE306_9283
  {
    hide Feed;
    CheckRegister();
    FeedOneMore(INIT, Digits(), 4, 0x09C50B11);
    FeedOneMore(INIT, Digits(), 5, 0xE72EDCCA);
    FeedOneMore(INIT, Digits(), 6, 0xBECA8E79);
    FeedOneMore(INIT, Digits(), 7, 0xEDBD6815);
    FeedOneMore(INIT, Digits(), 8, 0x9F787F65);
    assert Digits()[..9] == Digits();
  }

  lemma FeedNothing(c: bv32, data: seq<byte>)
    ensures Feed(c, data[..0]) == c
  {
  }

  // ---------- The table form ----------

  /** Entry i of the 256-entry table: eight steps of i. */
  function TableEntry(i: byte): bv32 {
    Step8(i as bv32)
  }

  /** What the table form does with one message byte. */
  function TableFeedByte(c: bv32, b: byte): bv32 {
    Xor(TableEntry(LowByte(Xor(c, b as bv32))), Above(c))
  }

  /** One table lookup does the work of eight steps. */
  lemma TableStep(c: bv32, b: byte)
    ensures TableFeedByte(c, b) == FeedByte(c, b)
  {
    hide Xor, Step8;
    var x := Xor(c, b as bv32);
    SplitLowByte(x);
    Step8Xor(x & 0xFF, x & 0xFFFF_FF00);
    Step8OfHigh(x & 0xFFFF_FF00);
    XorLowByte(c, b);
  }

  /** The register after a message, in the table form. */
  function TableFeed(c: bv32, data: seq<byte>): bv32 {
    if data == [] then c else TableFeedByte(TableFeed(c, data[..|data| - 1]), data[|data| - 1])
  }

  /** The table form and the bit-by-bit form are one function. */
  lemma {:induction false} TableFormIsBitwise(c: bv32, data: seq<byte>)
    ensures TableFeed(c, data) == Feed(c, data)
  {
    hide FeedByte, TableFeedByte;
    if data != [] {
      TableFormIsBitwise(c, data[..|data| - 1]);
      TableStep(Feed(c, data[..|data| - 1]), data[|data| - 1]);
    }
  }

  lemma SplitLowByte(x: bv32)
    ensures x == Xor(x & 0xFF, x & 0xFFFF_FF00)
    ensures ((x & 0xFF) as byte) as bv32 == x & 0xFF
    ensures (x & 0xFFFF_FF00) & 0xFF == 0
  {
  }

  lemma XorLowByte(c: bv32, b: byte)
    ensures (Xor(c, b as bv32) & 0xFFFF_FF00) >> 8 == c >> 8
  {
  }

  // ---------- The register tells messages apart ----------

  lemma {:induction false} FeedAppend(c: bv32, a: seq<byte>, b: seq<byte>)
    ensures Feed(c, a + b) == Feed(Feed(c, a), b)
  {
    hide FeedByte;
    if b == [] {
      assert a + b == a;
    } else {
      var n := |b| - 1;
      assert (a + b)[..|a + b| - 1] == a + b[..n];
      FeedAppend(c, a, b[..n]);
    }
  }

  lemma FeedByteInjective(c: bv32, d: bv32, b: byte)
    requires FeedByte(c, b) == FeedByte(d, b)
    ensures c == d
  {
    hide Xor, Steps, Step8;
    var x := b as bv32;
    Steps8(Xor(c, x));
    Steps8(Xor(d, x));
    StepsInjective(8, Xor(c, x), Xor(d, x));
    XorCancels(c, x);
    XorCancels(d, x);
  }

  /** Two registers that differ stay different, whatever is fed next. */
  lemma {:induction false} FeedInjective(c: bv32, d: bv32, data: seq<byte>)
    requires Feed(c, data) == Feed(d, data)
    ensures c == d
  {
    hide FeedByte;
    if data != [] {
      var n := |data| - 1;
      FeedByteInjective(Feed(c, data[..n]), Feed(d, data[..n]), data[n]);
      FeedInjective(c, d, data[..n]);
    }
  }

  /** The top m bytes of a register are zero. */
  predicate Clean(m: nat, c: bv32)
    requires m <= 4
  {
    match m
    case 0 => true
    case 1 => c <= 0x00FF_FFFF
    case 2 => c <= 0xFFFF
    case 3 => c <= 0xFF
    case 4 => c == 0
  }

  lemma CleanDown(m: nat, c: bv32)
    requires 1 <= m <= 4 && Clean(m, c)
    ensures c <= 0x00FF_FFFF
  {
  }

  lemma CleanShift(m: nat, e: bv32)
    requires 1 <= m <= 4 && Clean(m, e >> 8)
    requires e & 0xFF == 0
    ensures Clean(m - 1, e)
  {
  }

  /** If eight steps of e leave the top m bytes clean, e was a byte-shifted value. */
  lemma CleanTop(m: nat, e: bv32)
    requires 1 <= m <= 4
    requires Clean(m, Step8(e))
    ensures e & 0xFF == 0
    ensures Clean(m - 1, e)
  {
    hide Step8, Clean;
    CleanDown(m, Step8(e));
    Step8TopByte(e);
    Step8OfHigh(e);
    CleanShift(m, e);
  }

  // A byte only touches the low byte of a register.

  lemma ByteIsLow1(c: bv32, b: byte)
    requires Xor(c, b as bv32) <= 0x00FF_FFFF
    ensures c <= 0x00FF_FFFF
  {
  }

  lemma ByteIsLow2(c: bv32, b: byte)
    requires Xor(c, b as bv32) <= 0xFFFF
    ensures c <= 0xFFFF
  {
  }

  lemma ByteIsLow3(c: bv32, b: byte)
    requires Xor(c, b as bv32) <= 0xFF
    ensures c <= 0xFF
  {
  }

  lemma ByteIsLow(m: nat, c: bv32, b: byte)
    requires m <= 3
    requires Clean(m, Xor(c, b as bv32))
    ensures Clean(m, c)
  {
    hide Xor;
    match m
    case 0 =>
    case 1 => ByteIsLow1(c, b);
    case 2 => ByteIsLow2(c, b);
    case 3 => ByteIsLow3(c, b);
  }

  lemma XorOfBytes(u: byte, v: byte)
    ensures Xor(u as bv32, v as bv32) == (u ^ v) as bv32
  {
  }

  lemma ZeroByte(u: byte, v: byte)
    requires Xor(0, (u ^ v) as bv32) & 0xFF == 0
    ensures u == v
  {
  }

  /** Feeding two bytes to two registers feeds their difference to the registers' difference. */
  lemma FeedByteDifference(c: bv32, d: bv32, u: byte, v: byte)
    ensures Xor(FeedByte(c, u), FeedByte(d, v)) == Step8(Xor(Xor(c, d), (u ^ v) as bv32))
  {
    hide Xor, Step8;
    var x, y := u as bv32, v as bv32;
    Step8Xor(Xor(c, x), Xor(d, y));
    calc {
      Xor(Xor(c, x), Xor(d, y));
      { XorAssociative(c, x, Xor(d, y)); XorCommutative(x, Xor(d, y)); }
      Xor(c, Xor(Xor(d, y), x));
      { XorAssociative(d, y, x); XorCommutative(y, x); }
      Xor(c, Xor(d, Xor(x, y)));
      { XorAssociative(c, d, Xor(x, y)); XorOfBytes(u, v); }
      Xor(Xor(c, d), (u ^ v) as bv32);
    }
  }

  /** If two bytes leave two registers alike in their top m + 1 bytes, the registers were alike
      in their top m bytes; and equal registers were fed equal bytes. */
  lemma WindowStep(m: nat, c: bv32, d: bv32, u: byte, v: byte)
    requires m <= 3
    requires Clean(m + 1, Xor(FeedByte(c, u), FeedByte(d, v)))
    ensures Clean(m, Xor(c, d))
    ensures c == d ==> u == v
  {
    hide Xor, Step8, FeedByte, Clean;
    FeedByteDifference(c, d, u, v);
    var e := Xor(Xor(c, d), (u ^ v) as bv32);
    CleanTop(m + 1, e);
    ByteIsLow(m, Xor(c, d), u ^ v);
    if c == d {
      SelfXor(c);
      ZeroByte(u, v);
    }
  }

  /** Up to four bytes fed to one register are determined by what they make of it. */
  lemma {:induction false} WindowInjective(c: bv32, u: seq<byte>, v: seq<byte>)
    requires |u| == |v| <= 4
    requires Clean(|u|, Xor(Feed(c, u), Feed(c, v)))
    ensures u == v
  {
    hide FeedByte, Xor, Clean;
    if u != [] {
      var n := |u| - 1;
      WindowStep(n, Feed(c, u[..n]), Feed(c, v[..n]), u[n], v[n]);
      WindowInjective(c, u[..n], v[..n]);
      assert u == u[..n] + [u[n]] && v == v[..n] + [v[n]];
    }
  }

  lemma SelfXor(c: bv32)
    ensures Xor(c, c) == 0
  {
  }

  /** Two messages that differ only inside four adjacent bytes leave different registers. */
  lemma BurstDetected(prefix: seq<byte>, u: seq<byte>, v: seq<byte>, suffix: seq<byte>)
    requires |u| == |v| <= 4 && u != v
    ensures Feed(INIT, prefix + u + suffix) != Feed(INIT, prefix + v + suffix)
  {
    hide Feed, Xor;
    var c := Feed(INIT, prefix);
    FeedAppend(INIT, prefix + u, suffix);
    FeedAppend(INIT, prefix + v, suffix);
    FeedAppend(INIT, prefix, u);
    FeedAppend(INIT, prefix, v);
    if Feed(INIT, prefix + u + suffix) == Feed(INIT, prefix + v + suffix) {
      FeedInjective(Feed(c, u), Feed(c, v), suffix);
      SelfXor(Feed(c, u));
      WindowInjective(c, u, v);
    }
  }

  // ---------- A message followed by its checksum ----------

  /** The register every correctly checksummed message leaves behind. */
  function Residue(): bv32 {
    Step8(Step8(Step8(Step8(INIT))))
  }

  /** Eight steps consume the low byte of x and keep the rest for later. */
  lemma FeedAhead(c: bv32, x: bv32)
    ensures Step8(Xor(c, x)) == Xor(FeedByte(c, LowByte(x)), Above(x))
  {
    hide Xor, Step8;
    SplitLowByte(x);
    XorAssociative(c, x & 0xFF, x & 0xFFFF_FF00);
    Step8Xor(Xor(c, x & 0xFF), x & 0xFFFF_FF00);
    Step8OfHigh(x & 0xFFFF_FF00);
    assert (x & 0xFFFF_FF00) >> 8 == x >> 8;
  }

  lemma BytesAreLow(w: bv32)
    ensures Bytes32(w) == [LowByte(w), LowByte(Above(w)), LowByte(Above(Above(w))), LowByte(Above(Above(Above(w))))]
    ensures Above(Above(Above(Above(w)))) == 0
  {
  }

  lemma FeedFour(c: bv32, b0: byte, b1: byte, b2: byte, b3: byte)
    ensures Feed(c, [b0, b1, b2, b3]) == FeedByte(FeedByte(FeedByte(FeedByte(c, b0), b1), b2), b3)
  {
    hide FeedByte;
    assert [b0, b1, b2, b3][..3] == [b0, b1, b2];
    assert [b0, b1, b2][..2] == [b0, b1];
    assert [b0, b1][..1] == [b0];
    assert Feed(c, [b0]) == FeedByte(c, b0);
    assert Feed(c, [b0, b1]) == FeedByte(Feed(c, [b0]), b1);
  }

  /** Four bytes fed one by one are one word fed at once. */
  lemma FeedWord(c: bv32, w: bv32)
    ensures Feed(c, Bytes32(w)) == Step8(Step8(Step8(Step8(Xor(c, w)))))
  {
    hide Feed, FeedByte, Step8, Xor, Bytes32, LowByte, Above;
    var w1 := Above(w);
    var w2 := Above(w1);
    var w3 := Above(w2);
    BytesAreLow(w);
    FeedFour(c, LowByte(w), LowByte(w1), LowByte(w2), LowByte(w3));
    FeedAhead(c, w);
    var c1 := FeedByte(c, LowByte(w));
    FeedAhead(c1, w1);
    var c2 := FeedByte(c1, LowByte(w1));
    FeedAhead(c2, w2);
    var c3 := FeedByte(c2, LowByte(w2));
    FeedAhead(c3, w3);
    XorZero(FeedByte(c3, LowByte(w3)));
  }

  lemma XorZero(c: bv32)
    ensures Xor(c, 0) == c
  {
  }

  lemma Inverted(c: bv32)
    ensures Xor(c, Xor(c, INIT)) == INIT
  {
  }

  /** A stored word is the message's checksum exactly when feeding it leaves the residue. */
  lemma ChecksumMatches(data: seq<byte>, stored: bv32)
    ensures stored == Crc(data) <==> Feed(INIT, data + Bytes32(stored)) == Residue()
  {
    hide Feed, Step8, Xor, Bytes32, Clean;
    var c := Feed(INIT, data);
    FeedAppend(INIT, data, Bytes32(stored));
    FeedWord(c, stored);
    FeedWord(c, Crc(data));
    Inverted(c);
    if Feed(c, Bytes32(stored)) == Residue() {
      SelfClean(Residue());
      WindowInjective(c, Bytes32(stored), Bytes32(Crc(data)));
      WordOfBytes32(stored);
      WordOfBytes32(Crc(data));
    }
  }

  lemma SelfClean(c: bv32)
    ensures Clean(4, Xor(c, c))
  {
  }

  // ---------- Damage confined to a window ----------

  /** a and b have one length and differ only at positions p .. p + 3. */
  ghost predicate DifferWithin(a: seq<byte>, b: seq<byte>, p: nat) {
    && |a| == |b|
    && forall i :: 0 <= i < |a| && !(p <= i < p + 4) ==> a[i] == b[i]
  }

  /** Equal-length messages that differ only inside four adjacent bytes have different checksums. */
  lemma WindowDetected(a: seq<byte>, b: seq<byte>, p: nat)
    requires DifferWithin(a, b, p) && a != b
    ensures Feed(INIT, a) != Feed(INIT, b)
    ensures Crc(a) != Crc(b)
  {
    hide Feed, Xor;
    var lo := if p <= |a| then p else |a|;
    var hi := if p + 4 <= |a| then p + 4 else |a|;
    assert a == a[..lo] + a[lo..hi] + a[hi..];
    assert b == a[..lo] + b[lo..hi] + a[hi..];
    BurstDetected(a[..lo], a[lo..hi], b[lo..hi], a[hi..]);
    XorCancels(Feed(INIT, a), INIT);
    XorCancels(Feed(INIT, b), INIT);
  }

  /** A checksummed message whose bytes, checksum included, are damaged inside four adjacent
      bytes no longer matches its checksum. */
  lemma DamageDetected(data: seq<byte>, data': seq<byte>, stored': bv32, p: nat)
    requires DifferWithin(data + Bytes32(Crc(data)), data' + Bytes32(stored'), p)
    requires data + Bytes32(Crc(data)) != data' + Bytes32(stored')
    ensures stored' != Crc(data')
  {
    hide Feed, Bytes32, Crc, DifferWithin;
    ChecksumMatches(data, Crc(data));
    ChecksumMatches(data', stored');
    WindowDetected(data + Bytes32(Crc(data)), data' + Bytes32(stored'), p);
  }

  // ---------- The two implementations ----------

  /** The bit-by-bit form. */
  method BitwiseCrc(data: seq<byte>) returns (crc: bv32)
    ensures crc == Crc(data)
  {
    hide FeedByte, Step, Xor;
    crc := INIT;
    for i := 0 to |data|
      invariant crc == Feed(INIT, data[..i])
    {
      assert data[..i + 1][..i] == data[..i];
      ghost var before := crc;
      crc := Xor(crc, data[i] as bv32);
      ghost var mixed := crc;
      for j := 0 to 8
        invariant crc == Steps(j, mixed)
      {
        crc := Step(crc);
      }
      assert crc == FeedByte(before, data[i]) by {
        Steps8(mixed);
        FeedLast(before, data[i]);
      }
    }
    assert data[..|data|] == data;
    crc := Xor(crc, INIT);
  }

  lemma FeedLast(c: bv32, b: byte)
    ensures Step8(Xor(c, b as bv32)) == FeedByte(c, b)
  {
  }

  /** The table form: a table filled on first use and then looked up once per byte. */
  class TableCrc {
    const table: array<bv32>
    var ready: bool

    ghost predicate Valid()
      reads this, table
    {
      && table.Length == 256
      && (ready ==> forall i :: 0 <= i < 256 ==> table[i] == TableEntry(i as byte))
    }

    constructor ()
      ensures Valid() && fresh(table)
    {
      table := new bv32[256](_ => 0);
      ready := false;
    }

    method EnsureInit()
      requires Valid()
      modifies this, table
      ensures Valid() && ready
    {
      hide Step, Step8;
      if ready { return; }
      for i := 0 to 256
        invariant !ready
        invariant forall k :: 0 <= k < i ==> table[k] == TableEntry(k as byte)
      {
        var crc := (i as byte) as bv32;
        for j := 0 to 8
          invariant crc == Steps(j, (i as byte) as bv32)
        {
          crc := Step(crc);
        }
        Steps8((i as byte) as bv32);
        table[i] := crc;
      }
      ready := true;
    }

    method Compute(data: seq<byte>) returns (crc: bv32)
      requires Valid()
      modifies this, table
      ensures Valid() && crc == Crc(data)
    {
      hide FeedByte, Xor, TableEntry, LowByte, Above;
      EnsureInit();
      crc := INIT;
      for i := 0 to |data|
        invariant Valid() && ready
        invariant crc == Feed(INIT, data[..i])
      {
        assert data[..i + 1][..i] == data[..i];
        TableStep(crc, data[i]);
        var index := LowByte(Xor(crc, data[i] as bv32));
        ByteIndex(index);
        crc := Xor(table[index as int], Above(crc));
      }
      assert data[..|data|] == data;
      crc := Xor(crc, INIT);
    }
  }

  lemma ByteIndex(b: byte)
    ensures 0 <= b as int < 256 && (b as int) as byte == b
  {
  }
}
