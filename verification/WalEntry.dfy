/** One entry of the write-ahead log: its printer, its validator and its parser. */
module WalEntry {
  import opened Crc32c
  import opened CrcCancel
  import opened Words

  const MAGIC: bv32 := 0x4844_5857
  const VERSION: bv16 := 1

  /** Magic and version; with the sequence id the header has 14 bytes, the checksummed fields
      after it another 8, and a footer of 4. */
  const SEQ_AT: nat := 6
  const HEADER_CRC_AT: nat := 14
  const LENGTH_AT: nat := 18
  const PAYLOAD_AT: nat := 22
  const OVERHEAD: nat := 26

  /** A 32-bit length as a number of bytes. */
  function Size(len: bv32): (n: nat)
    ensures n < U32
  {
    len as nat
  }

  /** What a writer logs: an id, and a payload passed with its length. The size sum is computed
      in 32 bits, which bounds the payload. */
  datatype Entry = Entry(seqId: bv64, len: bv32, payload: seq<byte>) {
    predicate Loggable() {
      |payload| == Size(len) && OVERHEAD + |payload| < U32
    }
  }

  /** What the parser returns. */
  datatype Record = Record(
    magic: bv32, version: bv16, seqId: bv64, headerCrc: bv32, payloadLen: bv32, payload: seq<byte>, footerCrc: bv32)

  // ---------- Layout ----------

  function Header(version: bv16, seqId: bv64): (s: seq<byte>)
    ensures |s| == 14
  {
    Bytes32(MAGIC) + Bytes16(version) + Bytes64(seqId)
  }

  function HeaderCrc(version: bv16, seqId: bv64, len: bv32): bv32 {
    Crc(Header(version, seqId) + Bytes32(len))
  }

  /** Everything the footer checksum covers. */
  function Body(version: bv16, e: Entry): (s: seq<byte>)
    ensures |s| == PAYLOAD_AT + |e.payload|
  {
    Header(version, e.seqId) + Bytes32(HeaderCrc(version, e.seqId, e.len)) + Bytes32(e.len) + e.payload
  }

  function Unpadded(version: bv16, e: Entry): (s: seq<byte>)
    ensures |s| == OVERHEAD + |e.payload|
  {
    Body(version, e) + Bytes32(Crc(Body(version, e)))
  }

  /** Entries start on 8-byte boundaries. */
  function Aligned(n: nat): (m: nat)
    ensures n <= m < n + 8 && m % 8 == 0
  {
    (n + 7) / 8 * 8
  }

  function Zeros(n: nat): (s: seq<byte>)
    ensures |s| == n
  {
    seq(n, _ => 0)
  }

  /** The bytes written for an entry. */
  function Printed(e: Entry): (s: seq<byte>)
    ensures |s| == Aligned(OVERHEAD + |e.payload|)
  {
    Unpadded(VERSION, e) + Zeros(Aligned(OVERHEAD + |e.payload|) - (OVERHEAD + |e.payload|))
  }

  function RecordOf(version: bv16, e: Entry): Record {
    Record(MAGIC, version, e.seqId, HeaderCrc(version, e.seqId, e.len), e.len, e.payload,
           Crc(Body(version, e)))
  }

  /** The printed entry, field by field, with zeros up to the next multiple of eight. */
  lemma PrintedLayout(e: Entry)
    ensures var s, n := Printed(e), |e.payload|;
      && |s| % 8 == 0 && 26 + n <= |s| < 26 + n + 8
      && s[..4] == Bytes32(0x4844_5857) && s[4..6] == Bytes16(1) && s[6..14] == Bytes64(e.seqId)
      && s[14..18] == Bytes32(Crc(s[..14] + s[18..22])) && s[18..22] == Bytes32(e.len)
      && s[22..22 + n] == e.payload && s[22 + n..26 + n] == Bytes32(Crc(s[..22 + n]))
      && forall i :: 26 + n <= i < |s| ==> s[i] == 0
  {
    hide Crc, Bytes16, Bytes32, Bytes64;
    var s, n, h := Printed(e), |e.payload|, Header(VERSION, e.seqId);
    assert s[..14] == h && s[18..22] == Bytes32(e.len);
    assert s[..4] == h[..4] && s[4..6] == h[4..6] && s[6..14] == h[6..14];
    assert s[..22 + n] == Body(VERSION, e);
    assert s[..26 + n] == Unpadded(VERSION, e);
  }

  // ---------- Printer ----------

  /** Copies s into a buffer that is zero from off on and returns the offset after it. */
  method Put(buf: array<byte>, off: nat, s: seq<byte>) returns (next: nat)
    requires off + |s| <= buf.Length
    requires forall i :: off <= i < buf.Length ==> buf[i] == 0
    modifies buf
    ensures next == off + |s|
    ensures buf[..next] == old(buf[..off]) + s
    ensures forall i :: next <= i < buf.Length ==> buf[i] == 0
  {
    for i := 0 to |s|
      invariant buf[..off + i] == old(buf[..off]) + s[..i]
      invariant forall i' :: off + i <= i' < buf.Length ==> buf[i'] == 0
    {
      buf[off + i] := s[i];
      assert buf[..off + i + 1] == buf[..off + i] + [s[i]];
    }
    next := off + |s|;
  }

  method PutHeader(buf: array<byte>, seqId: bv64) returns (off: nat)
    requires buf.Length >= HEADER_CRC_AT
    requires forall i :: 0 <= i < buf.Length ==> buf[i] == 0
    modifies buf
    ensures off == HEADER_CRC_AT && buf[..off] == Header(VERSION, seqId)
    ensures forall i :: off <= i < buf.Length ==> buf[i] == 0
  {
    hide Bytes16, Bytes32, Bytes64;
    off := Put(buf, 0, Bytes32(MAGIC));
    off := Put(buf, off, Bytes16(VERSION));
    off := Put(buf, off, Bytes64(seqId));
  }

  /** Fills a zeroed buffer of the aligned size field by field; both checksums are taken over
      bytes already in the buffer. */
  method Build(seqId: bv64, payload: seq<byte>, len: bv32) returns (buf: array<byte>)
    requires Entry(seqId, len, payload).Loggable()
    ensures fresh(buf) && buf[..] == Printed(Entry(seqId, len, payload))
  {
    hide Crc, Size, Bytes32, Header;
    ghost var e := Entry(seqId, len, payload);
    var total := OVERHEAD + |payload|;
    var aligned := Aligned(total);
    buf := new byte[aligned](_ => 0);
    var off := PutHeader(buf, seqId);
    var headerCrc := Crc(buf[..off] + Bytes32(len));
    off := Put(buf, off, Bytes32(headerCrc));
    off := Put(buf, off, Bytes32(len));
    off := Put(buf, off, payload);
    assert buf[..off] == Body(VERSION, e);
    var footerCrc := Crc(buf[..off]);
    off := Put(buf, off, Bytes32(footerCrc));
    assert buf[..off] == Unpadded(VERSION, e);
    assert buf[off..] == Zeros(aligned - total);
    assert buf[..] == buf[..off] + buf[off..];
  }

  // ---------- Validator and parser ----------

  datatype Status =
    | Ok
    | TooShort
    | MagicMismatch
    | PayloadTruncated
    | HeaderCrcMismatch
    | FooterCrcMismatch
    | ReadsOutside  // the 32-bit size sum wraps below 4, and the footer would lie before the data

  datatype CheckResult = CheckResult(status: Status, seqId: bv64)

  function MagicOf(data: seq<byte>): bv32
    requires |data| >= OVERHEAD
  {
    Word32(data[..4])
  }

  function VersionOf(data: seq<byte>): bv16
    requires |data| >= OVERHEAD
  {
    Word16(data[4..SEQ_AT])
  }

  function SeqIdOf(data: seq<byte>): bv64
    requires |data| >= OVERHEAD
  {
    Word64(data[SEQ_AT..HEADER_CRC_AT])
  }

  function HeaderCrcOf(data: seq<byte>): bv32
    requires |data| >= OVERHEAD
  {
    Word32(data[HEADER_CRC_AT..LENGTH_AT])
  }

  function LengthOf(data: seq<byte>): bv32
    requires |data| >= OVERHEAD
  {
    Word32(data[LENGTH_AT..PAYLOAD_AT])
  }

  function Validate(data: seq<byte>): CheckResult {
    if |data| < OVERHEAD then CheckResult(TooShort, 0)
    else if MagicOf(data) != MAGIC then CheckResult(MagicMismatch, 0)
    else CheckResult(CheckSums(data), SeqIdOf(data))
  }

  /** Where the validator expects the entry to end, computed in 32 bits. */
  function Expected(data: seq<byte>): nat
    requires |data| >= OVERHEAD
  {
    (OVERHEAD + Size(LengthOf(data))) % U32
  }

  /** The checks that follow the magic number. */
  function CheckSums(data: seq<byte>): Status
    requires |data| >= OVERHEAD
  {
    if |data| < Expected(data) then PayloadTruncated
    else if Crc(data[..HEADER_CRC_AT] + Bytes32(LengthOf(data))) != HeaderCrcOf(data) then HeaderCrcMismatch
    else if Expected(data) < 4 then ReadsOutside
    else if !FooterMatches(data, Expected(data)) then FooterCrcMismatch
    else Ok
  }

  /** The four bytes before `end` are the checksum of all before them. */
  predicate FooterMatches(data: seq<byte>, end: nat)
    requires 4 <= end <= |data|
  {
    Crc(data[..end - 4]) == Word32(data[end - 4..end])
  }

  /** The declared length does not wrap the size sum. */
  predicate Fits(data: seq<byte>) {
    |data| >= OVERHEAD && OVERHEAD + Size(LengthOf(data)) < U32
  }

  function FooterCrcOf(data: seq<byte>, len: nat): bv32
    requires |data| >= OVERHEAD + len
  {
    Word32(data[PAYLOAD_AT + len..OVERHEAD + len])
  }

  /** An accepted entry lies within the data, unless its size sum wraps. */
  lemma AcceptedFits(data: seq<byte>)
    requires Validate(data).status == Ok && Fits(data)
    ensures |data| >= OVERHEAD && |data| >= OVERHEAD + Size(LengthOf(data))
  {
    hide Crc, Size, Word16, Word32, Word64, Bytes32;
  }

  function Parse(data: seq<byte>): Record
    requires |data| >= OVERHEAD && |data| >= OVERHEAD + Size(LengthOf(data))
  {
    var len := Size(LengthOf(data));
    Record(MagicOf(data), VersionOf(data), SeqIdOf(data), HeaderCrcOf(data), LengthOf(data),
           data[PAYLOAD_AT..PAYLOAD_AT + len], FooterCrcOf(data, len))
  }

  // ---------- The validator accepts exactly what the printer writes ----------

  /** The fields of a printed entry, read back. */
  lemma Fields(version: bv16, e: Entry, data: seq<byte>)
    requires e.Loggable()
    requires Unpadded(version, e) <= data
    ensures |data| >= OVERHEAD
    ensures MagicOf(data) == MAGIC && VersionOf(data) == version && SeqIdOf(data) == e.seqId
    ensures HeaderCrcOf(data) == HeaderCrc(version, e.seqId, e.len)
    ensures LengthOf(data) == e.len
    ensures data[..HEADER_CRC_AT] == Header(version, e.seqId)
    ensures data[..PAYLOAD_AT + |e.payload|] == Body(version, e)
    ensures data[PAYLOAD_AT..PAYLOAD_AT + |e.payload|] == e.payload
    ensures FooterCrcOf(data, |e.payload|) == Crc(Body(version, e))
  {
    hide Crc, Size, Word16, Word32, Word64, Bytes16, Bytes32, Bytes64;
    var n := |e.payload|;
    var u := Unpadded(version, e);
    var h := HeaderCrc(version, e.seqId, e.len);
    assert u[..4] == Bytes32(MAGIC) && u[4..6] == Bytes16(version) && u[6..14] == Bytes64(e.seqId);
    assert u[14..18] == Bytes32(h) && u[18..22] == Bytes32(e.len) && u[22..22 + n] == e.payload;
    assert u[..14] == Header(version, e.seqId) && u[..22 + n] == Body(version, e);
    assert u[22 + n..26 + n] == Bytes32(Crc(Body(version, e)));
    SamePrefix(u, data);
    WordOfBytes32(MAGIC);
    WordOfBytes16(version);
    WordOfBytes64(e.seqId);
    WordOfBytes32(e.len);
    WordOfBytes32(h);
    WordOfBytes32(Crc(Body(version, e)));
  }

  lemma SamePrefix(u: seq<byte>, data: seq<byte>)
    requires u <= data
    ensures forall i, j :: 0 <= i <= j <= |u| ==> u[i..j] == data[i..j]
    ensures forall j :: 0 <= j <= |u| ==> u[..j] == data[..j]
  {
  }

  /** Whatever follows a printed entry, and whatever its padding holds, the entry is accepted and
      parsed back unchanged. */
  lemma PrintedIsAccepted(version: bv16, e: Entry, data: seq<byte>)
    requires e.Loggable()
    requires Unpadded(version, e) <= data
    ensures Validate(data) == CheckResult(Ok, e.seqId)
    ensures |data| >= OVERHEAD && LengthOf(data) == e.len && |data| >= OVERHEAD + |e.payload|
    ensures Parse(data) == RecordOf(version, e)
  {
    hide Crc, Size, Word16, Word32, Word64, Bytes16, Bytes32, Bytes64, Body;
    Fields(version, e, data);
  }

  /** The data begin with a printed entry, up to the version number, which nothing checks. */
  ghost predicate BeginsWithEntry(data: seq<byte>) {
    exists version: bv16, e: Entry :: e.Loggable() && Unpadded(version, e) <= data
  }

  /** What is accepted was printed, exactly if the declared length does not wrap the size sum. */
  lemma AcceptedIsPrinted(data: seq<byte>)
    requires Validate(data).status == Ok
    ensures BeginsWithEntry(data) <==> Fits(data)
  {
    hide Validate, Unpadded, Size, LengthOf;
    if Fits(data) {
      var version, e := PrintedForm(data);
    }
    forall version: bv16, e: Entry | e.Loggable() && Unpadded(version, e) <= data
      ensures Fits(data)
    {
      Fields(version, e, data);
    }
  }

  lemma PrintedForm(data: seq<byte>) returns (version: bv16, e: Entry)
    requires Validate(data).status == Ok && Fits(data)
    ensures e.Loggable() && Unpadded(version, e) <= data
  {
    hide Crc, Size, Word16, Word32, Word64, Bytes16, Bytes32, Bytes64, Header;
    AcceptedFits(data);
    var len := Size(LengthOf(data));
    version := VersionOf(data);
    e := Entry(SeqIdOf(data), LengthOf(data), data[PAYLOAD_AT..PAYLOAD_AT + len]);
    AcceptedHeader(data);
    BytesOfWord32(data[14..18]);
    BytesOfWord32(data[18..22]);
    BytesOfWord32(data[22 + len..26 + len]);
    assert data[..22 + len] == data[..14] + data[14..18] + data[18..22] + e.payload;
    assert data[..22 + len] == Body(version, e);
    assert data[..26 + len] == data[..22 + len] + data[22 + len..26 + len];
    assert data[..26 + len] == Unpadded(version, e);
  }

  lemma AcceptedHeader(data: seq<byte>)
    requires |data| >= OVERHEAD && MagicOf(data) == MAGIC
    ensures data[..HEADER_CRC_AT] == Header(VersionOf(data), SeqIdOf(data))
  {
    hide Word16, Word32, Word64, Bytes16, Bytes32, Bytes64;
    BytesOfWord32(data[..4]);
    BytesOfWord16(data[4..6]);
    BytesOfWord64(data[6..14]);
    assert data[..14] == data[..4] + data[4..6] + data[6..14];
  }

  /** The first ten bytes: magic, version and the low word of the id. */
  function Ten(version: bv16, low: bv32): (s: seq<byte>)
    ensures |s| == 10
  {
    Bytes32(MAGIC) + Bytes16(version) + Bytes32(low)
  }

  /** An id whose high word is the checksum of the first ten bytes. */
  function SelfChecked(version: bv16, low: bv32): bv64 {
    (low as bv64) | (Crc(Ten(version, low)) as bv64 << 32)
  }

  /** With this length the size sum wraps to 14. */
  const WRAPPING: bv32 := 0xFFFF_FFF4

  function WrappedEntry(version: bv16, low: bv32): (s: seq<byte>)
    ensures |s| == PAYLOAD_AT
  {
    var id := SelfChecked(version, low);
    Header(version, id) + Bytes32(HeaderCrc(version, id, WRAPPING)) + Bytes32(WRAPPING)
  }

  /** For every version and low word there is an id with which a wrapping length is accepted, whatever
      follows, though no entry begins there: the high word of the id passes as the footer. */
  lemma WrappedIsAccepted(version: bv16, low: bv32, rest: seq<byte>)
    requires |rest| >= 4
    ensures Validate(WrappedEntry(version, low) + rest) == CheckResult(Ok, SelfChecked(version, low))
    ensures !BeginsWithEntry(WrappedEntry(version, low) + rest)
  {
    hide Crc, Size, Word16, Word32, Word64, Bytes16, Bytes32, Bytes64, BeginsWithEntry, SelfChecked;
    var id, data := SelfChecked(version, low), WrappedEntry(version, low) + rest;
    var h := HeaderCrc(version, id, WRAPPING);
    assert data[..14] == Header(version, id) && data[14..18] == Bytes32(h) && data[18..22] == Bytes32(WRAPPING);
    assert data[..4] == Bytes32(MAGIC) && data[6..14] == Bytes64(id);
    WordOfBytes32(MAGIC);
    WordOfBytes64(id);
    WordOfBytes32(h);
    WordOfBytes32(WRAPPING);
    SomeSizes();
    SelfCheckedBytes(version, low);
    assert data[..10] == Ten(version, low);
    assert data[10..14] == Bytes32(Crc(Ten(version, low)));
    WordOfBytes32(Crc(Ten(version, low)));
    AcceptedIsPrinted(data);
  }

  lemma SelfCheckedBytes(version: bv16, low: bv32)
    ensures Bytes64(SelfChecked(version, low)) == Bytes32(low) + Bytes32(Crc(Ten(version, low)))
  {
    hide Crc, Bytes32, Ten;
    Joined(low, Crc(Ten(version, low)));
  }

  /** A printed entry that is cut short is rejected. */
  lemma CutIsRejected(e: Entry, k: nat)
    requires e.Loggable() && k < OVERHEAD + |e.payload|
    ensures Validate(Printed(e)[..k]).status in {TooShort, PayloadTruncated}
  {
    hide Crc, Size, Word16, Word32, Word64, Bytes16, Bytes32, Bytes64;
    if k >= OVERHEAD {
      Fields(VERSION, e, Printed(e));
      var cut := Printed(e)[..k];
      SamePrefix(cut, Printed(e));
      assert MagicOf(cut) == MAGIC && LengthOf(cut) == e.len;
    }
  }

  // ---------- Damage ----------

  /** Stored header checksum and stored length are changed by one of the two pairs that cancel. */
  predicate Cancels(u: seq<byte>, data: seq<byte>)
    requires |u| >= OVERHEAD && |data| >= OVERHEAD
  {
    Cancelling(Xor(HeaderCrcOf(u), HeaderCrcOf(data)), Xor(LengthOf(u), LengthOf(data)))
  }

  /** The footer checksum catches damage that leaves the length alone. */
  lemma FooterCatches(e: Entry, data: seq<byte>, p: nat)
    requires e.Loggable()
    requires var u := Unpadded(VERSION, e);
      |u| <= |data| && data[..|u|] != u && DifferWithin(u, data[..|u|], p)
    requires LengthOf(data) == e.len
    ensures Crc(data[..PAYLOAD_AT + |e.payload|]) != FooterCrcOf(data, |e.payload|)
  {
    hide Crc, Size, Word16, Word32, Word64, Bytes16, Bytes32, Bytes64, Body, DifferWithin;
    var n := |e.payload|;
    var m, stored := data[..22 + n], data[22 + n..26 + n];
    BytesOfWord32(stored);
    assert data[..26 + n] == m + stored;
    DamageDetected(Body(VERSION, e), m, Word32(stored), p);
  }

  /** Words whose first 4 - n bytes agree, and words whose last n bytes agree. */
  lemma LowBytesAgree(n: nat, s: seq<byte>, s': seq<byte>)
    requires n <= 3 && |s| == |s'| == 4 && forall i :: 0 <= i < 4 - n ==> s[i] == s'[i]
    ensures n == 0 ==> Xor(Word32(s), Word32(s')) == 0
    ensures n == 1 ==> Xor(Word32(s), Word32(s')) & 0x00FF_FFFF == 0
    ensures n == 2 ==> Xor(Word32(s), Word32(s')) & 0xFFFF == 0
    ensures n == 3 ==> Xor(Word32(s), Word32(s')) & 0xFF == 0
  {
  }

  lemma HighBytesAgree(n: nat, t: seq<byte>, t': seq<byte>)
    requires n <= 3 && |t| == |t'| == 4 && forall i :: 4 - n <= i < 4 ==> t[i] == t'[i]
    ensures n == 1 ==> Xor(Word32(t), Word32(t')) <= 0x00FF_FFFF
    ensures n == 2 ==> Xor(Word32(t), Word32(t')) <= 0xFFFF
    ensures n == 3 ==> Xor(Word32(t), Word32(t')) <= 0xFF
  {
  }

  /** Damage to the length inside a window leaves everything before the header checksum intact, and
      of header checksum and length together it touches four adjacent bytes. */
  lemma LengthWindow(u: seq<byte>, data: seq<byte>, p: nat) returns (n: nat)
    requires OVERHEAD <= |u| <= |data| && DifferWithin(u, data[..|u|], p)
    requires LengthOf(u) != LengthOf(data)
    ensures data[..HEADER_CRC_AT] == u[..HEADER_CRC_AT]
    ensures n <= 3
      && Straddles(n, Xor(HeaderCrcOf(u), HeaderCrcOf(data)), Xor(LengthOf(u), LengthOf(data)))
  {
    hide Word32, Xor;
    forall i | 0 <= i < |u| && !(p <= i < p + 4)
      ensures u[i] == data[i]
    {
      assert data[..|u|][i] == data[i];
    }
    assert u[18..22] != data[18..22];
    assert 15 <= p <= 21;
    n := if p < 18 then 18 - p else 0;
    forall i | 0 <= i < 4 - n
      ensures u[14..18][i] == data[14..18][i]
    {
      assert u[14 + i] == data[14 + i];
    }
    forall i | 4 - n <= i < 4
      ensures u[18..22][i] == data[18..22][i]
    {
      assert u[18 + i] == data[18 + i];
    }
    LowBytesAgree(n, u[14..18], data[14..18]);
    HighBytesAgree(n, u[18..22], data[18..22]);
  }

  /** Damage to the length inside a window passes the header checksum exactly if it cancels. */
  lemma HeaderPasses(e: Entry, data: seq<byte>, p: nat)
    requires e.Loggable()
    requires var u := Unpadded(VERSION, e);
      |u| <= |data| && DifferWithin(u, data[..|u|], p) && LengthOf(data) != e.len
    ensures Crc(data[..HEADER_CRC_AT] + Bytes32(LengthOf(data))) == HeaderCrcOf(data)
      <==> Cancels(Unpadded(VERSION, e), data)
  {
    hide Crc, Header, Unpadded, Size, Word16, Word32, Word64, Bytes16, Bytes32, Bytes64, Xor, DifferWithin,
         Straddles, Cancelling, Step32;
    var u := Unpadded(VERSION, e);
    Fields(VERSION, e, u);
    var n := LengthWindow(u, data, p);
    var stored, crc := HeaderCrcOf(data), HeaderCrc(VERSION, e.seqId, e.len);
    var computed := Crc(data[..HEADER_CRC_AT] + Bytes32(LengthOf(data)));
    CrcOfWord(data[..HEADER_CRC_AT], e.len, LengthOf(data));
    if Xor(e.len, LengthOf(data)) == 0 {
      XorIsZero(e.len, LengthOf(data));
    }
    PassesExactly(n, Xor(crc, stored), Xor(e.len, LengthOf(data)));
    if Xor(crc, stored) == Xor(crc, computed) {
      XorSame(crc, stored, computed);
    }
  }

  lemma XorSame(a: bv32, b: bv32, c: bv32)
    requires Xor(a, b) == Xor(a, c)
    ensures b == c
  {
  }

  /** An entry damaged inside four adjacent bytes, whatever follows it, is rejected, unless the
      damage is one of the two pairs that cancel. */
  lemma DamageIsRejected(e: Entry, data: seq<byte>, p: nat)
    requires e.Loggable()
    requires var u := Unpadded(VERSION, e);
      |u| <= |data| && data[..|u|] != u && DifferWithin(u, data[..|u|], p) && !Cancels(u, data)
    ensures Validate(data).status in {MagicMismatch, PayloadTruncated, HeaderCrcMismatch, FooterCrcMismatch}
  {
    hide Crc, Size, Word16, Word32, Word64, Bytes16, Bytes32, Bytes64, Unpadded, Cancels, DifferWithin;
    if LengthOf(data) == e.len {
      FooterCatches(e, data, p);
    } else {
      HeaderPasses(e, data, p);
    }
  }

  /** The damage that cancels passes the header checksum, and is accepted exactly if a footer
      checksum matches where the length it declares, in 32 bits, puts it. */
  lemma CancelledDamage(e: Entry, data: seq<byte>, p: nat)
    requires e.Loggable()
    requires var u := Unpadded(VERSION, e);
      |u| <= |data| && DifferWithin(u, data[..|u|], p) && Cancels(u, data)
    ensures Validate(data).status !in {TooShort, MagicMismatch, HeaderCrcMismatch}
    ensures Validate(data).status == Ok <==> 4 <= Expected(data) <= |data| && FooterMatches(data, Expected(data))
  {
    hide Crc, Size, Word16, Word32, Word64, Bytes16, Bytes32, Bytes64, Unpadded, Cancels, DifferWithin;
    var u := Unpadded(VERSION, e);
    Fields(VERSION, e, u);
    CancelsChanges(u, data);
    HeaderPasses(e, data, p);
    var _ := LengthWindow(u, data, p);
    assert MagicOf(data) == MAGIC by { assert data[..4] == data[..14][..4] == u[..14][..4] == u[..4]; }
  }

  lemma CancelsChanges(u: seq<byte>, data: seq<byte>)
    requires |u| >= OVERHEAD && |data| >= OVERHEAD && Cancels(u, data)
    ensures LengthOf(u) != LengthOf(data)
  {
    hide Word32;
    if LengthOf(u) == LengthOf(data) {
      SelfXor(LengthOf(u));
    }
  }

  lemma FirstBytes(h: bv32, h': bv32)
    requires Xor(h, h') & 0xFFFF == 0
    ensures (h & 0xFF) as byte == (h' & 0xFF) as byte && ((h >> 8) & 0xFF) as byte == ((h' >> 8) & 0xFF) as byte
    ensures Xor(h, h') & 0x00FF_FFFF == 0 ==> ((h >> 16) & 0xFF) as byte == ((h' >> 16) & 0xFF) as byte
  {
  }

  lemma LastBytes(v: bv32, w: bv32)
    requires Xor(v, w) <= 0x00FF_FFFF
    ensures (v >> 24) as byte == (w >> 24) as byte
    ensures Xor(v, w) <= 0xFFFF ==> ((v >> 16) & 0xFF) as byte == ((w >> 16) & 0xFF) as byte
  {
  }

  lemma PairBytes(k: nat, h: bv32, h': bv32, v: bv32, w: bv32)
    requires k == 2 || k == 3
    requires k == 2 ==> Xor(h, h') == 0x8031_0000 && Xor(v, w) == 0xD6CB
    requires k == 3 ==> Xor(h, h') == 0xAE00_0000 && Xor(v, w) == 0x2_E0C1
    ensures Bytes32(h)[..k] == Bytes32(h')[..k] && Bytes32(v)[k..] == Bytes32(w)[k..]
  {
    hide Xor;
    FirstBytes(h, h');
    LastBytes(v, w);
  }

  lemma XorAgain(a: bv32, b: bv32)
    ensures Xor(a, Xor(a, b)) == b
  {
  }

  lemma Layout(e: Entry)
    ensures var u := Unpadded(VERSION, e);
      && u[14..18] == Bytes32(HeaderCrc(VERSION, e.seqId, e.len)) && u[18..22] == Bytes32(e.len)
      && u[22..22 + |e.payload|] == e.payload && u[22..] == e.payload + Bytes32(Crc(Body(VERSION, e)))
  {
    hide Crc, Bytes16, Bytes32, Bytes64;
  }

  lemma SamePieces(k: nat, u: seq<byte>, data: seq<byte>)
    requires k <= 4 && OVERHEAD <= |u| <= |data|
    requires data[..14] == u[..14] && data[14..18][..k] == u[14..18][..k]
    requires data[18..22][k..] == u[18..22][k..] && data[22..|u|] == u[22..]
    ensures DifferWithin(u, data[..|u|], 14 + k)
  {
    forall i | 0 <= i < |u| && !(14 + k <= i < 18 + k)
      ensures u[i] == data[i]
    {
      if i < 14 {
        assert u[..14][i] == data[..14][i];
      } else if i < 18 {
        assert u[14..18][..k][i - 14] == data[14..18][..k][i - 14];
      } else if i < 22 {
        assert u[18..22][k..][i - 18 - k] == data[18..22][k..][i - 18 - k];
      } else {
        assert u[22..][i - 22] == data[22..|u|][i - 22];
      }
    }
  }

  /** Bytes that differ from an entry inside four adjacent bytes and yet validate. */
  ghost predicate Unseen(e: Entry, data: seq<byte>, p: nat) {
    var u := Unpadded(VERSION, e);
    && |u| <= |data| && data[..|u|] != u && DifferWithin(u, data[..|u|], p)
    && Validate(data).status == Ok
  }

  /** The entry that e turns into under one of the two pairs, if `more` follows it. */
  function Stretched(e: Entry, first: bool, more: seq<byte>): Entry {
    Entry(e.seqId, Xor(e.len, if first then 0xD6CB else 0x2_E0C1), e.payload + Bytes32(Crc(Body(VERSION, e))) + more)
  }

  /** So four-byte damage can go unseen: an entry turns into a longer one whose payload starts with
      the payload and the footer of the first, if their lengths differ by one of the two words. */
  lemma CancellingIsAccepted(e: Entry, first: bool, more: seq<byte>)
    requires e.Loggable() && Stretched(e, first, more).Loggable()
    ensures Unseen(e, Unpadded(VERSION, Stretched(e, first, more)), if first then 16 else 17)
  {
    hide Crc, Size, Word16, Word32, Word64, Bytes16, Bytes32, Bytes64, Xor, Step32, Header, Validate;
    var f := Stretched(e, first, more);
    XorAgain(e.len, if first then 0xD6CB else 0x2_E0C1);
    var u, data := Unpadded(VERSION, e), Unpadded(VERSION, f);
    PrintedIsAccepted(VERSION, f, data);
    Fields(VERSION, e, u);
    Fields(VERSION, f, data);
    var h, h' := HeaderCrcOf(u), HeaderCrcOf(data);
    CrcOfWord(Header(VERSION, e.seqId), e.len, f.len);
    FirstPair();
    SecondPair();
    assert Cancels(u, data);
    CancelsChanges(u, data);
    var k := if first then 2 else 3;
    PairBytes(k, h, h', e.len, f.len);
    Layout(e);
    Layout(f);
    var tail := e.payload + Bytes32(Crc(Body(VERSION, e)));
    assert data[22..|u|] == u[22..] by {
      assert u[22..] == tail;
      assert data[22..|u|] == data[22..22 + |f.payload|][..|tail|] == f.payload[..|tail|] == tail;
    }
    SamePieces(k, u, data);
    assert data[..|u|][18..22] == data[18..22];
  }

  /** An empty entry is one of them. */
  lemma UnseenDamage(seqId: bv64) returns (e: Entry, data: seq<byte>)
    ensures e == Entry(seqId, 0, []) && e.Loggable() && Unseen(e, data, 16)
  {
    hide Crc, Size, Bytes32, Unseen;
    e := Entry(seqId, 0, []);
    var f := Stretched(e, true, Zeros(0xD6CB - 4));
    SomeSizes();
    XorCommutative(0, 0xD6CB);
    XorZero(0xD6CB);
    CancellingIsAccepted(e, true, Zeros(0xD6CB - 4));
    data := Unpadded(VERSION, f);
  }

  lemma SomeSizes()
    ensures Size(0) == 0 && Size(0xD6CB) == 0xD6CB && Size(WRAPPING) == U32 - 12
  {
  }

  /** Damage to only one of the two words does not cancel. */
  lemma OneWord(u: seq<byte>, data: seq<byte>)
    requires |u| >= OVERHEAD && |data| >= OVERHEAD
    requires data[HEADER_CRC_AT..LENGTH_AT] == u[HEADER_CRC_AT..LENGTH_AT]
      || data[LENGTH_AT..PAYLOAD_AT] == u[LENGTH_AT..PAYLOAD_AT]
    ensures !Cancels(u, data)
  {
    hide Word32, Xor;
    SelfXor(HeaderCrcOf(u));
    SelfXor(LengthOf(u));
  }

  /** One changed byte anywhere in the unpadded part is one such window. */
  lemma OneByteIsRejected(e: Entry, data: seq<byte>, p: nat, b: byte)
    requires e.Loggable()
    requires var u := Unpadded(VERSION, e);
      p < |u| && b != u[p] && u[p := b] <= data
    ensures Validate(data).status in {MagicMismatch, PayloadTruncated, HeaderCrcMismatch, FooterCrcMismatch}
  {
    hide Crc, Validate, Unpadded;
    var u := Unpadded(VERSION, e);
    assert data[..|u|] == u[p := b];
    assert data[..|u|][p] != u[p];
    if p < 18 {
      assert data[18..22] == u[18..22];
    } else {
      assert data[14..18] == u[14..18];
    }
    OneWord(u, data);
    DamageIsRejected(e, data, p);
  }
}
