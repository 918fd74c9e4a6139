/** Machine words as bytes, low byte first: the layout the repository's binary formats use. */
module Words {

  type byte = bv8

  const U32: nat := 0x1_0000_0000
  const U64: nat := 0x1_0000_0000_0000_0000

  function Min(a: nat, b: nat): nat {
    if a < b then a else b
  }

  function Bytes16(w: bv16): (s: seq<byte>)
    ensures |s| == 2
  {
    [(w & 0xFF) as byte, (w >> 8) as byte]
  }

  function Word16(s: seq<byte>): bv16
    requires |s| == 2
  {
    (s[0] as bv16) | (s[1] as bv16 << 8)
  }

  function Bytes32(w: bv32): (s: seq<byte>)
    ensures |s| == 4
  {
    [(w & 0xFF) as byte, ((w >> 8) & 0xFF) as byte, ((w >> 16) & 0xFF) as byte, (w >> 24) as byte]
  }

  function Word32(s: seq<byte>): bv32
    requires |s| == 4
  {
    (s[0] as bv32) | (s[1] as bv32 << 8) | (s[2] as bv32 << 16) | (s[3] as bv32 << 24)
  }

  function Bytes64(w: bv64): (s: seq<byte>)
    ensures |s| == 8
  {
    Bytes32((w & 0xFFFF_FFFF) as bv32) + Bytes32((w >> 32) as bv32)
  }

  function Word64(s: seq<byte>): bv64
    requires |s| == 8
  {
    (Word32(s[..4]) as bv64) | (Word32(s[4..]) as bv64 << 32)
  }

  lemma WordOfBytes16(w: bv16)
    ensures Word16(Bytes16(w)) == w
  {
  }

  lemma BytesOfWord16(s: seq<byte>)
    requires |s| == 2
    ensures Bytes16(Word16(s)) == s
  {
  }

  lemma WordOfBytes32(w: bv32)
    ensures Word32(Bytes32(w)) == w
  {
  }

  lemma BytesOfWord32(s: seq<byte>)
    requires |s| == 4
    ensures Bytes32(Word32(s)) == s
  {
  }

  lemma Halves(w: bv64)
    ensures ((w & 0xFFFF_FFFF) as bv32 as bv64) | ((w >> 32) as bv32 as bv64 << 32) == w
  {
  }

  lemma WordOfBytes64(w: bv64)
    ensures Word64(Bytes64(w)) == w
  {
    hide Word32, Bytes32;
    WordOfBytes32((w & 0xFFFF_FFFF) as bv32);
    WordOfBytes32((w >> 32) as bv32);
    var s := Bytes64(w);
    assert s[..4] == Bytes32((w & 0xFFFF_FFFF) as bv32) && s[4..] == Bytes32((w >> 32) as bv32);
    Halves(w);
  }

  lemma Joined(low: bv32, high: bv32)
    ensures (((low as bv64) | (high as bv64 << 32)) & 0xFFFF_FFFF) as bv32 == low
    ensures (((low as bv64) | (high as bv64 << 32)) >> 32) as bv32 == high
  {
  }

  lemma BytesOfWord64(s: seq<byte>)
    requires |s| == 8
    ensures Bytes64(Word64(s)) == s
  {
    hide Word32, Bytes32;
    BytesOfWord32(s[..4]);
    BytesOfWord32(s[4..]);
    Joined(Word32(s[..4]), Word32(s[4..]));
    assert s == s[..4] + s[4..];
  }

  // ---------- Counts ----------

  /** The byte of a number below 256, counted up. */
  function ByteOf(n: nat): byte
    requires n < 256
  {
    if n == 0 then 0 else ByteOf(n - 1) + 1
  }

  function Value(b: byte): nat {
    b as nat
  }

  lemma ValueNext(b: byte)
    requires b != 0xFF
    ensures Value(b + 1) == Value(b) + 1
  {
  }

  lemma ValueOfMax()
    ensures Value(0xFF) == 255
  {
  }

  lemma {:induction false} ValueOfByte(n: nat)
    requires n < 256
    ensures Value(ByteOf(n)) == n
  {
    hide Value;
    if n == 0 {
      ValueOfZero();
    } else {
      ValueOfByte(n - 1);
      ValueOfMax();
      ValueNext(ByteOf(n - 1));
    }
  }

  lemma ValueOfZero()
    ensures Value(0) == 0
  {
  }

  /** A count as a 32-bit word. */
  function CountBytes(n: nat): (s: seq<byte>)
    ensures |s| == 4
  {
    [ByteOf(n % 256), ByteOf(n / 256 % 256), ByteOf(n / 0x1_0000 % 256), ByteOf(n / 0x100_0000 % 256)]
  }

  function CountOf(s: seq<byte>): nat
    requires |s| == 4
  {
    Value(s[0]) + 256 * Value(s[1]) + 0x1_0000 * Value(s[2]) + 0x100_0000 * Value(s[3])
  }

  lemma CountOfBytes(n: nat)
    requires n < U32
    ensures CountOf(CountBytes(n)) == n
  {
    hide Value, ByteOf;
    ValueOfByte(n % 256);
    ValueOfByte(n / 256 % 256);
    ValueOfByte(n / 0x1_0000 % 256);
    ValueOfByte(n / 0x100_0000 % 256);
    Digits(n);
  }

  lemma Digits(n: nat)
    requires n < U32
    ensures n == n % 256 + 256 * (n / 256 % 256) + 0x1_0000 * (n / 0x1_0000 % 256) + 0x100_0000 * (n / 0x100_0000 % 256)
  {
    var a, b, c := n / 256, n / 0x1_0000, n / 0x100_0000;
    assert n == 256 * a + n % 256;
    assert b == a / 256 && a == 256 * b + a % 256;
    assert c == b / 256 && b == 256 * c + b % 256;
    assert c % 256 == c;
  }

  // ---------- Words as numbers ----------

  function Low8(w: bv64): byte {
    (w & 0xFF) as byte
  }

  function Rest(w: bv64): bv64 {
    w >> 8
  }

  function Succ(w: bv64): bv64 {
    w + 1
  }

  const MAX64: bv64 := 0xFFFF_FFFF_FFFF_FFFF

  function Power256(k: nat): nat {
    if k == 0 then 1 else 256 * Power256(k - 1)
  }

  /** The number that the k low bytes of a word stand for. */
  function NumberOf(k: nat, w: bv64): (n: nat)
    ensures n < Power256(k)
  {
    hide Low8, Rest, Value;
    if k == 0 then 0
    else
      ValueIsByte(Low8(w));
      Value(Low8(w)) + 256 * NumberOf(k - 1, Rest(w))
  }

  lemma ValueIsByte(b: byte)
    ensures Value(b) < 256
  {
  }

  /** Adding one adds to the low byte, or carries. */
  lemma Carry(w: bv64)
    ensures Low8(w) != 0xFF ==> Low8(Succ(w)) == Low8(w) + 1 && Rest(Succ(w)) == Rest(w)
    ensures Low8(w) == 0xFF && w != MAX64 ==> Low8(Succ(w)) == 0 && Rest(Succ(w)) == Succ(Rest(w))
    ensures Rest(w) != MAX64
  {
  }

  lemma {:induction false} NumberOfNext(k: nat, w: bv64)
    requires w != MAX64 && NumberOf(k, w) + 1 < Power256(k)
    ensures NumberOf(k, Succ(w)) == NumberOf(k, w) + 1
  {
    hide Low8, Rest, Succ, Value;
    if k > 0 {
      Carry(w);
      if Low8(w) != 0xFF {
        ValueNext(Low8(w));
      } else {
        ValueOfMax();
        ValueOfZero();
        NumberOfNext(k - 1, Rest(w));
      }
    }
  }

  lemma NumberOfMax()
    ensures NumberOf(8, MAX64) + 1 == Power256(8)
  {
    ValueOfMax();
    assert NumberOf(1, 0xFF) + 1 == Power256(1);
    assert NumberOf(2, 0xFFFF) + 1 == Power256(2);
    assert NumberOf(3, 0xFF_FFFF) + 1 == Power256(3);
    assert NumberOf(4, 0xFFFF_FFFF) + 1 == Power256(4);
    assert NumberOf(5, 0xFF_FFFF_FFFF) + 1 == Power256(5);
    assert NumberOf(6, 0xFFFF_FFFF_FFFF) + 1 == Power256(6);
    assert NumberOf(7, 0xFF_FFFF_FFFF_FFFF) + 1 == Power256(7);
  }

  /** A 64-bit word as a number. */
  function Number(w: bv64): (n: nat)
    ensures n < U64
  {
    assert Power256(8) == U64;
    NumberOf(8, w)
  }

  lemma NumberNext(w: bv64)
    requires Number(w) + 1 < U64
    ensures Number(Succ(w)) == Number(w) + 1
  {
    hide Low8, Rest, Succ, NumberOf;
    assert Power256(8) == U64;
    NumberOfMax();
    NumberOfNext(8, w);
  }
}
