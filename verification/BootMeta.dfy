/** The boot.meta cache: a fixed record with a trailing checksum, saved to and loaded from a file. */
module BootMeta {
  import opened Crc32c
  import opened Words

  const MAGIC: bv32 := 0x4844_424D
  const VERSION: bv16 := 1

  // Field offsets; the record has no padding.
  const VERSION_AT: nat := 4
  const IMAGE_ID_AT: nat := 6
  const BLOCK_SIZE_AT: nat := 22
  const PRIMARY_SERVER_AT: nat := 34
  const PRIMARY_PORT_AT: nat := 98
  const CRC_AT: nat := 306
  const SIZE: nat := 310

  /** The record as it lies in memory and in the file. */
  type Meta = m: seq<byte> | |m| == SIZE witness seq(310, _ => 0)

  datatype File = Missing | Contents(bytes: seq<byte>)

  function Put(m: Meta, at: nat, s: seq<byte>): Meta
    requires at + |s| <= SIZE
  {
    m[..at] + s + m[at + |s|..]
  }

  function MagicOf(m: Meta): bv32 {
    Word32(m[..VERSION_AT])
  }

  function CrcOf(m: Meta): bv32 {
    Word32(m[CRC_AT..])
  }

  predicate CrcValid(m: Meta) {
    CrcOf(m) == Crc(m[..CRC_AT])
  }

  /** "10.10.200.10" */
  function DefaultServer(): seq<byte> {
    [0x31, 0x30, 0x2E, 0x31, 0x30, 0x2E, 0x32, 0x30, 0x30, 0x2E, 0x31, 0x30]
  }

  function Defaults(): Meta {
    var m: Meta := seq(SIZE, _ => 0);
    var m: Meta := Put(m, 0, Bytes32(MAGIC));
    var m: Meta := Put(m, VERSION_AT, Bytes16(VERSION));
    var m: Meta := Put(m, BLOCK_SIZE_AT, Bytes32(4096));
    var m: Meta := Put(m, PRIMARY_SERVER_AT, DefaultServer());
    Put(m, PRIMARY_PORT_AT, Bytes16(9527))
  }

  /** A file is accepted when a whole record with the right magic number and checksum can be read. */
  predicate Accepts(f: File) {
    && f.Contents?
    && |f.bytes| >= SIZE
    && MagicOf(f.bytes[..SIZE]) == MAGIC
    && CrcValid(f.bytes[..SIZE])
  }

  /** The record with its header set, and then with its checksum. */
  function Stamped(m: Meta): Meta {
    Put(Put(m, 0, Bytes32(MAGIC)), VERSION_AT, Bytes16(VERSION))
  }

  function Checksummed(m: Meta): Meta {
    Put(m, CRC_AT, Bytes32(Crc(m[..CRC_AT])))
  }

  function Saved(m: Meta): Meta {
    Checksummed(Stamped(m))
  }

  class Cache {
    var meta: Meta
    var valid: bool

    constructor ()
      ensures !valid
    {
      meta := seq(SIZE, _ => 0);
      valid := false;
    }

    method Load(f: File) returns (ok: bool)
      modifies this
      ensures ok == valid == Accepts(f)
      ensures meta == if ok then f.bytes[..SIZE] else Defaults()
    {
      hide Crc, Word32, Defaults;
      if f.Missing? {
        meta, valid := Defaults(), false;
        return false;
      }
      if |f.bytes| < SIZE {
        // A short read leaves part of the record behind, which the defaults replace.
        meta := f.bytes + meta[|f.bytes|..];
        meta, valid := Defaults(), false;
        return false;
      }
      meta := f.bytes[..SIZE];
      if MagicOf(meta) != MAGIC {
        meta, valid := Defaults(), false;
        return false;
      }
      if !CrcValid(meta) {
        meta, valid := Defaults(), false;
        return false;
      }
      valid := true;
      return true;
    }

    /** `opens` says whether the file can be opened for writing. */
    method Save(f: File, opens: bool) returns (ok: bool, f': File)
      modifies this
      ensures ok == opens
      ensures meta == Saved(old(meta)) && valid == old(valid)
      ensures f' == if ok then Contents(meta) else f
    {
      hide Crc, Bytes16, Bytes32;
      meta := Put(meta, 0, Bytes32(MAGIC));
      meta := Put(meta, VERSION_AT, Bytes16(VERSION));
      meta := Put(meta, CRC_AT, Bytes32(Crc(meta[..CRC_AT])));
      if !opens {
        return false, f;
      }
      return true, Contents(meta);
    }
  }

  // ---------- The defaults ----------

  /** Bytes put into a record are there, and no others change. */
  lemma PutBytes(m: Meta, at: nat, s: seq<byte>)
    requires at + |s| <= SIZE
    ensures Put(m, at, s)[at..at + |s|] == s
    ensures forall lo, hi :: 0 <= lo <= hi <= at || at + |s| <= lo <= hi <= SIZE ==> Put(m, at, s)[lo..hi] == m[lo..hi]
    ensures forall i :: 0 <= i < at || at + |s| <= i < SIZE ==> Put(m, at, s)[i] == m[i]
  {
  }

  /** The default record, field by field; all other bytes are zero. */
  lemma DefaultFields(i: nat)
    ensures var m := Defaults();
      && m[0..4] == Bytes32(0x4844_424D) && m[4..6] == Bytes16(1) && m[22..26] == Bytes32(4096)
      && m[34..46] == DefaultServer() && m[98..100] == Bytes16(9527)
    ensures 6 <= i < 22 || 26 <= i < 34 || 46 <= i < 98 || 100 <= i < 310 ==> Defaults()[i] == 0
  {
    hide Bytes16, Bytes32, Put, DefaultServer;
    var m0: Meta := seq(SIZE, _ => 0);
    var m1 := Put(m0, 0, Bytes32(MAGIC));
    var m2 := Put(m1, VERSION_AT, Bytes16(VERSION));
    var m3 := Put(m2, BLOCK_SIZE_AT, Bytes32(4096));
    ServerLength();
    var m4 := Put(m3, PRIMARY_SERVER_AT, DefaultServer());
    PutBytes(m0, 0, Bytes32(MAGIC));
    PutBytes(m1, VERSION_AT, Bytes16(VERSION));
    PutBytes(m2, BLOCK_SIZE_AT, Bytes32(4096));
    PutBytes(m3, PRIMARY_SERVER_AT, DefaultServer());
    PutBytes(m4, PRIMARY_PORT_AT, Bytes16(9527));
  }

  lemma ServerLength()
    ensures |DefaultServer()| == 12
  {
  }

  // ---------- What a saved file guarantees ----------

  lemma SavedLayout(m: Meta)
    ensures Saved(m)[..CRC_AT] == Stamped(m)[..CRC_AT]
    ensures Saved(m) == Stamped(m)[..CRC_AT] + Bytes32(Crc(Stamped(m)[..CRC_AT]))
    ensures Saved(m)[..VERSION_AT] == Bytes32(MAGIC) && Saved(m)[VERSION_AT..IMAGE_ID_AT] == Bytes16(VERSION)
    ensures Saved(m)[IMAGE_ID_AT..CRC_AT] == m[IMAGE_ID_AT..CRC_AT]
  {
    hide Crc, Bytes16, Bytes32;
    PutBytes(m, 0, Bytes32(MAGIC));
    PutBytes(Put(m, 0, Bytes32(MAGIC)), VERSION_AT, Bytes16(VERSION));
    PutBytes(Stamped(m), CRC_AT, Bytes32(Crc(Stamped(m)[..CRC_AT])));
    assert Saved(m)[VERSION_AT..IMAGE_ID_AT] == Stamped(m)[VERSION_AT..IMAGE_ID_AT];
  }

  /** A saved file loads, even with bytes appended, and every field but magic number, version and
      checksum is as it was. */
  lemma SavedLoads(m: Meta, extra: seq<byte>)
    ensures Accepts(Contents(Saved(m) + extra))
    ensures Saved(m)[..6] == Bytes32(0x4844_424D) + Bytes16(1)
    ensures Saved(m)[IMAGE_ID_AT..CRC_AT] == m[IMAGE_ID_AT..CRC_AT]
  {
    hide Crc, Bytes16, Bytes32, Word32, Saved, Stamped;
    SavedLayout(m);
    var file := Saved(m) + extra;
    assert file[..SIZE] == Saved(m);
    assert Saved(m)[..6] == Saved(m)[..4] + Saved(m)[4..6];
    var crc := Crc(Stamped(m)[..CRC_AT]);
    assert Saved(m)[CRC_AT..] == Bytes32(crc);
    WordOfBytes32(MAGIC);
    WordOfBytes32(crc);
  }

  /** Only a whole record that starts with the magic number and ends with its checksum is accepted. */
  lemma AcceptedRecord(bytes: seq<byte>)
    ensures Accepts(Contents(bytes)) <==>
      |bytes| >= 310 && bytes[..4] == Bytes32(0x4844_424D) && bytes[306..310] == Bytes32(Crc(bytes[..306]))
    ensures !Accepts(Missing)
  {
    hide Crc, Word32, Bytes32;
    if |bytes| >= 310 {
      var m := bytes[..SIZE];
      assert m[..4] == bytes[..4] && m[306..] == bytes[306..310] && m[..306] == bytes[..306];
      WordOfBytes32(MAGIC);
      BytesOfWord32(bytes[..4]);
      WordOfBytes32(Crc(bytes[..306]));
      BytesOfWord32(bytes[306..310]);
    }
  }

  /** A saved file damaged inside four adjacent bytes, anywhere, does not load. */
  lemma DamagedIsRejected(m: Meta, file: seq<byte>, p: nat)
    requires |file| >= SIZE && file[..SIZE] != Saved(m) && DifferWithin(Saved(m), file[..SIZE], p)
    ensures !Accepts(Contents(file))
  {
    hide Crc, Bytes16, Bytes32, Word32, Saved, Stamped, DifferWithin;
    SavedLayout(m);
    var record := file[..SIZE];
    BytesOfWord32(record[CRC_AT..]);
    assert record == record[..CRC_AT] + record[CRC_AT..];
    DamageDetected(Stamped(m)[..CRC_AT], record[..CRC_AT], Word32(record[CRC_AT..]), p);
  }
}
