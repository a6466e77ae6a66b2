/**
 The crash record (subsys/coredump/coredump.c), which survives a reset in memory that start-up code
 does not clear: how it is sealed, checked and erased.  The record is its bytes up to the checksum
 field, and that field.
 */
module Coredump {
  import opened Crc32

  const MAGIC: bv32 := 0xDEAD_C0DE
  const VERSION: bv32 := 1

  datatype Record = Record(body: seq<bv8>, crc: bv32)

  /** The 32-bit field at offset `i` */
  function Field(body: seq<bv8>, i: nat): bv32
    requires i + 4 <= |body|
  {
    Word(body[i..i + 4])
  }

  /** The record with some of its bytes overwritten */
  function Patched(body: seq<bv8>, i: nat, bytes: seq<bv8>): (r: seq<bv8>)
    requires i + |bytes| <= |body|
    ensures |r| == |body|
  {
    body[..i] + bytes + body[i + |bytes|..]
  }

  /** `vibe_coredump_is_valid` */
  predicate Valid(r: Record)
  {
    && |r.body| >= 8
    && Field(r.body, 0) == MAGIC
    && Field(r.body, 4) == VERSION
    && r.crc == Crc(0, r.body)
  }

  /** The bytes of a captured record: magic, version, and the rest */
  function Sealed(rest: seq<bv8>): Record
  {
    var body := Bytes(MAGIC) + Bytes(VERSION) + rest;
    Record(body, Crc(0, body))
  }

  /** A captured record is valid; it begins with magic and version, lowest byte first, and goes on with the rest. */
  lemma SealedIsValid(rest: seq<bv8>)
    ensures Valid(Sealed(rest))
    ensures Sealed(rest).body == [0xDE, 0xC0, 0xAD, 0xDE, 0x01, 0x00, 0x00, 0x00] + rest
  {
    assert Bytes(MAGIC) == [0xDE, 0xC0, 0xAD, 0xDE];
    assert Bytes(VERSION) == [0x01, 0x00, 0x00, 0x00];
    hide Word, Bytes, Crc;
    var body := Bytes(MAGIC) + Bytes(VERSION) + rest;
    assert body[0..4] == Bytes(MAGIC) && body[4..8] == Bytes(VERSION);
    WordOfBytes(MAGIC);
    WordOfBytes(VERSION);
  }

  /** A valid record with anything changed within four consecutive bytes is not valid any more. */
  lemma CorruptionRejected(r: Record, i: nat, bytes: seq<bv8>)
    requires Valid(r) && |bytes| <= 4 && i + |bytes| <= |r.body|
    ensures Valid(r.(body := Patched(r.body, i, bytes))) <==> r.body[i..i + |bytes|] == bytes
  {
    hide Word, Crc, Bytes;
    var j := i + |bytes|;
    assert r.body == r.body[..i] + r.body[i..j] + r.body[j..];
    if r.body[i..j] != bytes {
      BurstChangesCrc(0, r.body[..i], r.body[i..j], bytes, r.body[j..]);
    } else {
      assert Patched(r.body, i, bytes) == r.body;
    }
  }

  /** So is one whose checksum field is changed in any way. */
  lemma ChecksumCorruptionRejected(r: Record, crc: bv32)
    requires Valid(r)
    ensures Valid(r.(crc := crc)) <==> crc == r.crc
  {
  }

  /** Up to 32 bits in a row, also across five bytes */
  lemma BurstRejected(r: Record, i: nat, bytes: seq<bv8>, j: nat)
    requires Valid(r) && |bytes| == 5 && i + 5 <= |r.body| && j <= 8
    requires LowZero(Xor(Byte(r.body[i]), Byte(bytes[0])), j)
    requires HighZero(Xor(Byte(r.body[i + 4]), Byte(bytes[4])), 32 - j)
    ensures Valid(r.(body := Patched(r.body, i, bytes))) <==> r.body[i..i + 5] == bytes
  {
    hide Word, Crc, Bytes, LowZero, HighZero, Xor, Byte;
    assert r.body == r.body[..i] + r.body[i..i + 5] + r.body[i + 5..];
    BitBurstChangesCrc(0, r.body[..i], r.body[i..i + 5], bytes, r.body[i + 5..], j);
    if r.body[i..i + 5] == bytes {
      assert Patched(r.body, i, bytes) == r.body;
    }
  }

  /**
   Also a burst that runs from the body into the checksum field: with the last bytes of the body changed
   from bit `j` of their word on, and the field in its lowest bits only, 32 bits from the first to the last.
   */
  lemma StraddlingBurstRejected(r: Record, bytes: seq<bv8>, crc: bv32, j: nat)
    requires Valid(r) && |bytes| <= 4 && |bytes| <= |r.body| && j <= 8 * |bytes|
    requires LowZero(Xor(Word(r.body[|r.body| - |bytes|..]), Word(bytes)), j)
    requires HighZero(Xor(r.crc, crc), 8 * |bytes| - j)
    ensures var i := |r.body| - |bytes|;
            Valid(Record(Patched(r.body, i, bytes), crc)) <==> r.body[i..] == bytes && crc == r.crc
  {
    hide Word, Crc, Bytes, LowZero, HighZero, Xor, Shifts, UpBy, DownBy;
    var i := |r.body| - |bytes|;
    var was := r.body[i..];
    var body' := Patched(r.body, i, bytes);
    assert r.body == r.body[..i] + was && body' == r.body[..i] + bytes;
    if crc == Crc(0, body') {
      LastBytesDiffer(0, r.body[..i], was, bytes);
      var e := Xor(Word(was), Word(bytes));
      SteppedDown(e, j, 8 * |bytes|);
      WordsFit(was, bytes);
      HighMore(DownBy(e, j), j, 32 - 8 * |bytes|);
      NoShortMultiple(DownBy(e, j), Xor(r.crc, crc), 8 * |bytes| - j);
      ZeroUp(j);
      XorZeroEqual(Word(was), Word(bytes));
      XorZeroEqual(r.crc, crc);
      WordInjective(was, bytes);
    }
  }

  // ---------- the record in place ----------

  class Store {
    var body: array<bv8>
    var crc: bv32

    ghost function Image(): Record
      reads this, body
    {
      Record(body[..], crc)
    }

    /** Memory comes up with whatever is in it. */
    constructor (body: array<bv8>, crc: bv32)
      requires body.Length >= 8
      ensures this.body == body && this.crc == crc
    {
      this.body, this.crc := body, crc;
    }

    method PutWord(i: nat, w: bv32)
      requires i + 4 <= body.Length
      modifies body
      ensures body[..] == Patched(old(body[..]), i, Bytes(w))
    {
      var b := Bytes(w);
      body[i], body[i + 1], body[i + 2], body[i + 3] := b[0], b[1], b[2], b[3];
      assert body[..] == old(body[..i]) + b + old(body[i + 4..]);
    }

    /** `vibe_coredump_is_valid` */
    method IsValid() returns (valid: bool)
      requires body.Length >= 8
      ensures valid <==> Valid(Image())
    {
      hide Word, Crc;
      var magic := Word(body[0..4]);
      var version := Word(body[4..8]);
      assert body[..][0..4] == body[0..4] && body[..][4..8] == body[4..8];
      if magic != MAGIC || version != VERSION {
        return false;
      }
      var c := Update(0, body[..]);
      valid := crc == c;
    }

    /** `vibe_coredump_clear`: no record is left. */
    method Clear()
      requires body.Length >= 8
      modifies this`crc, body
      ensures !Valid(Image()) && body[4..] == old(body[4..])
    {
      hide Word, Crc, Bytes;
      PutWord(0, 0);
      crc := 0;
      NoMagic(old(body[..]));
      assert body[4..] == body[..][4..];
    }

    /**
     `_vibe_coredump_capture`.  `images` are all states of the record after a store, from the one that
     clears the magic number on: none of them is valid but with the complete new contents.
     */
    method Capture(rest: seq<bv8>) returns (ghost images: seq<Record>)
      requires body.Length == 8 + |rest|
      modifies this`crc, body
      ensures Image() == Sealed(rest) && Valid(Image())
      ensures |images| == |rest| + 4 && images[|rest| + 3] == Image()
      ensures forall i :: 0 <= i < |rest| + 2 ==> !Valid(images[i])
      ensures forall i :: 0 <= i < |images| && Valid(images[i]) ==> images[i].body == Sealed(rest).body
    {
      hide Word, Crc, Bytes;
      PutWord(0, 0);
      NoMagic(old(body[..]));
      images := [Image()];
      PutWord(4, VERSION);
      assert body[..][..8] == Bytes(0) + Bytes(VERSION);
      StillVoid(body[..]);
      images := images + [Image()];
      ghost var filling := Fill(rest);
      ghost var sealing := Seal(rest);
      images := images + filling + sealing;
    }

    /** The fields of the record, behind magic and version */
    method Fill(rest: seq<bv8>) returns (ghost images: seq<Record>)
      requires body.Length == 8 + |rest| && body[..][..8] == Bytes(0) + Bytes(VERSION)
      modifies body
      ensures body[..] == Bytes(0) + Bytes(VERSION) + rest
      ensures |images| == |rest| && forall i :: 0 <= i < |rest| ==> !Valid(images[i])
    {
      hide Word, Crc, Bytes, Valid;
      images := [];
      for i := 0 to |rest|
        invariant body[..][..8] == Bytes(0) + Bytes(VERSION) && body[8..8 + i] == rest[..i]
        invariant |images| == i && forall j :: 0 <= j < i ==> !Valid(images[j])
      {
        body[8 + i] := rest[i];
        assert body[..][..8] == Bytes(0) + Bytes(VERSION);
        StillVoid(body[..]);
        images := images + [Image()];
      }
      assert body[..] == body[..][..8] + rest;
    }

    /** Magic number and checksum */
    method Seal(rest: seq<bv8>) returns (ghost images: seq<Record>)
      requires body[..] == Bytes(0) + Bytes(VERSION) + rest
      modifies this`crc, body
      ensures Image() == Sealed(rest) && Valid(Image())
      ensures |images| == 2 && images[1] == Image() && images[0].body == Image().body
    {
      hide Word, Crc, Bytes, Valid;
      PutWord(0, MAGIC);
      assert body[..] == Bytes(MAGIC) + Bytes(VERSION) + rest;
      images := [Image()];
      crc := Update(0, body[..]);
      SealedIsValid(rest);
      images := images + [Image()];
    }
  }

  lemma NoMagic(body: seq<bv8>)
    requires |body| >= 8
    ensures Field(Patched(body, 0, Bytes(0)), 0) != MAGIC
  {
    hide Word, Bytes;
    WordOfBytes(0);
    assert Patched(body, 0, Bytes(0))[0..4] == Bytes(0);
  }

  lemma StillVoid(body: seq<bv8>)
    requires |body| >= 8 && body[..8] == Bytes(0) + Bytes(VERSION)
    ensures forall crc :: !Valid(Record(body, crc))
  {
    hide Word, Bytes, Crc;
    WordOfBytes(0);
    assert body[0..4] == body[..8][..4] == Bytes(0);
  }
}
