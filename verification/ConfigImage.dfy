/** The binary slot image of the configuration service. */
module ConfigImage {
  import opened Uhal
  import opened Bytes8
  import opened Crc
  import opened CrcPolynomial
  import opened EntryTable

  const KEY_CAPACITY: nat := 24
  const VALUE_CAPACITY: nat := 64
  const RECORD_CAPACITY: nat := 24
  const SLOT_BYTES: nat := 2304
  const CRC_OFFSET: nat := 2300
  const MAGIC: bv32 := 0x3147_4643

  type ConfigEntry = Entry<Bytes, Bytes>

  function Zeroes(n: nat): (z: Bytes)
    ensures |z| == n
  {
    seq(n, _ => 0)
  }

  /** Keys are non-empty C strings shorter than their buffer. */
  ghost predicate GoodKey(key: Bytes) { 0 < |key| < KEY_CAPACITY && 0 !in key }

  ghost predicate GoodEntry(e: ConfigEntry) {
    e.Bound? ==> GoodKey(e.key) && |e.value| <= VALUE_CAPACITY
  }

  ghost predicate GoodEntries(es: seq<ConfigEntry>) {
    forall i :: 0 <= i < |es| ==> GoodEntry(es[i])
  }

  // ---- writing -------------------------------------------------------------------

  function EncodeEntry(e: ConfigEntry): Bytes {
    match e
    case Free => []
    case Bound(key, value) => [ByteOf(|key|), ByteOf(|value|)] + key + value
  }

  function Flat(es: seq<ConfigEntry>): Bytes {
    if es == [] then [] else EncodeEntry(es[0]) + Flat(es[1..])
  }

  function Content(es: seq<ConfigEntry>, sequence: bv32): Bytes {
    Field32(MAGIC) + Field32(sequence) + [ByteOf(|Used(es)|)] + Flat(es)
  }

  /** The 2304 bytes written to a slot. */
  function ImageOf(es: seq<ConfigEntry>, sequence: bv32): Bytes
    requires |Content(es, sequence)| <= CRC_OFFSET
  {
    var front := Content(es, sequence) + Zeroes(CRC_OFFSET - |Content(es, sequence)|);
    front + Field32(Crc32(front))
  }

  lemma ImageOfIsImage(es: seq<ConfigEntry>, sequence: bv32)
    requires |Content(es, sequence)| <= CRC_OFFSET
    ensures IsImage(es, sequence, ImageOf(es, sequence))
  {}

  /** Content, zero padding, and the CRC-32 of both. */
  ghost predicate IsImage(es: seq<ConfigEntry>, sequence: bv32, image: Bytes) {
    && |Content(es, sequence)| <= CRC_OFFSET && |image| == SLOT_BYTES
    && image[..CRC_OFFSET] == Content(es, sequence) + Zeroes(CRC_OFFSET - |Content(es, sequence)|)
    && Word(image[CRC_OFFSET..]) == Crc32(image[..CRC_OFFSET])
  }

  lemma FlatAppend(es: seq<ConfigEntry>, e: ConfigEntry)
    ensures Flat(es + [e]) == Flat(es) + EncodeEntry(e)
    ensures Used(es + [e]) == Used(es) + if e.Bound? then [e] else []
  {
    hide *;
    FlatAdds(es, e);
    UsedAdds(es, e);
  }

  lemma {:induction false} FlatAdds(es: seq<ConfigEntry>, e: ConfigEntry)
    ensures Flat(es + [e]) == Flat(es) + EncodeEntry(e)
  {
    hide EncodeEntry;
    if es == [] {
      assert es + [e] == [e] && [e][1..] == [];
    } else {
      assert (es + [e])[1..] == es[1..] + [e];
      FlatAdds(es[1..], e);
      Assoc(EncodeEntry(es[0]), Flat(es[1..]), EncodeEntry(e));
    }
  }

  lemma {:induction false} UsedAdds(es: seq<ConfigEntry>, e: ConfigEntry)
    ensures Used(es + [e]) == Used(es) + if e.Bound? then [e] else []
  {
    if es == [] {
      assert es + [e] == [e] && [e][1..] == [];
    } else {
      assert (es + [e])[1..] == es[1..] + [e];
      UsedAdds(es[1..], e);
    }
  }

  lemma {:induction false} FlatBound(es: seq<ConfigEntry>)
    requires GoodEntries(es)
    ensures |Flat(es)| <= 89 * |es|
  {
    hide ByteOf;
    if es != [] {
      assert GoodEntry(es[0]);
      FlatBound(es[1..]);
    }
  }

  /** A full table always fits: 9 + 24 * (2 + 23 + 64) <= 2300. */
  lemma ContentFits(es: seq<ConfigEntry>, sequence: bv32)
    requires GoodEntries(es) && |es| <= RECORD_CAPACITY
    ensures |Content(es, sequence)| <= CRC_OFFSET
  {
    hide Field32, Flat;
    FlatBound(es);
  }

  // ---- reading -------------------------------------------------------------------

  datatype Snapshot = Snapshot(sequence: bv32, entries: seq<ConfigEntry>)

  /** One record at the front of a byte string. */
  function ParseEntry(b: Bytes): (r: Option<ConfigEntry>)
    ensures r.Some? ==> r.value.Bound? && 2 + |r.value.key| + |r.value.value| <= |b|
  {
    if |b| < 2 then None
    else
      var (k, v) := (SizeOf(b[0]), SizeOf(b[1]));
      if k == 0 || k >= KEY_CAPACITY || v > VALUE_CAPACITY || |b| < 2 + k + v then None
      else Some(Bound(b[2..2 + k], b[2 + k..2 + k + v]))
  }

  function ParseEntries(b: Bytes, n: nat): Option<seq<ConfigEntry>> {
    if n == 0 then Some([])
    else
      match ParseEntry(b)
      case None => None
      case Some(e) =>
        match ParseEntries(b[2 + |e.key| + |e.value|..], n - 1)
        case None => None
        case Some(es) => Some([e] + es)
  }

  /** What reading a slot yields. */
  function Decoded(image: Bytes): Result<Snapshot> {
    if |image| != SLOT_BYTES || Word(image[CRC_OFFSET..]) != Crc32(image[..CRC_OFFSET]) then Failure(Corrupt)
    else if Word(image[..4]) != MAGIC || SizeOf(image[8]) > RECORD_CAPACITY then Failure(Corrupt)
    else
      match ParseEntries(image[9..CRC_OFFSET], SizeOf(image[8]))
      case None => Failure(Corrupt)
      case Some(es) => Success(Snapshot(Word(image[4..8]), Padded(es, RECORD_CAPACITY)))
  }

  lemma RecordParts(k: Byte, v: Byte, key: Bytes, value: Bytes, rest: Bytes)
    ensures var b := [k, v] + key + value + rest;
            && |b| == 2 + |key| + |value| + |rest| && b[0] == k && b[1] == v
            && b[2..2 + |key|] == key && b[2 + |key|..2 + |key| + |value|] == value
            && b[2 + |key| + |value|..] == rest
  {}

  lemma ParseParts(b: Bytes, key: Bytes, value: Bytes)
    requires |b| >= 2 + |key| + |value| && SizeOf(b[0]) == |key| && SizeOf(b[1]) == |value|
    requires 0 < |key| < KEY_CAPACITY && |value| <= VALUE_CAPACITY
    requires b[2..2 + |key|] == key && b[2 + |key|..2 + |key| + |value|] == value
    ensures ParseEntry(b) == Some(Bound(key, value))
  {
    hide SizeOf;
  }

  lemma EncodedIs(e: ConfigEntry)
    requires e.Bound?
    ensures EncodeEntry(e) == [ByteOf(|e.key|), ByteOf(|e.value|)] + e.key + e.value
  {}

  lemma SizeOk(e: ConfigEntry)
    requires GoodEntry(e) && e.Bound?
    ensures 0 < |e.key| < KEY_CAPACITY && |e.value| <= VALUE_CAPACITY
    ensures |e.key| % 256 == |e.key| && |e.value| % 256 == |e.value|
  {}

  lemma ParseEncoded(e: ConfigEntry, rest: Bytes)
    requires GoodEntry(e) && e.Bound?
    ensures ParseEntry(EncodeEntry(e) + rest) == Some(e)
  {
    hide *;
    var (k, v) := (ByteOf(|e.key|), ByteOf(|e.value|));
    EncodedIs(e);
    SizeOk(e);
    RecordParts(k, v, e.key, e.value, rest);
    SizeOfByte(|e.key|);
    SizeOfByte(|e.value|);
    ParseParts([k, v] + e.key + e.value + rest, e.key, e.value);
  }

  lemma ParseOneMore(e: ConfigEntry, tail: Bytes, n: nat, us: seq<ConfigEntry>)
    requires GoodEntry(e) && e.Bound? && ParseEntries(tail, n) == Some(us)
    ensures ParseEntries(EncodeEntry(e) + tail, n + 1) == Some([e] + us)
  {
    hide ParseEntry, ByteOf;
    ParseEncoded(e, tail);
    assert (EncodeEntry(e) + tail)[2 + |e.key| + |e.value|..] == tail;
  }

  lemma {:induction false} ParseFlat(es: seq<ConfigEntry>, rest: Bytes)
    requires GoodEntries(es)
    ensures ParseEntries(Flat(es) + rest, |Used(es)|) == Some(Used(es))
  {
    if es == [] {
      assert Flat(es) + rest == rest && Used(es) == [];
    } else {
      var (e, flat, us) := (es[0], Flat(es[1..]), Used(es[1..]));
      assert Flat(es) == EncodeEntry(e) + flat;
      assert Used(es) == (if e.Bound? then [e] else []) + us;
      assert GoodEntry(e);
      assert GoodEntries(es[1..]);
      ParseFlat(es[1..], rest);
      Assoc(EncodeEntry(e), flat, rest);
      hide ParseEntries, Flat, Used, GoodEntries, GoodEntry;
      if e.Bound? {
        hide EncodeEntry;
        ParseOneMore(e, flat + rest, |us|, us);
      } else {
        assert [] + (flat + rest) == flat + rest && [] + us == us;
      }
    }
  }

  lemma Assoc(a: Bytes, b: Bytes, c: Bytes)
    ensures (a + b) + c == a + (b + c)
  {
  }

  lemma DecodeImage(es: seq<ConfigEntry>, sequence: bv32, image: Bytes)
    requires GoodEntries(es) && |es| <= RECORD_CAPACITY && IsImage(es, sequence, image)
    ensures Decoded(image) == Success(Snapshot(sequence, Padded(Used(es), RECORD_CAPACITY)))
  {
    hide Word, Field32, ByteOf, SizeOf, Crc32, ParseEntries, Flat, Zeroes, Used, Decoded, IsImage, Content;
    SizeOfByte(|Used(es)|);
    ImageParts(es, sequence, image);
    ParseFlat(es, Zeroes(CRC_OFFSET - |Content(es, sequence)|));
    DecodedFrom(image, |Used(es)|, Used(es));
  }

  lemma ImageParts(es: seq<ConfigEntry>, sequence: bv32, image: Bytes)
    requires IsImage(es, sequence, image)
    ensures |Content(es, sequence)| <= CRC_OFFSET && |image| == SLOT_BYTES
    ensures Word(image[..4]) == MAGIC && Word(image[4..8]) == sequence && image[8] == ByteOf(|Used(es)|)
    ensures image[9..CRC_OFFSET] == Flat(es) + Zeroes(CRC_OFFSET - |Content(es, sequence)|)
    ensures Word(image[CRC_OFFSET..]) == Crc32(image[..CRC_OFFSET])
  {
    hide Word, Field32, ByteOf, Crc32, Flat, Zeroes, Used;
    var pad := Zeroes(CRC_OFFSET - |Content(es, sequence)|);
    SliceImage(Field32(MAGIC), Field32(sequence), ByteOf(|Used(es)|), Flat(es), pad, image);
  }

  lemma DecodedFrom(image: Bytes, n: nat, us: seq<ConfigEntry>)
    requires |image| == SLOT_BYTES && Word(image[CRC_OFFSET..]) == Crc32(image[..CRC_OFFSET])
    requires Word(image[..4]) == MAGIC && SizeOf(image[8]) == n <= RECORD_CAPACITY
    requires ParseEntries(image[9..CRC_OFFSET], n) == Some(us)
    ensures Decoded(image) == Success(Snapshot(Word(image[4..8]), Padded(us, RECORD_CAPACITY)))
  {}

  lemma SliceImage(magic: Bytes, sequence: Bytes, count: Byte, flat: Bytes, pad: Bytes, image: Bytes)
    requires |magic| == |sequence| == 4 && |image| == SLOT_BYTES
    requires image[..CRC_OFFSET] == magic + sequence + [count] + flat + pad
    ensures image[..4] == magic && image[4..8] == sequence && image[8] == count
    ensures image[9..CRC_OFFSET] == flat + pad
  {}

  /** The bytes of a slot image: the letters CFG1, the sequence number, the number of
      records, the records, zeroes, and the CRC-32 of all these. */
  lemma ImageLayout(es: seq<ConfigEntry>, sequence: bv32, image: Bytes)
    requires IsImage(es, sequence, image)
    ensures |image| == 2304 && image[..4] == [0x43, 0x46, 0x47, 0x31] && Word(image[4..8]) == sequence
    ensures SizeOf(image[8]) == |Used(es)| % 256 && Flat(es) <= image[9..2300]
    ensures forall k :: 9 + |Flat(es)| <= k < 2300 ==> image[k] == 0
    ensures IsRemainder(Dividend(image[..2300], 32), G32, 32, Complemented(Word(image[2300..]), 32))
  {
    ImageParts(es, sequence, image);
    SizeOfByte(|Used(es)|);
    Letters();
    WordInjective(image[..4], [0x43, 0x46, 0x47, 0x31]);
    Crc32IsRemainder(image[..2300], Word(image[2300..]));
    hide Word, Field32, ByteOf, Crc32, Flat, Used, IsRemainder, Dividend, Complemented, IsImage, SizeOf;
    var n := |Flat(es)|;
    forall k | 9 + n <= k < 2300 ensures image[k] == 0 {
      assert image[k] == image[9..CRC_OFFSET][k - 9];
    }
  }

  lemma Letters()
    ensures Word([0x43, 0x46, 0x47, 0x31]) == MAGIC
  {
    WordOfFour(0x43, 0x46, 0x47, 0x31);
  }

  /** A record: the sizes of key and value, and both. */
  lemma RecordLayout(key: Bytes, value: Bytes, rest: seq<ConfigEntry>)
    requires |key| < 256 && |value| < 256
    ensures var b := Flat([Bound(key, value)] + rest);
            && |b| == 2 + |key| + |value| + |Flat(rest)| && SizeOf(b[0]) == |key| && SizeOf(b[1]) == |value|
            && b[2..2 + |key|] == key && b[2 + |key|..2 + |key| + |value|] == value
            && b[2 + |key| + |value|..] == Flat(rest)
  {
    hide SizeOf, ByteOf;
    SizeOfByte(|key|);
    SizeOfByte(|value|);
    RecordParts(ByteOf(|key|), ByteOf(|value|), key, value, Flat(rest));
    var es := [Bound(key, value)] + rest;
    assert es[1..] == rest;
    assert Flat(es) == EncodeEntry(Bound(key, value)) + Flat(rest);
  }

  /** Reading back a written slot gives the same map and sequence number. */
  lemma SlotRoundTrip(es: seq<ConfigEntry>, sequence: bv32, image: Bytes)
    requires GoodEntries(es) && Distinct(es) && |es| == RECORD_CAPACITY && IsImage(es, sequence, image)
    ensures Decoded(image).Success?
    ensures var s := Decoded(image).value;
            && s.sequence == sequence && |s.entries| == RECORD_CAPACITY
            && GoodEntries(s.entries) && Distinct(s.entries) && TableOf(s.entries) == TableOf(es)
  {
    hide Decoded, IsImage, Used, Distinct, TableOf;
    DecodeImage(es, sequence, image);
    CompactTable(es, RECORD_CAPACITY);
    var us := Used(es);
    forall i | 0 <= i < |us| ensures GoodEntry(us[i])
    {
      var j :| 0 <= j < |es| && es[j] == us[i];
    }
  }

  /** A change confined to four consecutive bytes, check field included, is
      always reported as corruption. */
  lemma BurstIsCorrupt(es: seq<ConfigEntry>, sequence: bv32, image: Bytes, damaged: Bytes, i: nat)
    requires IsImage(es, sequence, image)
    requires DifferInside(image, damaged, i, 4) && image != damaged
    ensures Decoded(damaged) == Failure(Corrupt)
  {
    hide Word, Crc32, Content, ParseEntries;
    Crc32DetectsBurst(image, damaged, CRC_OFFSET, i);
  }

  /** An erased slot is recognised by its magic number, whatever its CRC says. */
  lemma ErasedIsCorrupt(image: Bytes)
    requires |image| == SLOT_BYTES && forall k :: 0 <= k < 4 ==> image[k] == 0xFF
    ensures Decoded(image) == Failure(Corrupt)
  {}
}
