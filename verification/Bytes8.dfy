/** A small number survives being stored in eight bits. */
module ByteCast {
  lemma RoundTrip(n: nat)
    requires n < 256
    ensures (n as bv8) as nat == n
  {
    assert n % 256 == n;
  }
}

/** Bytes, and sizes kept in a byte. */
module Bytes8 {
  import ByteCast

  type Byte = bv8
  type Bytes = seq<Byte>

  /** A size or count stored in one byte, and read back. */
  function ByteOf(n: nat): Byte { Narrow8(n % 256) }
  function Narrow8(n: nat): Byte requires n < 256 { n as bv8 }
  function SizeOf(b: Byte): nat { b as nat }

  lemma ByteOfSize(b: Byte)
    ensures SizeOf(b) < 256 && ByteOf(SizeOf(b)) == b
  {
    hide Narrow8, SizeOf;
    NarrowSize(b);
  }

  lemma NarrowSize(b: Byte)
    ensures SizeOf(b) < 256 && Narrow8(SizeOf(b)) == b
  {
  }

  lemma SizeOfByte(n: nat)
    ensures SizeOf(ByteOf(n)) == n % 256
  {
    hide Narrow8, SizeOf;
    SizeNarrow(n % 256);
  }

  lemma SizeNarrow(n: nat)
    requires n < 256
    ensures SizeOf(Narrow8(n)) == n
  {
    ByteCast.RoundTrip(n);
  }
}

/** A 16-bit register seen as the low half of a 32-bit one. */
module Register16 {
  import opened Bytes8

  function Wide(c: bv16): bv32 { c as bv32 }

  lemma WideXorByte(c: bv16, b: Byte)
    ensures Wide(c ^ (b as bv16)) == Wide(c) ^ (b as bv32)
  {
  }

  lemma WideInjective(a: bv16, b: bv16)
    ensures Wide(a) == Wide(b) <==> a == b
  {
  }
}
