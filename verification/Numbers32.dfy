/** The number a 32-bit word stands for, byte by byte. */
module Numbers32 {
  import opened Bytes8

  function Byte0(s: bv32): Byte { (s & 0xFF) as bv8 }
  function Byte1(s: bv32): Byte { ((s >> 8) & 0xFF) as bv8 }
  function Byte2(s: bv32): Byte { ((s >> 16) & 0xFF) as bv8 }
  function Byte3(s: bv32): Byte { ((s >> 24) & 0xFF) as bv8 }

  function Number(s: bv32): nat {
    SizeOf(Byte0(s)) + 0x100 * SizeOf(Byte1(s)) + 0x1_0000 * SizeOf(Byte2(s)) + 0x100_0000 * SizeOf(Byte3(s))
  }

  lemma NumberOfZero()
    ensures Number(0) == 0
  {}

  lemma NumberOfLast()
    ensures Number(0xFFFF_FFFF) == 0xFFFF_FFFF
  {}

  /** Counting up by one, as long as the word does not wrap. */
  lemma NextNumber(s: bv32)
    requires s != 0xFFFF_FFFF
    ensures Number(s + 1) == Number(s) + 1
  {
    hide Byte0, Byte1, Byte2, Byte3, SizeOf;
    Carry(s);
    SizeOfZero();
    SizeOfLast();
    if Byte0(s) != 0xFF { SizeOfNext(Byte0(s)); }
    else if Byte1(s) != 0xFF { SizeOfNext(Byte1(s)); }
    else if Byte2(s) != 0xFF { SizeOfNext(Byte2(s)); }
    else { SizeOfNext(Byte3(s)); }
  }

  lemma Carry(s: bv32)
    requires s != 0xFFFF_FFFF
    ensures Byte0(s) != 0xFF ==>
              && Byte0(s + 1) == Byte0(s) + 1 && Byte1(s + 1) == Byte1(s)
              && Byte2(s + 1) == Byte2(s) && Byte3(s + 1) == Byte3(s)
    ensures Byte0(s) == 0xFF && Byte1(s) != 0xFF ==>
              Byte0(s + 1) == 0 && Byte1(s + 1) == Byte1(s) + 1 && Byte2(s + 1) == Byte2(s) && Byte3(s + 1) == Byte3(s)
    ensures Byte0(s) == 0xFF && Byte1(s) == 0xFF && Byte2(s) != 0xFF ==>
              Byte0(s + 1) == 0 && Byte1(s + 1) == 0 && Byte2(s + 1) == Byte2(s) + 1 && Byte3(s + 1) == Byte3(s)
    ensures Byte0(s) == 0xFF && Byte1(s) == 0xFF && Byte2(s) == 0xFF ==>
              && Byte3(s) != 0xFF
              && Byte0(s + 1) == 0 && Byte1(s + 1) == 0 && Byte2(s + 1) == 0 && Byte3(s + 1) == Byte3(s) + 1
  {
  }

  lemma SizeOfZero() ensures SizeOf(0) == 0 {}
  lemma SizeOfLast() ensures SizeOf(0xFF) == 255 {}

  lemma SizeOfNext(b: Byte)
    requires b != 0xFF
    ensures SizeOf(b + 1) == SizeOf(b) + 1
  {
  }
}
