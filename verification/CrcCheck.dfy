/** The check values of both CRCs, computed bit by bit. */
module CrcCheck {
  import opened Bytes8
  import opened Crc

  /** The characters 123456789. */
  function Digits9(): Bytes { [0x31, 0x32, 0x33, 0x34, 0x35, 0x36, 0x37, 0x38, 0x39] }

  lemma FoldThree(p: bv32, c: bv32, x: Byte, y: Byte, z: Byte)
    ensures Fold(p, c, [x, y, z]) == Feed(p, Feed(p, Feed(p, c, x), y), z)
  {
    hide Feed;
    assert [x, y, z][..2] == [x, y] && [x, y][..1] == [x] && [x][..0] == [];
    assert Fold(p, c, [x]) == Feed(p, c, x);
  }

  lemma FoldNine(p: bv32, c: bv32)
    ensures Fold(p, c, Digits9()) ==
            Feed(p, Feed(p, Feed(p, Feed(p, Feed(p, Feed(p, Feed(p, Feed(p, Feed(p, c,
              0x31), 0x32), 0x33), 0x34), 0x35), 0x36), 0x37), 0x38), 0x39)
  {
    hide Feed, Fold;
    assert Digits9() == [0x31, 0x32, 0x33] + [0x34, 0x35, 0x36] + [0x37, 0x38, 0x39];
    FoldAppend(p, c, [0x31, 0x32, 0x33] + [0x34, 0x35, 0x36], [0x37, 0x38, 0x39]);
    FoldAppend(p, c, [0x31, 0x32, 0x33], [0x34, 0x35, 0x36]);
    var d := Fold(p, c, [0x31, 0x32, 0x33]);
    FoldThree(p, c, 0x31, 0x32, 0x33);
    FoldThree(p, d, 0x34, 0x35, 0x36);
    FoldThree(p, Fold(p, d, [0x34, 0x35, 0x36]), 0x37, 0x38, 0x39);
  }

  lemma CheckValues()
    ensures Crc32(Digits9()) == 0xCBF4_3926 && Crc16(Digits9()) == 0x4B37
  {
    hide Feed, Fold;
    FoldNine(IEEE, 0xFFFF_FFFF);
    FoldNine(MODBUS, 0xFFFF);
    Ieee1();
    Ieee2();
    Ieee3();
    Ieee4();
    Ieee5();
    Ieee6();
    Ieee7();
    Ieee8();
    Ieee9();
    Modbus1();
    Modbus2();
    Modbus3();
    Modbus4();
    Modbus5();
    Modbus6();
    Modbus7();
    Modbus8();
    Modbus9();
  }

  lemma Ieee1()
    ensures Feed(IEEE, 0xFFFF_FFFF, 0x31) == 0x7C23_1048
  {
    assert Xor(0xFFFF_FFFF, (0x31 as Byte) as bv32) == 0xFFFF_FFCE;
    assert Bits(IEEE, 0xFFFF_FFCE, 2) == 0xD247_7CD3;
    assert Bits(IEEE, 0xFFFF_FFCE, 4) == 0xAFF5_1D84;
    assert Bits(IEEE, 0xFFFF_FFCE, 6) == 0x2BFD_4761;
  }

  lemma Ieee2()
    ensures Feed(IEEE, 0x7C23_1048, 0x32) == 0xB0AC_BB32
  {
    assert Xor(0x7C23_1048, (0x32 as Byte) as bv32) == 0x7C23_107A;
    assert Bits(IEEE, 0x7C23_107A, 2) == 0xF2B0_473E;
    assert Bits(IEEE, 0x7C23_107A, 4) == 0xD114_92EF;
    assert Bits(IEEE, 0x7C23_107A, 6) == 0xAF21_E60B;
  }

  lemma Ieee3()
    ensures Feed(IEEE, 0xB0AC_BB32, 0x33) == 0x77B7_9C2D
  {
    assert Xor(0xB0AC_BB32, (0x33 as Byte) as bv32) == 0xB0AC_BB01;
    assert Bits(IEEE, 0xB0AC_BB01, 2) == 0x5AF7_6F50;
    assert Bits(IEEE, 0xB0AC_BB01, 4) == 0x16BD_DBD4;
    assert Bits(IEEE, 0xB0AC_BB01, 6) == 0x05AF_76F5;
  }

  lemma Ieee4()
    ensures Feed(IEEE, 0x77B7_9C2D, 0x34) == 0x641C_1F5C
  {
    assert Xor(0x77B7_9C2D, (0x34 as Byte) as bv32) == 0x77B7_9C19;
    assert Bits(IEEE, 0x77B7_9C19, 2) == 0x6B31_A696;
    assert Bits(IEEE, 0x77B7_9C19, 4) == 0xF774_EA85;
    assert Bits(IEEE, 0x77B7_9C19, 6) == 0x4B01_7B31;
  }

  lemma Ieee5()
    ensures Feed(IEEE, 0x641C_1F5C, 0x35) == 0x340A_C5E3
  {
    assert Xor(0x641C_1F5C, (0x35 as Byte) as bv32) == 0x641C_1F69;
    assert Bits(IEEE, 0x641C_1F69, 2) == 0x6FDB_464A;
    assert Bits(IEEE, 0x641C_1F69, 4) == 0xF64E_52B2;
    assert Bits(IEEE, 0x641C_1F69, 6) == 0xD02B_178C;
  }

  lemma Ieee6()
    ensures Feed(IEEE, 0x340A_C5E3, 0x36) == 0xF68D_2C9E
  {
    assert Xor(0x340A_C5E3, (0x36 as Byte) as bv32) == 0x340A_C5D5;
    assert Bits(IEEE, 0x340A_C5D5, 2) == 0x7BDE_F0E5;
    assert Bits(IEEE, 0x340A_C5D5, 4) == 0x682B_FDA9;
    assert Bits(IEEE, 0x340A_C5D5, 6) == 0x6CD6_BEFA;
  }

  lemma Ieee7()
    ensures Feed(IEEE, 0xF68D_2C9E, 0x37) == 0xAFFC_9660
  {
    assert Xor(0xF68D_2C9E, (0x37 as Byte) as bv32) == 0xF68D_2CA9;
    assert Bits(IEEE, 0xF68D_2CA9, 2) == 0x4B7F_0ABA;
    assert Bits(IEEE, 0xF68D_2CA9, 4) == 0xFF67_418E;
    assert Bits(IEEE, 0xF68D_2CA9, 6) == 0xD261_5343;
  }

  lemma Ieee8()
    ensures Feed(IEEE, 0xAFFC_9660, 0x38) == 0x651F_2550
  {
    assert Xor(0xAFFC_9660, (0x38 as Byte) as bv32) == 0xAFFC_9658;
    assert Bits(IEEE, 0xAFFC_9658, 2) == 0x2BFF_2596;
    assert Bits(IEEE, 0xAFFC_9658, 4) == 0xE747_4A45;
    assert Bits(IEEE, 0xAFFC_9658, 6) == 0x4F0D_9301;
  }

  lemma Ieee9()
    ensures Feed(IEEE, 0x651F_2550, 0x39) == 0x340B_C6D9
  {
    assert Xor(0x651F_2550, (0x39 as Byte) as bv32) == 0x651F_2569;
    assert Bits(IEEE, 0x651F_2569, 2) == 0x6F9B_88CA;
    assert Bits(IEEE, 0x651F_2569, 4) == 0xF65E_6112;
    assert Bits(IEEE, 0x651F_2569, 6) == 0xD02F_1B64;
  }

  lemma Modbus1()
    ensures Feed(MODBUS, 0x0000_FFFF, 0x31) == 0x0000_947E
  {
    assert Xor(0x0000_FFFF, (0x31 as Byte) as bv32) == 0x0000_FFCE;
    assert Bits(MODBUS, 0x0000_FFCE, 2) == 0x0000_9FF2;
    assert Bits(MODBUS, 0x0000_FFCE, 4) == 0x0000_87FD;
    assert Bits(MODBUS, 0x0000_FFCE, 6) == 0x0000_D1FE;
  }

  lemma Modbus2()
    ensures Feed(MODBUS, 0x0000_947E, 0x32) == 0x0000_F595
  {
    assert Xor(0x0000_947E, (0x32 as Byte) as bv32) == 0x0000_944C;
    assert Bits(MODBUS, 0x0000_944C, 2) == 0x0000_2513;
    assert Bits(MODBUS, 0x0000_944C, 4) == 0x0000_5944;
    assert Bits(MODBUS, 0x0000_944C, 6) == 0x0000_1651;
  }

  lemma Modbus3()
    ensures Feed(MODBUS, 0x0000_F595, 0x33) == 0x0000_7A75
  {
    assert Xor(0x0000_F595, (0x33 as Byte) as bv32) == 0x0000_F5A6;
    assert Bits(MODBUS, 0x0000_F5A6, 2) == 0x0000_9D68;
    assert Bits(MODBUS, 0x0000_F5A6, 4) == 0x0000_275A;
    assert Bits(MODBUS, 0x0000_F5A6, 6) == 0x0000_A9D7;
  }

  lemma Modbus4()
    ensures Feed(MODBUS, 0x0000_7A75, 0x34) == 0x0000_30BA
  {
    assert Xor(0x0000_7A75, (0x34 as Byte) as bv32) == 0x0000_7A41;
    assert Bits(MODBUS, 0x0000_7A41, 2) == 0x0000_EE91;
    assert Bits(MODBUS, 0x0000_7A41, 4) == 0x0000_CBA5;
    assert Bits(MODBUS, 0x0000_7A41, 6) == 0x0000_C2E8;
  }

  lemma Modbus5()
    ensures Feed(MODBUS, 0x0000_30BA, 0x35) == 0x0000_A471
  {
    assert Xor(0x0000_30BA, (0x35 as Byte) as bv32) == 0x0000_308F;
    assert Bits(MODBUS, 0x0000_308F, 2) == 0x0000_5C23;
    assert Bits(MODBUS, 0x0000_308F, 4) == 0x0000_4708;
    assert Bits(MODBUS, 0x0000_308F, 6) == 0x0000_11C2;
  }

  lemma Modbus6()
    ensures Feed(MODBUS, 0x0000_A471, 0x36) == 0x0000_32E4
  {
    assert Xor(0x0000_A471, (0x36 as Byte) as bv32) == 0x0000_A447;
    assert Bits(MODBUS, 0x0000_A447, 2) == 0x0000_7911;
    assert Bits(MODBUS, 0x0000_A447, 4) == 0x0000_EE45;
    assert Bits(MODBUS, 0x0000_A447, 6) == 0x0000_CB90;
  }

  lemma Modbus7()
    ensures Feed(MODBUS, 0x0000_32E4, 0x37) == 0x0000_9D73
  {
    assert Xor(0x0000_32E4, (0x37 as Byte) as bv32) == 0x0000_32D3;
    assert Bits(MODBUS, 0x0000_32D3, 2) == 0x0000_5CB4;
    assert Bits(MODBUS, 0x0000_32D3, 4) == 0x0000_172D;
    assert Bits(MODBUS, 0x0000_32D3, 6) == 0x0000_F5CA;
  }

  lemma Modbus8()
    ensures Feed(MODBUS, 0x0000_9D73, 0x38) == 0x0000_37DD
  {
    assert Xor(0x0000_9D73, (0x38 as Byte) as bv32) == 0x0000_9D4B;
    assert Bits(MODBUS, 0x0000_9D4B, 2) == 0x0000_7752;
    assert Bits(MODBUS, 0x0000_9D4B, 4) == 0x0000_BDD5;
    assert Bits(MODBUS, 0x0000_9D4B, 6) == 0x0000_DF74;
  }

  lemma Modbus9()
    ensures Feed(MODBUS, 0x0000_37DD, 0x39) == 0x0000_4B37
  {
    assert Xor(0x0000_37DD, (0x39 as Byte) as bv32) == 0x0000_37E4;
    assert Bits(MODBUS, 0x0000_37E4, 2) == 0x0000_0DF9;
    assert Bits(MODBUS, 0x0000_37E4, 4) == 0x0000_F37F;
    assert Bits(MODBUS, 0x0000_37E4, 6) == 0x0000_6CDF;
  }
}
