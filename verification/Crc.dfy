/** The two reflected CRCs of the middleware, as one family over a 32-bit
    register.  A CRC-16 register is a 32-bit register whose upper half stays
    zero; everything below holds for both polynomials. */
module Crc {
  import opened Bytes8
  import opened Register16

  // Reflected polynomials.  CRC-16 of the MODBUS over Serial Line guide V1.02, section 2.5.1.2.
  const MODBUS: bv32 := 0xA001
  // CRC-32 of RFC 1952, section 8.
  const IEEE: bv32 := 0xEDB8_8320

  ghost predicate Known(p: bv32) { p == MODBUS || p == IEEE }

  /** The CRC-16 register is two bytes wide, the CRC-32 register four. */
  ghost predicate InWidth(p: bv32, c: bv32) { p == MODBUS ==> c < 0x1_0000 }

  // The three bit operations the algebra rests on.
  function Xor(a: bv32, b: bv32): bv32 { a ^ b }
  function Half(a: bv32): bv32 { a >> 1 }
  predicate Odd(a: bv32) { a & 1 != 0 }

  /** One bit of polynomial division. */
  function Step(p: bv32, c: bv32): bv32 {
    if Odd(c) then Xor(Half(c), p) else Half(c)
  }

  function Bits(p: bv32, c: bv32, n: nat): bv32 {
    if n == 0 then c else Step(p, Bits(p, c, n - 1))
  }

  function Feed(p: bv32, c: bv32, b: Byte): bv32 { Bits(p, Xor(c, b as bv32), 8) }

  /** The register after the bytes `xs`, starting from `c`. */
  function Fold(p: bv32, c: bv32, xs: Bytes): bv32 {
    if xs == [] then c else Feed(p, Fold(p, c, xs[..|xs| - 1]), xs[|xs| - 1])
  }

  /** The register after `n` zero bytes. */
  function Zeros(p: bv32, c: bv32, n: nat): bv32
    decreases n
  {
    if n == 0 then c else Zeros(p, Bits(p, c, 8), n - 1)
  }

  function Crc16(xs: Bytes): bv32 { Fold(MODBUS, 0xFFFF, xs) }

  function Crc32(xs: Bytes): bv32 { Flip(Fold(IEEE, 0xFFFF_FFFF, xs)) }

  function Flip(c: bv32): bv32 { !c }

  // ---- the loops of the C++ headers -------------------------------------

  method Crc16Modbus(data: array<Byte>, size: nat) returns (crc: bv16)
    requires size <= data.Length
    ensures Wide(crc) == Crc16(data[..size])
  {
    hide Feed;
    crc := 0xFFFF;
    for index := 0 to size
      invariant Wide(crc) == Fold(MODBUS, 0xFFFF, data[..index])
    {
      crc := ShiftByte16(crc, data[index]);
      assert data[..index + 1][..index] == data[..index];
    }
  }

  method ShiftByte16(start: bv16, byte: Byte) returns (crc: bv16)
    ensures Wide(crc) == Feed(MODBUS, Wide(start), byte)
  {
    hide Step, Xor, Wide, Mix16, Divide16;
    crc := Mix16(start, byte);
    for bit := 0 to 8
      invariant Wide(crc) == Bits(MODBUS, Xor(Wide(start), byte as bv32), bit)
    {
      crc := Divide16(crc);
    }
  }

  function Mix16(c: bv16, b: Byte): (d: bv16)
    ensures Wide(d) == Xor(Wide(c), b as bv32)
  {
    WideXorByte(c, b);
    hide Wide;
    c ^ (b as bv16)
  }

  function Divide16(c: bv16): (d: bv16)
    ensures Wide(d) == Step(MODBUS, Wide(c))
  {
    hide Xor, Half, Odd, Wide;
    WideParts(c);
    WideXor(c >> 1);
    if c & 1 != 0 then (c >> 1) ^ 0xA001 else c >> 1
  }

  lemma WideParts(c: bv16)
    ensures Odd(Wide(c)) <==> c & 1 != 0
    ensures Half(Wide(c)) == Wide(c >> 1)
  {
  }

  lemma WideXor(h: bv16)
    ensures Xor(Wide(h), MODBUS) == Wide(h ^ 0xA001)
  {
  }

  method Crc32Ieee(data: array<Byte>, size: nat) returns (crc: bv32)
    requires size <= data.Length
    ensures crc == Crc32(data[..size])
  {
    hide Feed;
    crc := 0xFFFF_FFFF;
    for index := 0 to size
      invariant crc == Fold(IEEE, 0xFFFF_FFFF, data[..index])
    {
      crc := ShiftByte32(crc, data[index]);
      assert data[..index + 1][..index] == data[..index];
    }
    crc := Flip(crc);
  }

  method ShiftByte32(start: bv32, byte: Byte) returns (crc: bv32)
    ensures crc == Feed(IEEE, start, byte)
  {
    hide Step, Xor, Divide32;
    crc := Xor(start, byte as bv32);
    for bit := 0 to 8
      invariant crc == Bits(IEEE, Xor(start, byte as bv32), bit)
    {
      crc := Divide32(crc);
    }
  }

  /** The branch-free form of the CRC-32 header is the branching one. */
  function Divide32(c: bv32): (d: bv32)
    ensures d == Step(IEEE, c)
  {
    var mask := 0 - (c & 1);
    (c >> 1) ^ (0xEDB8_8320 & mask)
  }

  // ---- injectivity: no register value is forgotten -------------------------

  lemma StepInjective(p: bv32, a: bv32, b: bv32)
    requires Known(p) && InWidth(p, a) && InWidth(p, b)
    ensures InWidth(p, Step(p, a))
    ensures Step(p, a) == Step(p, b) ==> a == b
  {
    hide Step;
    if p == MODBUS {
      StepInjective16(a, b);
    } else {
      StepInjective32(a, b);
    }
  }

  lemma StepInjective16(a: bv32, b: bv32)
    requires a < 0x1_0000 && b < 0x1_0000
    ensures Step(MODBUS, a) < 0x1_0000
    ensures Step(MODBUS, a) == Step(MODBUS, b) ==> a == b
  {
  }

  lemma StepInjective32(a: bv32, b: bv32)
    ensures Step(IEEE, a) == Step(IEEE, b) ==> a == b
  {
  }

  lemma {:induction false} BitsInjective(p: bv32, a: bv32, b: bv32, n: nat)
    requires Known(p) && InWidth(p, a) && InWidth(p, b)
    ensures InWidth(p, Bits(p, a, n)) && InWidth(p, Bits(p, b, n))
    ensures Bits(p, a, n) == Bits(p, b, n) ==> a == b
  {
    hide Step, InWidth;
    if n > 0 {
      BitsInjective(p, a, b, n - 1);
      StepInjective(p, Bits(p, a, n - 1), Bits(p, b, n - 1));
      StepInjective(p, Bits(p, b, n - 1), Bits(p, a, n - 1));
    }
  }

  lemma {:induction false} ZerosInjective(p: bv32, a: bv32, b: bv32, n: nat)
    requires Known(p) && InWidth(p, a) && InWidth(p, b)
    ensures Zeros(p, a, n) == Zeros(p, b, n) ==> a == b
    decreases n
  {
    hide Bits, InWidth;
    if n > 0 {
      BitsInjective(p, a, b, 8);
      ZerosInjective(p, Bits(p, a, 8), Bits(p, b, 8), n - 1);
    }
  }

  lemma FeedInjective(p: bv32, a: bv32, b: bv32, x: Byte)
    requires Known(p) && InWidth(p, a) && InWidth(p, b)
    ensures InWidth(p, Feed(p, a, x))
    ensures Feed(p, a, x) == Feed(p, b, x) ==> a == b
  {
    hide Bits, InWidth, Xor;
    XorByte(p, a, x);
    XorByte(p, b, x);
    BitsInjective(p, Xor(a, x as bv32), Xor(b, x as bv32), 8);
    XorCancel(a, b, x as bv32);
  }

  lemma XorByte(p: bv32, a: bv32, b: Byte)
    requires InWidth(p, a)
    ensures InWidth(p, Xor(a, b as bv32))
  {
  }

  lemma XorCancel(a: bv32, b: bv32, x: bv32)
    ensures Xor(a, x) == Xor(b, x) ==> a == b
    ensures Xor(x, a) == Xor(x, b) ==> a == b
  {
  }

  lemma {:induction false} FoldInjective(p: bv32, a: bv32, b: bv32, xs: Bytes)
    requires Known(p) && InWidth(p, a) && InWidth(p, b)
    ensures InWidth(p, Fold(p, a, xs)) && InWidth(p, Fold(p, b, xs))
    ensures Fold(p, a, xs) == Fold(p, b, xs) ==> a == b
  {
    hide Feed, InWidth;
    if xs != [] {
      var (front, x) := (xs[..|xs| - 1], xs[|xs| - 1]);
      FoldInjective(p, a, b, front);
      FeedInjective(p, Fold(p, a, front), Fold(p, b, front), x);
      FeedInjective(p, Fold(p, b, front), Fold(p, a, front), x);
    }
  }

  lemma {:induction false} FoldAppend(p: bv32, c: bv32, xs: Bytes, ys: Bytes)
    ensures Fold(p, c, xs + ys) == Fold(p, Fold(p, c, xs), ys)
  {
    hide Feed;
    if ys == [] {
      assert xs + ys == xs;
    } else {
      assert (xs + ys)[..|xs + ys| - 1] == xs + ys[..|ys| - 1];
      FoldAppend(p, c, xs, ys[..|ys| - 1]);
    }
  }

  // ---- a short window of bytes enters the register as one word -------------

  function Up(w: bv32): bv32 { w << 8 }

  /** The bytes as a little-endian word, first byte lowest. */
  function Word(xs: Bytes): bv32 {
    if xs == [] then 0 else Xor(xs[0] as bv32, Up(Word(xs[1..])))
  }

  function Shift(v: bv32, n: nat): bv32 {
    if n == 0 then v else Half(Shift(v, n - 1))
  }

  /** The low `n` bits of `v` are zero. */
  ghost predicate LowZero(v: bv32, n: nat) {
    n == 0 || (LowZero(v, n - 1) && !Odd(Shift(v, n - 1)))
  }

  lemma OddXor(a: bv32, v: bv32)
    requires !Odd(v)
    ensures Odd(Xor(a, v)) == Odd(a)
  {
  }

  lemma HalfXor(a: bv32, b: bv32)
    ensures Half(Xor(a, b)) == Xor(Half(a), Half(b))
  {
  }

  lemma XorSwap(a: bv32, b: bv32, c: bv32)
    ensures Xor(Xor(a, b), c) == Xor(Xor(a, c), b)
    ensures Xor(Xor(a, b), c) == Xor(a, Xor(b, c))
  {
  }

  lemma StepEven(p: bv32, a: bv32, v: bv32)
    requires !Odd(v)
    ensures Step(p, Xor(a, v)) == Xor(Step(p, a), Half(v))
  {
    hide Xor, Half, Odd;
    OddXor(a, v);
    HalfXor(a, v);
    XorSwap(Half(a), Half(v), p);
  }

  lemma {:induction false} BitsLowZero(p: bv32, a: bv32, v: bv32, n: nat)
    requires LowZero(v, n)
    ensures Bits(p, Xor(a, v), n) == Xor(Bits(p, a, n), Shift(v, n))
  {
    hide Step, Xor, Half, Odd;
    if n > 0 {
      BitsLowZero(p, a, v, n - 1);
      StepEven(p, Bits(p, a, n - 1), Shift(v, n - 1));
    }
  }

  lemma UpThenShift(w: bv32)
    requires w < 0x100_0000
    ensures LowZero(Up(w), 8) && Shift(Up(w), 8) == w
  {
    hide Half, Odd, Up;
    HalfUp(w);
    var v := Up(w);
    assert Shift(v, 0) == v && LowZero(v, 0);
    assert Shift(v, 1) == w << 7 && LowZero(v, 1);
    assert Shift(v, 2) == w << 6 && LowZero(v, 2);
    assert Shift(v, 3) == w << 5 && LowZero(v, 3);
    assert Shift(v, 4) == w << 4 && LowZero(v, 4);
    assert Shift(v, 5) == w << 3 && LowZero(v, 5);
    assert Shift(v, 6) == w << 2 && LowZero(v, 6);
    assert Shift(v, 7) == w << 1 && LowZero(v, 7);
  }

  lemma HalfUp(w: bv32)
    requires w < 0x100_0000
    ensures Half(Up(w)) == w << 7 && Half(w << 7) == w << 6 && Half(w << 6) == w << 5
    ensures Half(w << 5) == w << 4 && Half(w << 4) == w << 3 && Half(w << 3) == w << 2
    ensures Half(w << 2) == w << 1 && Half(w << 1) == w
    ensures !Odd(Up(w)) && !Odd(w << 7) && !Odd(w << 6) && !Odd(w << 5)
    ensures !Odd(w << 4) && !Odd(w << 3) && !Odd(w << 2) && !Odd(w << 1)
  {
    hide Half, Odd;
    HalfTop(w); HalfHigh(w); HalfMid(w); HalfLow(w);
  }

  lemma HalfTop(w: bv32)
    requires w < 0x100_0000
    ensures Half(Up(w)) == w << 7 && !Odd(Up(w)) && Half(w << 7) == w << 6 && !Odd(w << 7)
  {
  }

  lemma HalfHigh(w: bv32)
    requires w < 0x100_0000
    ensures Half(w << 6) == w << 5 && !Odd(w << 6) && Half(w << 5) == w << 4 && !Odd(w << 5)
  {
  }

  lemma HalfMid(w: bv32)
    requires w < 0x100_0000
    ensures Half(w << 4) == w << 3 && !Odd(w << 4) && Half(w << 3) == w << 2 && !Odd(w << 3)
  {
  }

  lemma HalfLow(w: bv32)
    requires w < 0x100_0000
    ensures Half(w << 2) == w << 1 && !Odd(w << 2) && Half(w << 1) == w && !Odd(w << 1)
  {
  }

  lemma WordBound(xs: Bytes)
    requires |xs| <= 3
    ensures |xs| <= 1 ==> Word(xs) < 0x100
    ensures |xs| <= 2 ==> Word(xs) < 0x1_0000
    ensures Word(xs) < 0x100_0000
    decreases |xs|
  {}

  lemma SplitWord(b: Byte, w: bv32, b': Byte, w': bv32)
    requires w < 0x100_0000 && w' < 0x100_0000
    requires Xor(b as bv32, Up(w)) == Xor(b' as bv32, Up(w'))
    ensures b == b' && w == w'
  {
  }

  lemma {:induction false} WordInjective(xs: Bytes, ys: Bytes)
    requires |xs| == |ys| <= 4 && Word(xs) == Word(ys)
    ensures xs == ys
    decreases |xs|
  {
    hide Xor, Up;
    if xs != [] {
      WordBound(xs[1..]);
      WordBound(ys[1..]);
      SplitWord(xs[0], Word(xs[1..]), ys[0], Word(ys[1..]));
      WordInjective(xs[1..], ys[1..]);
      assert xs == [xs[0]] + xs[1..] && ys == [ys[0]] + ys[1..];
    }
  }

  lemma WordOfOne(b: Byte)
    ensures Word([b]) == b as bv32
  {}

  lemma WordOfTwo(lo: Byte, hi: Byte)
    ensures Word([lo, hi]) == Xor(lo as bv32, Up(hi as bv32))
  {
    hide Xor, Up;
    assert [lo, hi][1..] == [hi];
    WordOfOne(hi);
  }

  /** A CRC-16 as it is sent: low byte first. */
  function Field16(crc: bv16): (f: Bytes)
    ensures |f| == 2 && Word(f) == Wide(crc)
  {
    var (lo, hi) := ((crc & 0xFF) as bv8, ((crc >> 8) & 0xFF) as bv8);
    WordOfTwo(lo, hi);
    JoinBytes16(crc);
    [lo, hi]
  }

  lemma JoinBytes16(crc: bv16)
    ensures Xor(((crc & 0xFF) as bv8) as bv32, Up((((crc >> 8) & 0xFF) as bv8) as bv32)) == Wide(crc)
  {
  }

  function Join16(lo: Byte, hi: Byte): (w: bv16)
    ensures Wide(w) == Word([lo, hi])
  {
    WordOfTwo(lo, hi);
    OrIsXor16(lo, hi);
    (lo as bv16) | ((hi as bv16) << 8)
  }

  lemma OrIsXor16(lo: Byte, hi: Byte)
    ensures Wide((lo as bv16) | ((hi as bv16) << 8)) == Xor(lo as bv32, Up(hi as bv32))
  {
  }

  /** A `uint32_t` as it is stored: lowest byte first. */
  function Field32(value: bv32): (f: Bytes)
    ensures |f| == 4 && Word(f) == value
  {
    var f := [(value & 0xFF) as bv8, ((value >> 8) & 0xFF) as bv8,
              ((value >> 16) & 0xFF) as bv8, ((value >> 24) & 0xFF) as bv8];
    WordOfFour(f[0], f[1], f[2], f[3]);
    JoinBytes32(value);
    f
  }

  lemma WordOfFour(b0: Byte, b1: Byte, b2: Byte, b3: Byte)
    ensures Word([b0, b1, b2, b3])
         == Xor(b0 as bv32, Up(Xor(b1 as bv32, Up(Xor(b2 as bv32, Up(b3 as bv32))))))
  {
    hide Xor, Up;
    assert [b0, b1, b2, b3][1..] == [b1, b2, b3] && [b1, b2, b3][1..] == [b2, b3];
    WordOfTwo(b2, b3);
  }

  lemma JoinBytes32(v: bv32)
    ensures Xor(((v & 0xFF) as bv8) as bv32,
                Up(Xor((((v >> 8) & 0xFF) as bv8) as bv32,
                       Up(Xor((((v >> 16) & 0xFF) as bv8) as bv32,
                              Up((((v >> 24) & 0xFF) as bv8) as bv32)))))) == v
  {
  }

  function Join32(b0: Byte, b1: Byte, b2: Byte, b3: Byte): (w: bv32)
    ensures w == Word([b0, b1, b2, b3])
  {
    WordOfFour(b0, b1, b2, b3);
    OrIsXor32(b0, b1, b2, b3);
    (b0 as bv32) | ((b1 as bv32) << 8) | ((b2 as bv32) << 16) | ((b3 as bv32) << 24)
  }

  lemma OrIsXor32(b0: Byte, b1: Byte, b2: Byte, b3: Byte)
    ensures (b0 as bv32) | ((b1 as bv32) << 8) | ((b2 as bv32) << 16) | ((b3 as bv32) << 24)
         == Xor(b0 as bv32, Up(Xor(b1 as bv32, Up(Xor(b2 as bv32, Up(b3 as bv32))))))
  {
  }

  /** Up to four bytes leave the register as if their little-endian word had
      been mixed in first and zero bytes fed afterwards. */
  lemma {:induction false} Load(p: bv32, c: bv32, xs: Bytes)
    requires |xs| <= 4
    ensures Fold(p, c, xs) == Zeros(p, Xor(c, Word(xs)), |xs|)
    decreases |xs|
  {
    hide Bits, Xor, Up;
    if xs == [] {
      XorZero(c);
    } else {
      var (x, rest) := (xs[0], xs[1..]);
      assert xs == [x] + rest;
      assert [x][..0] == [];
      FoldAppend(p, c, [x], rest);
      Load(p, Feed(p, c, x), rest);
      WordBound(rest);
      UpThenShift(Word(rest));
      XorSwap(c, x as bv32, Up(Word(rest)));
      BitsLowZero(p, Xor(c, x as bv32), Up(Word(rest)), 8);
    }
  }

  lemma XorZero(c: bv32)
    ensures Xor(c, 0) == c
  {
  }

  // ---- what a matching check field means ------------------------------------

  lemma {:induction false} ZeroStaysZero(p: bv32, n: nat)
    ensures Bits(p, 0, n) == 0
  {
    if n > 0 { ZeroStaysZero(p, n - 1); }
  }

  lemma {:induction false} ZerosOfZero(p: bv32, n: nat)
    ensures Zeros(p, 0, n) == 0
  {
    hide Bits;
    if n > 0 {
      ZeroStaysZero(p, 8);
      ZerosOfZero(p, n - 1);
    }
  }

  lemma XorSelf(c: bv32, w: bv32)
    ensures Xor(c, w) == 0 <==> w == c
  {
    hide Xor;
    XorOwn(c);
    XorCancel(w, c, c);
  }

  lemma XorOwn(c: bv32)
    ensures Xor(c, c) == 0
  {}

  lemma XorFlip(c: bv32, w: bv32)
    ensures Xor(c, w) == 0xFFFF_FFFF <==> w == Flip(c)
  {
    hide Xor, Flip;
    XorOwnFlip(c);
    XorCancel(w, Flip(c), c);
  }

  lemma XorOwnFlip(c: bv32)
    ensures Xor(c, Flip(c)) == 0xFFFF_FFFF
  {
  }

  /** The stored CRC-16 matches exactly when the register over body and field is zero. */
  lemma Crc16Matches(body: Bytes, field: Bytes)
    requires |field| == 2
    ensures Word(field) == Crc16(body) <==> Fold(MODBUS, 0xFFFF, body + field) == 0
  {
    hide Fold, Zeros, Xor, Word, Bits;
    var c := Fold(MODBUS, 0xFFFF, body);
    FoldAppend(MODBUS, 0xFFFF, body, field);
    Load(MODBUS, c, field);
    XorSelf(c, Word(field));
    ZerosOfZero(MODBUS, 2);
    FoldInjective(MODBUS, 0xFFFF, 0xFFFF, body);
    WordInWidth(c, field);
    ZerosInjective(MODBUS, Xor(c, Word(field)), 0, 2);
  }

  lemma WordInWidth(c: bv32, xs: Bytes)
    requires |xs| <= 2 && InWidth(MODBUS, c)
    ensures InWidth(MODBUS, Xor(c, Word(xs)))
  {
    hide Xor, Word, Up;
    WordBound(xs);
    XorBelow(c, Word(xs));
  }

  lemma XorBelow(a: bv32, b: bv32)
    requires a < 0x1_0000 && b < 0x1_0000
    ensures Xor(a, b) < 0x1_0000
  {
  }

  /** The stored CRC-32 matches exactly when the register over body and field
      is one fixed residue. */
  lemma Crc32Matches(body: Bytes, field: Bytes)
    requires |field| == 4
    ensures Word(field) == Crc32(body)
       <==> Fold(IEEE, 0xFFFF_FFFF, body + field) == Zeros(IEEE, 0xFFFF_FFFF, 4)
  {
    hide Fold, Zeros, Xor, Word, Bits, Flip;
    var c := Fold(IEEE, 0xFFFF_FFFF, body);
    FoldAppend(IEEE, 0xFFFF_FFFF, body, field);
    Load(IEEE, c, field);
    XorFlip(c, Word(field));
    ZerosInjective(IEEE, Xor(c, Word(field)), 0xFFFF_FFFF, 4);
  }

  // ---- bursts ----------------------------------------------------------------

  /** Two byte strings that agree outside a window of `k` bytes. */
  ghost predicate DifferInside(xs: Bytes, ys: Bytes, i: nat, k: nat) {
    && |xs| == |ys| && i + k <= |xs|
    && xs[..i] == ys[..i] && xs[i + k..] == ys[i + k..]
  }

  /** A register as wide as the window tells the two strings apart. */
  lemma BurstChangesRegister(p: bv32, c: bv32, xs: Bytes, ys: Bytes, i: nat, k: nat)
    requires Known(p) && InWidth(p, c)
    requires k <= if p == MODBUS then 2 else 4
    requires DifferInside(xs, ys, i, k)
    ensures Fold(p, c, xs) == Fold(p, c, ys) ==> xs == ys
  {
    hide Fold, Zeros, Xor, Word;
    if Fold(p, c, xs) == Fold(p, c, ys) {
      var (head, tail) := (xs[..i], xs[i + k..]);
      var (mx, my) := (xs[i..i + k], ys[i..i + k]);
      assert xs == head + mx + tail && ys == head + my + tail;
      FoldInjective(p, c, c, head);
      var d := Fold(p, c, head);
      FoldAppend(p, c, head + mx, tail);
      FoldAppend(p, c, head + my, tail);
      FoldAppend(p, c, head, mx);
      FoldAppend(p, c, head, my);
      FoldInjective(p, d, d, mx);
      FoldInjective(p, d, d, my);
      FoldInjective(p, Fold(p, d, mx), Fold(p, d, my), tail);
      Load(p, d, mx);
      Load(p, d, my);
      if p == MODBUS {
        WordInWidth(d, mx);
        WordInWidth(d, my);
      }
      ZerosInjective(p, Xor(d, Word(mx)), Xor(d, Word(my)), k);
      XorCancel(Word(mx), Word(my), d);
      WordInjective(mx, my);
    }
  }

  /** CRC-16 accepts no change confined to two consecutive bytes, wherever the
      window lies across body and check field. */
  lemma Crc16DetectsBurst(xs: Bytes, ys: Bytes, n: nat, i: nat)
    requires |xs| == n + 2 && DifferInside(xs, ys, i, 2) && xs != ys
    requires Word(xs[n..]) == Crc16(xs[..n])
    ensures Word(ys[n..]) != Crc16(ys[..n])
  {
    hide Fold, Word;
    assert xs == xs[..n] + xs[n..] && ys == ys[..n] + ys[n..];
    Crc16Matches(xs[..n], xs[n..]);
    Crc16Matches(ys[..n], ys[n..]);
    BurstChangesRegister(MODBUS, 0xFFFF, xs, ys, i, 2);
  }

  /** CRC-32 accepts no change confined to four consecutive bytes. */
  lemma Crc32DetectsBurst(xs: Bytes, ys: Bytes, n: nat, i: nat)
    requires |xs| == n + 4 && DifferInside(xs, ys, i, 4) && xs != ys
    requires Word(xs[n..]) == Crc32(xs[..n])
    ensures Word(ys[n..]) != Crc32(ys[..n])
  {
    hide Fold, Word;
    assert xs == xs[..n] + xs[n..] && ys == ys[..n] + ys[n..];
    Crc32Matches(xs[..n], xs[n..]);
    Crc32Matches(ys[..n], ys[n..]);
    BurstChangesRegister(IEEE, 0xFFFF_FFFF, xs, ys, i, 4);
  }
}
