/** Both CRCs as remainders of polynomials over GF(2), stated without registers. */
module CrcPolynomial {
  import opened Bytes8
  import opened Register16
  import opened Crc

  /** The exponents whose coefficient is one. */
  type Poly = set<nat>

  /** x^32 + x^26 + x^23 + x^22 + x^16 + x^12 + x^11 + x^10 + x^8 + x^7 + x^5 + x^4 + x^2 + x + 1. */
  const G32: Poly := {32, 26, 23, 22, 16, 12, 11, 10, 8, 7, 5, 4, 2, 1, 0}
  /** x^16 + x^15 + x^2 + 1. */
  const G16: Poly := {16, 15, 2, 0}

  function Add(a: Poly, b: Poly): Poly { (a - b) + (b - a) }

  /** `a` times x^n. */
  function Raised(a: Poly, n: nat): Poly { set e | e in a :: e + n }

  /** `g` times the polynomial with the coefficients `q`, highest first. */
  function Times(q: seq<bool>, g: Poly): Poly {
    if q == [] then {}
    else Add(Raised(Times(q[..|q| - 1], g), 1), if q[|q| - 1] then g else {})
  }

  predicate Below(a: Poly, w: nat) { forall e :: e in a ==> e < w }

  /** `r` is what a division of `d` by `g`, of degree `w`, leaves. */
  ghost predicate IsRemainder(d: Poly, g: Poly, w: nat, r: Poly) {
    Below(r, w) && exists q :: d == Add(Times(q, g), r)
  }

  predicate Degree(g: Poly, w: nat) { w in g && Below(g, w + 1) }

  /** Bit `k` of a word, the lowest being bit 0. */
  predicate Bit(v: bv32, k: nat) { Odd(Shift(v, k)) }

  predicate Sent(b: Byte, k: nat) { Bit(b as bv32, k) }

  /** The message: within a byte the lowest bit is sent first, and what is sent first has
      the highest exponent. */
  function Message(xs: Bytes): Poly {
    set i, k | 0 <= i < |xs| && 0 <= k < 8 && Sent(xs[i], k) :: 8 * (|xs| - 1 - i) + 7 - k
  }

  /** All exponents below `w`. */
  function Ones(w: nat): (a: Poly)
    ensures forall e: nat :: e in a <==> e < w
  {
    if w == 0 then {} else Ones(w - 1) + {w - 1}
  }

  /** The message times x^w, its first `w` bits complemented. */
  function Dividend(xs: Bytes, w: nat): Poly { Add(Raised(Message(xs), w), Raised(Ones(w), 8 * |xs|)) }

  /** A register whose bit 0 has the highest exponent, and the complement of one. */
  function Reflected(v: bv32, w: nat): Poly { set k | 0 <= k < w && Bit(v, k) :: w - 1 - k }

  function Complemented(v: bv32, w: nat): Poly { set k | 0 <= k < w && !Bit(v, k) :: w - 1 - k }

  // ---- polynomials ---------------------------------------------------------------------------

  lemma AddCommutes(a: Poly, b: Poly)
    ensures Add(a, b) == Add(b, a)
  {}

  lemma AddAssociates(a: Poly, b: Poly, c: Poly)
    ensures Add(Add(a, b), c) == Add(a, Add(b, c))
  {}

  lemma AddCancels(a: Poly, b: Poly)
    ensures Add(Add(a, b), b) == a && Add(a, a) == {} && Add(a, {}) == a && Add({}, a) == a
  {}

  /** (a + b) + (c + d) == (a + c) + (b + d). */
  lemma AddSwaps(a: Poly, b: Poly, c: Poly, d: Poly)
    ensures Add(Add(a, b), Add(c, d)) == Add(Add(a, c), Add(b, d))
  {}

  lemma InRaised(a: Poly, n: nat, e: nat)
    ensures e in Raised(a, n) <==> e >= n && e - n in a
  {
    if e >= n && e - n in a { assert e == (e - n) + n; }
  }

  lemma RaisedAdd(a: Poly, b: Poly, n: nat)
    ensures Raised(Add(a, b), n) == Add(Raised(a, n), Raised(b, n))
  {
    forall e: nat
      ensures e in Raised(Add(a, b), n) <==> e in Add(Raised(a, n), Raised(b, n))
    {
      InRaised(Add(a, b), n, e);
      InRaised(a, n, e);
      InRaised(b, n, e);
    }
  }

  lemma RaisedTwice(a: Poly, n: nat, m: nat)
    ensures Raised(Raised(a, n), m) == Raised(a, n + m) && Raised(a, 0) == a
  {
    forall e: nat
      ensures e in Raised(Raised(a, n), m) <==> e in Raised(a, n + m)
      ensures e in Raised(a, 0) <==> e in a
    {
      InRaised(Raised(a, n), m, e);
      if e >= m { InRaised(a, n, e - m); }
      InRaised(a, n + m, e);
      InRaised(a, 0, e);
    }
  }

  // ---- remainders are unique --------------------------------------------------------------------

  function Sum(p: seq<bool>, q: seq<bool>): (r: seq<bool>)
    requires |p| == |q|
    ensures |r| == |p| && forall i :: 0 <= i < |p| ==> r[i] == (p[i] != q[i])
  {
    seq(|p|, i requires 0 <= i < |p| => p[i] != q[i])
  }

  lemma {:induction false} TimesSum(p: seq<bool>, q: seq<bool>, g: Poly)
    requires |p| == |q|
    ensures Times(Sum(p, q), g) == Add(Times(p, g), Times(q, g))
  {
    if p != [] {
      var n := |p| - 1;
      var (a, b) := (Times(p[..n], g), Times(q[..n], g));
      var (x, y) := (if p[n] then g else {}, if q[n] then g else {});
      assert Sum(p, q)[..n] == Sum(p[..n], q[..n]);
      TimesSum(p[..n], q[..n], g);
      RaisedAdd(a, b, 1);
      AddSwaps(Raised(a, 1), Raised(b, 1), x, y);
      AddCancels(g, g);
      AddCommutes(x, y);
    }
  }

  lemma {:induction false} TimesPads(q: seq<bool>, n: nat, g: Poly)
    ensures Times(seq(n, _ => false) + q, g) == Times(q, g)
  {
    var pad := seq(n, _ => false);
    if q == [] {
      assert pad + q == pad;
      TimesZero(n, g);
    } else {
      assert (pad + q)[..|pad + q| - 1] == pad + q[..|q| - 1];
      TimesPads(q[..|q| - 1], n, g);
    }
  }

  lemma {:induction false} TimesZero(n: nat, g: Poly)
    ensures Times(seq(n, _ => false), g) == {}
  {
    if n > 0 {
      assert seq(n, _ => false)[..n - 1] == seq(n - 1, _ => false);
      TimesZero(n - 1, g);
    }
  }

  /** The highest coefficient of `q` decides the highest exponent of the product. */
  lemma {:induction false} TimesTop(q: seq<bool>, g: Poly, w: nat)
    requires Degree(g, w)
    ensures Below(Times(q, g), |q| + w)
    ensures q != [] ==> (|q| - 1 + w in Times(q, g) <==> q[0])
  {
    if q != [] {
      var n := |q| - 1;
      TimesTop(q[..n], g, w);
      var t := Times(q[..n], g);
      forall e: nat
        ensures e in Raised(t, 1) <==> e >= 1 && e - 1 in t
      {
        InRaised(t, 1, e);
      }
      assert n == 0 ==> t == {};
    }
  }

  lemma {:induction false} SmallMultipleIsZero(q: seq<bool>, g: Poly, w: nat)
    requires Degree(g, w) && Below(Times(q, g), w)
    ensures Times(q, g) == {}
  {
    if q != [] {
      TimesTop(q, g, w);
      assert !q[0];
      assert seq(1, _ => false) + q[1..] == q;
      TimesPads(q[1..], 1, g);
      SmallMultipleIsZero(q[1..], g, w);
    }
  }

  lemma RemainderIsUnique(d: Poly, g: Poly, w: nat, r: Poly, s: Poly)
    requires Degree(g, w) && IsRemainder(d, g, w, r) && IsRemainder(d, g, w, s)
    ensures r == s
  {
    var p :| d == Add(Times(p, g), r);
    var q :| d == Add(Times(q, g), s);
    var n := if |p| > |q| then |p| else |q|;
    var sum := SumOf(p, q, g);
    SumsCancel(Times(p, g), r, Times(q, g), s);
    hide Times, Add;
    assert Below(Times(sum, g), w) by { SumBelow(r, s, w); }
    SmallMultipleIsZero(sum, g, w);
    EmptySum(r, s);
  }

  lemma SumBelow(r: Poly, s: Poly, w: nat)
    requires Below(r, w) && Below(s, w)
    ensures Below(Add(r, s), w)
  {}

  lemma SumOf(p: seq<bool>, q: seq<bool>, g: Poly) returns (sum: seq<bool>)
    ensures Times(sum, g) == Add(Times(p, g), Times(q, g))
  {
    hide Times, Add;
    var n := if |p| > |q| then |p| else |q|;
    TimesPads(p, n - |p|, g);
    TimesPads(q, n - |q|, g);
    var (p1, q1) := (seq(n - |p|, _ => false) + p, seq(n - |q|, _ => false) + q);
    TimesSum(p1, q1, g);
    sum := Sum(p1, q1);
  }

  lemma SumsCancel(a: Poly, r: Poly, b: Poly, s: Poly)
    requires Add(a, r) == Add(b, s)
    ensures Add(a, b) == Add(r, s)
  {
    forall e: nat
      ensures e in Add(a, b) <==> e in Add(r, s)
    {
      assert e in Add(a, r) <==> e in Add(b, s);
    }
  }

  lemma EmptySum(r: Poly, s: Poly)
    requires Add(r, s) == {}
    ensures r == s
  {
    forall e: nat ensures e in r <==> e in s { assert e !in Add(r, s); }
  }

  // ---- words as polynomials -----------------------------------------------------------------------

  lemma {:induction false} ShiftOfHalf(v: bv32, n: nat)
    ensures Shift(Half(v), n) == Shift(v, n + 1)
  {
    if n > 0 { ShiftOfHalf(v, n - 1); }
  }

  lemma {:induction false} ShiftXor(a: bv32, b: bv32, n: nat)
    ensures Shift(Xor(a, b), n) == Xor(Shift(a, n), Shift(b, n))
  {
    hide Xor, Half;
    if n > 0 {
      ShiftXor(a, b, n - 1);
      HalfXor(Shift(a, n - 1), Shift(b, n - 1));
    }
  }

  lemma BitXor(a: bv32, b: bv32, k: nat)
    ensures Bit(Xor(a, b), k) <==> Bit(a, k) != Bit(b, k)
  {
    hide Xor, Odd;
    ShiftXor(a, b, k);
    OddOfXor(Shift(a, k), Shift(b, k));
  }

  lemma OddOfXor(a: bv32, b: bv32)
    ensures Odd(Xor(a, b)) <==> Odd(a) != Odd(b)
  {}

  lemma InReflected(v: bv32, w: nat, e: nat)
    ensures e in Reflected(v, w) <==> e < w && Bit(v, w - 1 - e)
  {
    if e < w && Bit(v, w - 1 - e) { assert e == w - 1 - (w - 1 - e); }
  }

  lemma ReflectedXor(a: bv32, b: bv32, w: nat)
    ensures Reflected(Xor(a, b), w) == Add(Reflected(a, w), Reflected(b, w))
  {
    hide Bit, Xor;
    forall e: nat
      ensures e in Reflected(Xor(a, b), w) <==> e in Add(Reflected(a, w), Reflected(b, w))
    {
      InReflected(Xor(a, b), w, e);
      InReflected(a, w, e);
      InReflected(b, w, e);
      if e < w { BitXor(a, b, w - 1 - e); }
    }
  }

  /** The register fits in `w` bits. */
  predicate Narrow(v: bv32, w: nat) { Shift(v, w) == 0 }

  /** `p` is `g` without its highest exponent, reflected. */
  predicate Generates(p: bv32, g: Poly, w: nat) {
    w > 0 && Degree(g, w) && Narrow(p, w) && Reflected(p, w) == g - {w}
  }

  /** One bit step multiplies by x and takes away `g` if the degree is reached. */
  lemma StepDivides(p: bv32, g: Poly, w: nat, c: bv32)
    requires Generates(p, g, w) && Narrow(c, w)
    ensures Narrow(Step(p, c), w)
    ensures Raised(Reflected(c, w), 1) == Add(if Odd(c) then g else {}, Reflected(Step(p, c), w))
  {
    hide Xor, Half, Odd, Bit;
    HalfDivides(c, w);
    HalfNarrow(c, w);
    if Odd(c) {
      ReflectedXor(Half(c), p, w);
      ShiftXor(Half(c), p, w);
      XorZero(0);
      TakesAway(Raised(Reflected(c, w), 1), Reflected(Half(c), w), g, w);
    } else {
      AddCancels(Reflected(Half(c), w), {});
    }
  }

  lemma TakesAway(a: Poly, h: Poly, g: Poly, w: nat)
    requires a == h + {w} && w !in h && w in g
    ensures a == Add(g, Add(h, g - {w}))
  {}

  lemma HalfDivides(c: bv32, w: nat)
    requires w > 0 && Narrow(c, w)
    ensures Raised(Reflected(c, w), 1) == Reflected(Half(c), w) + if Odd(c) then {w} else {}
    ensures w !in Reflected(Half(c), w)
  {
    hide Half, Odd;
    ZeroIsEven();
    forall e: nat
      ensures e in Raised(Reflected(c, w), 1) <==> e in Reflected(Half(c), w) + if Odd(c) then {w} else {}
    {
      InRaised(Reflected(c, w), 1, e);
      if e >= 1 { InReflected(c, w, e - 1); }
      InReflected(Half(c), w, e);
      if e < w { ShiftOfHalf(c, w - 1 - e); }
      assert Shift(c, 0) == c;
    }
    InReflected(Half(c), w, w);
  }

  lemma ZeroIsEven()
    ensures !Odd(0) && Half(0) == 0
  {}

  lemma HalfNarrow(c: bv32, w: nat)
    requires Narrow(c, w)
    ensures Narrow(Half(c), w)
  {
    hide Half;
    ShiftOfHalf(c, w);
    ZeroIsEven();
  }

  /** `n` bit steps multiply by x^n, up to a multiple of `g`. */
  lemma {:induction false} BitsDivide(p: bv32, g: Poly, w: nat, c: bv32, n: nat) returns (q: seq<bool>)
    requires Generates(p, g, w) && Narrow(c, w)
    ensures Narrow(Bits(p, c, n), w) && |q| == n
    ensures Raised(Reflected(c, w), n) == Add(Times(q, g), Reflected(Bits(p, c, n), w))
  {
    hide Step, Narrow, Generates, Reflected, Add, Times, Raised;
    if n == 0 {
      q := [];
      TimesNothing(g);
      RaisedTwice(Reflected(c, w), 0, 0);
      AddCancels(Reflected(c, w), {});
    } else {
      var q0 := BitsDivide(p, g, w, c, n - 1);
      var d := Bits(p, c, n - 1);
      StepDivides(p, g, w, d);
      q := q0 + [Odd(d)];
      RaisedTwice(Reflected(c, w), n - 1, 1);
      Horner(q0, Odd(d), g, Reflected(d, w), Reflected(Step(p, d), w));
    }
  }

  lemma TimesNothing(g: Poly)
    ensures Times([], g) == {}
  {}

  lemma Horner(q: seq<bool>, odd: bool, g: Poly, r: Poly, r1: Poly)
    requires Raised(r, 1) == Add(if odd then g else {}, r1)
    ensures Raised(Add(Times(q, g), r), 1) == Add(Times(q + [odd], g), r1)
  {
    assert (q + [odd])[..|q|] == q;
    RaisedAdd(Times(q, g), r, 1);
    AddAssociates(Raised(Times(q, g), 1), if odd then g else {}, r1);
  }

  lemma {:induction false} TimesAppend(q: seq<bool>, r: seq<bool>, g: Poly)
    ensures Times(q + r, g) == Add(Raised(Times(q, g), |r|), Times(r, g))
  {
    if r == [] {
      assert q + r == q;
      RaisedTwice(Times(q, g), 0, 0);
    } else {
      var n := |r| - 1;
      assert (q + r)[..|q + r| - 1] == q + r[..n];
      TimesAppend(q, r[..n], g);
      hide Raised;
      var (a, b) := (Raised(Times(q, g), n), Times(r[..n], g));
      RaisedAdd(a, b, 1);
      RaisedTwice(Times(q, g), n, 1);
      AddAssociates(Raised(a, 1), Raised(b, 1), if r[n] then g else {});
    }
  }

  // ---- bytes ------------------------------------------------------------------------------------

  lemma InMessage(xs: Bytes, e: nat)
    ensures e in Message(xs) <==> e < 8 * |xs| && Sent(xs[|xs| - 1 - e / 8], 7 - e % 8)
  {
    hide Sent;
    if e < 8 * |xs| && Sent(xs[|xs| - 1 - e / 8], 7 - e % 8) {
      var (i, k) := (|xs| - 1 - e / 8, 7 - e % 8);
      assert e == 8 * (|xs| - 1 - i) + 7 - k;
    }
    if e in Message(xs) {
      var i, k :| 0 <= i < |xs| && 0 <= k < 8 && Sent(xs[i], k) && e == 8 * (|xs| - 1 - i) + 7 - k;
      assert e / 8 == |xs| - 1 - i && e % 8 == 7 - k;
    }
  }

  /** One more byte raises what was sent by x^8. */
  lemma MessageGrows(xs: Bytes, x: Byte)
    ensures Message(xs + [x]) == Add(Raised(Message(xs), 8), Message([x]))
  {
    hide Message, Raised, Sent;
    forall e: nat
      ensures e in Message(xs + [x]) <==> e in Add(Raised(Message(xs), 8), Message([x]))
    {
      InMessage(xs + [x], e);
      InMessage([x], e);
      InRaised(Message(xs), 8, e);
      if e >= 8 {
        InMessage(xs, e - 8);
        assert (e - 8) / 8 == e / 8 - 1 && (e - 8) % 8 == e % 8;
      }
    }
  }

  lemma HighBitsClear(x: Byte, k: nat)
    requires k >= 8
    ensures Shift(x as bv32, k) == 0
  {
    if k == 8 {
      EightHalves(x as bv32);
      NothingAbove(x);
    } else {
      HighBitsClear(x, k - 1);
      ZeroIsEven();
    }
  }

  lemma NothingAbove(x: Byte)
    ensures (x as bv32) >> 8 == 0
  {}

  lemma EightHalves(v: bv32)
    ensures Shift(v, 8) == v >> 8
  {
    hide Half;
    assert Half(v) == v >> 1 && Half(v >> 1) == v >> 2 && Half(v >> 2) == v >> 3 && Half(v >> 3) == v >> 4 by {
      HalvesLow(v);
    }
    assert Half(v >> 4) == v >> 5 && Half(v >> 5) == v >> 6 && Half(v >> 6) == v >> 7 && Half(v >> 7) == v >> 8 by {
      HalvesHigh(v);
    }
    assert Shift(v, 0) == v;
    assert Shift(v, 1) == v >> 1;
    assert Shift(v, 2) == v >> 2;
    assert Shift(v, 3) == v >> 3;
    assert Shift(v, 4) == v >> 4;
    assert Shift(v, 5) == v >> 5;
    assert Shift(v, 6) == v >> 6;
    assert Shift(v, 7) == v >> 7;
  }

  lemma HalvesLow(v: bv32)
    ensures Half(v) == v >> 1 && Half(v >> 1) == v >> 2 && Half(v >> 2) == v >> 3 && Half(v >> 3) == v >> 4
  {}

  lemma HalvesHigh(v: bv32)
    ensures Half(v >> 4) == v >> 5 && Half(v >> 5) == v >> 6 && Half(v >> 6) == v >> 7 && Half(v >> 7) == v >> 8
  {}

  /** A byte that is mixed into the register enters behind what was sent. */
  lemma ByteEnters(x: Byte, w: nat)
    requires w >= 8
    ensures Raised(Message([x]), w) == Raised(Reflected(x as bv32, w), 8)
  {
    hide Message, Raised, Reflected;
    forall e: nat
      ensures e in Raised(Message([x]), w) <==> e in Raised(Reflected(x as bv32, w), 8)
    {
      InRaised(Message([x]), w, e);
      InRaised(Reflected(x as bv32, w), 8, e);
      if e >= w { InMessage([x], e - w); }
      if e >= 8 {
        InReflected(x as bv32, w, e - 8);
        if e < w { HighBitsClear(x, w - 1 - (e - 8)); ZeroIsEven(); }
      }
    }
  }

  lemma ByteNarrow(c: bv32, x: Byte, w: nat)
    requires w >= 8 && Narrow(c, w)
    ensures Narrow(Xor(c, x as bv32), w)
  {
    hide Xor;
    HighBitsClear(x, w);
    ShiftXor(c, x as bv32, w);
    XorZero(0);
  }

  /** What is divided if the register starts with `c`. */
  function DividendFrom(xs: Bytes, w: nat, c: bv32): Poly {
    Add(Raised(Message(xs), w), Raised(Reflected(c, w), 8 * |xs|))
  }

  lemma DividendGrows(xs: Bytes, x: Byte, w: nat, c: bv32)
    requires w >= 8
    ensures DividendFrom(xs + [x], w, c) == Raised(Add(DividendFrom(xs, w, c), Reflected(x as bv32, w)), 8)
  {
    hide Message, Raised, Reflected, Add;
    var (m, b, s) := (Message(xs), Message([x]), Reflected(c, w));
    MessageGrows(xs, x);
    RaisedAdd(Raised(m, 8), b, w);
    RaisedTwice(m, 8, w);
    RaisedTwice(m, w, 8);
    RaisedTwice(s, 8 * |xs|, 8);
    ByteEnters(x, w);
    var (a, d, y) := (Raised(m, w), Raised(s, 8 * |xs|), Reflected(x as bv32, w));
    RaisedAdd(Add(a, d), y, 8);
    RaisedAdd(a, d, 8);
    LastTwoSwap(Raised(a, 8), Raised(y, 8), Raised(d, 8));
  }

  lemma LastTwoSwap(a: Poly, b: Poly, c: Poly)
    ensures Add(Add(a, b), c) == Add(Add(a, c), b)
  {}

  /** The register after the bytes is a remainder of what was sent. */
  lemma {:induction false} FoldDivides(p: bv32, g: Poly, w: nat, c: bv32, xs: Bytes) returns (q: seq<bool>)
    requires Generates(p, g, w) && Narrow(c, w) && w >= 8
    ensures Narrow(Fold(p, c, xs), w)
    ensures DividendFrom(xs, w, c) == Add(Times(q, g), Reflected(Fold(p, c, xs), w))
  {
    hide Narrow, Generates, Reflected, Message, Raised, Times, DividendFrom, Add, Bits, Xor;
    if xs == [] {
      q := [];
      TimesNothing(g);
      StartsWith(w, c);
    } else {
      var (front, x) := (xs[..|xs| - 1], xs[|xs| - 1]);
      assert xs == front + [x];
      var q0 := FoldDivides(p, g, w, c, front);
      var d := Fold(p, c, front);
      ByteNarrow(d, x, w);
      var q1 := BitsDivide(p, g, w, Xor(d, x as bv32), 8);
      q := q0 + q1;
      DividendGrows(front, x, w, c);
      ReflectedXor(d, x as bv32, w);
      QuotientGrows(q0, q1, g, Reflected(d, w), Reflected(x as bv32, w), Reflected(Fold(p, c, xs), w));
    }
  }

  lemma StartsWith(w: nat, c: bv32)
    ensures DividendFrom([], w, c) == Add({}, Reflected(c, w))
  {
    hide Reflected;
    RaisedTwice(Reflected(c, w), 0, 0);
    assert Message([]) == {};
    assert Raised({}, w) == {};
  }

  lemma QuotientGrows(q0: seq<bool>, q1: seq<bool>, g: Poly, r: Poly, y: Poly, r1: Poly)
    requires |q1| == 8 && Raised(Add(r, y), 8) == Add(Times(q1, g), r1)
    ensures Raised(Add(Add(Times(q0, g), r), y), 8) == Add(Times(q0 + q1, g), r1)
  {
    hide Times, Raised, Add;
    AddAssociates(Times(q0, g), r, y);
    RaisedAdd(Times(q0, g), Add(r, y), 8);
    TimesAppend(q0, q1, g);
    AddAssociates(Raised(Times(q0, g), 8), Times(q1, g), r1);
  }

  // ---- the two generators -------------------------------------------------------------------------

  lemma IeeeBits0()
    ensures !Bit(IEEE, 0) && !Bit(IEEE, 1) && !Bit(IEEE, 2) && !Bit(IEEE, 3)
    ensures !Bit(IEEE, 4) && Bit(IEEE, 5) && !Bit(IEEE, 6) && !Bit(IEEE, 7)
    ensures Shift(IEEE, 8) == 0x00ED_B883
  {
    assert Shift(IEEE, 2) == 0x3B6E_20C8;
    assert Shift(IEEE, 4) == 0x0EDB_8832;
    assert Shift(IEEE, 6) == 0x03B6_E20C;
  }

  lemma IeeeBits8()
    requires Shift(IEEE, 8) == 0x00ED_B883
    ensures Bit(IEEE, 8) && Bit(IEEE, 9) && !Bit(IEEE, 10) && !Bit(IEEE, 11)
    ensures !Bit(IEEE, 12) && !Bit(IEEE, 13) && !Bit(IEEE, 14) && Bit(IEEE, 15)
    ensures Shift(IEEE, 16) == 0x0000_EDB8
  {
    assert Shift(IEEE, 10) == 0x003B_6E20;
    assert Shift(IEEE, 12) == 0x000E_DB88;
    assert Shift(IEEE, 14) == 0x0003_B6E2;
  }

  lemma IeeeBits16()
    requires Shift(IEEE, 16) == 0x0000_EDB8
    ensures !Bit(IEEE, 16) && !Bit(IEEE, 17) && !Bit(IEEE, 18) && Bit(IEEE, 19)
    ensures Bit(IEEE, 20) && Bit(IEEE, 21) && !Bit(IEEE, 22) && Bit(IEEE, 23)
    ensures Shift(IEEE, 24) == 0x0000_00ED
  {
    assert Shift(IEEE, 18) == 0x0000_3B6E;
    assert Shift(IEEE, 20) == 0x0000_0EDB;
    assert Shift(IEEE, 22) == 0x0000_03B6;
  }

  lemma IeeeBits24()
    requires Shift(IEEE, 24) == 0x0000_00ED
    ensures Bit(IEEE, 24) && !Bit(IEEE, 25) && Bit(IEEE, 26) && Bit(IEEE, 27)
    ensures !Bit(IEEE, 28) && Bit(IEEE, 29) && Bit(IEEE, 30) && Bit(IEEE, 31)
    ensures Shift(IEEE, 32) == 0x0000_0000
  {
    assert Shift(IEEE, 26) == 0x0000_003B;
    assert Shift(IEEE, 28) == 0x0000_000E;
    assert Shift(IEEE, 30) == 0x0000_0003;
  }

  lemma ModbusBits0()
    ensures Bit(MODBUS, 0) && !Bit(MODBUS, 1) && !Bit(MODBUS, 2) && !Bit(MODBUS, 3)
    ensures !Bit(MODBUS, 4) && !Bit(MODBUS, 5) && !Bit(MODBUS, 6) && !Bit(MODBUS, 7)
    ensures Shift(MODBUS, 8) == 0x0000_00A0
  {
    assert Shift(MODBUS, 2) == 0x0000_2800;
    assert Shift(MODBUS, 4) == 0x0000_0A00;
    assert Shift(MODBUS, 6) == 0x0000_0280;
  }

  lemma ModbusBits8()
    requires Shift(MODBUS, 8) == 0x0000_00A0
    ensures !Bit(MODBUS, 8) && !Bit(MODBUS, 9) && !Bit(MODBUS, 10) && !Bit(MODBUS, 11)
    ensures !Bit(MODBUS, 12) && Bit(MODBUS, 13) && !Bit(MODBUS, 14) && Bit(MODBUS, 15)
    ensures Shift(MODBUS, 16) == 0x0000_0000
  {
    assert Shift(MODBUS, 10) == 0x0000_0028;
    assert Shift(MODBUS, 12) == 0x0000_000A;
    assert Shift(MODBUS, 14) == 0x0000_0002;
  }

  lemma IeeeGenerates()
    ensures Generates(IEEE, G32, 32)
  {
    hide Bit;
    IeeeBits0();
    IeeeBits8();
    IeeeBits16();
    IeeeBits24();
    hide Shift;
    forall e: nat
      ensures e in Reflected(IEEE, 32) <==> e in G32 - {32}
    {
      InReflected(IEEE, 32, e);
      if e < 16 { Under16(e); } else if e < 32 { Under16(e - 16); }
    }
  }

  lemma ModbusGenerates()
    ensures Generates(MODBUS, G16, 16)
  {
    hide Bit;
    ModbusBits0();
    ModbusBits8();
    hide Shift;
    forall e: nat
      ensures e in Reflected(MODBUS, 16) <==> e in G16 - {16}
    {
      InReflected(MODBUS, 16, e);
      if e < 16 { Under16(e); }
    }
  }

  lemma Under16(e: nat)
    requires e < 16
    ensures e in {0, 1, 2, 3, 4, 5, 6, 7, 8, 9, 10, 11, 12, 13, 14, 15}
  {}

  // ---- registers ----------------------------------------------------------------------------------

  lemma AllNarrow(v: bv32)
    ensures Narrow(v, 32)
  {
    var (b, c, d) := (v >> 8, (v >> 8) >> 8, ((v >> 8) >> 8) >> 8);
    NothingLeft(v);
    hide *;
    EightHalves(v);
    EightHalves(b);
    EightHalves(c);
    EightHalves(d);
    ShiftTwice(v, 8, 8);
    ShiftTwice(v, 16, 8);
    ShiftTwice(v, 24, 8);
    NarrowIs(v, 32);
  }

  lemma NarrowIs(v: bv32, w: nat)
    ensures Narrow(v, w) <==> Shift(v, w) == 0
  {}

  lemma NothingLeft(v: bv32)
    ensures (((v >> 8) >> 8) >> 8) >> 8 == 0
  {}

  lemma {:induction false} ShiftTwice(v: bv32, n: nat, m: nat)
    ensures Shift(v, n + m) == Shift(Shift(v, n), m)
  {
    hide Half;
    if m > 0 { ShiftTwice(v, n, m - 1); }
  }

  lemma ShortNarrow(v: bv32)
    requires v < 0x1_0000
    ensures Narrow(v, 16)
  {
    hide Half;
    EightHalves(v);
    ShiftTwice(v, 8, 8);
    EightHalves(v >> 8);
    NothingShort(v);
  }

  lemma NothingShort(v: bv32)
    requires v < 0x1_0000
    ensures (v >> 8) >> 8 == 0
  {}

  /** Registers are told apart by their polynomials. */
  lemma ReflectedInjective(a: bv32, b: bv32, w: nat)
    requires Narrow(a, w) && Narrow(b, w) && Reflected(a, w) == Reflected(b, w)
    ensures a == b
  {
    hide Bit, Half;
    forall k | 0 <= k < w ensures Bit(a, k) <==> Bit(b, k) {
      InReflected(a, w, w - 1 - k);
      InReflected(b, w, w - 1 - k);
    }
    SameBits(a, b, w, 0);
    assert Shift(a, 0) == a && Shift(b, 0) == b;
  }

  lemma {:induction false} SameBits(a: bv32, b: bv32, w: nat, n: nat)
    requires Narrow(a, w) && Narrow(b, w) && n <= w && forall k :: 0 <= k < w ==> (Bit(a, k) <==> Bit(b, k))
    ensures Shift(a, n) == Shift(b, n)
    decreases w - n
  {
    hide Half, Odd;
    if n < w {
      SameBits(a, b, w, n + 1);
      assert Bit(a, n) <==> Bit(b, n);
      HalfAndLow(Shift(a, n), Shift(b, n));
    }
  }

  lemma HalfAndLow(a: bv32, b: bv32)
    requires Half(a) == Half(b) && (Odd(a) <==> Odd(b))
    ensures a == b
  {}

  lemma AllOnes(v: bv32, w: nat)
    requires forall k :: 0 <= k < w ==> Bit(v, k)
    ensures Reflected(v, w) == Ones(w)
  {
    hide Bit;
    forall e: nat ensures e in Reflected(v, w) <==> e in Ones(w) { InReflected(v, w, e); }
  }

  /** The bits of the complement are the other ones. */
  lemma FlipBits(c: bv32, k: nat)
    requires k < 32
    ensures Bit(Flip(c), k) <==> !Bit(c, k)
  {
    hide Xor, Odd, Half, Shift, Flip;
    FlipIsXor(c);
    BitXor(c, 0xFFFF_FFFF, k);
    OnesBits(k);
  }

  lemma FlipIsXor(c: bv32)
    ensures Flip(c) == Xor(c, 0xFFFF_FFFF)
  {}

  lemma OnesBits0()
    ensures Bit(0xFFFF_FFFF, 0) && Bit(0xFFFF_FFFF, 1) && Bit(0xFFFF_FFFF, 2) && Bit(0xFFFF_FFFF, 3)
    ensures Bit(0xFFFF_FFFF, 4) && Bit(0xFFFF_FFFF, 5) && Bit(0xFFFF_FFFF, 6) && Bit(0xFFFF_FFFF, 7)
    ensures Shift(0xFFFF_FFFF, 8) == 0x00FF_FFFF
  {
    assert Shift(0xFFFF_FFFF, 2) == 0x3FFF_FFFF;
    assert Shift(0xFFFF_FFFF, 4) == 0x0FFF_FFFF;
    assert Shift(0xFFFF_FFFF, 6) == 0x03FF_FFFF;
  }

  lemma OnesBits8()
    requires Shift(0xFFFF_FFFF, 8) == 0x00FF_FFFF
    ensures Bit(0xFFFF_FFFF, 8) && Bit(0xFFFF_FFFF, 9) && Bit(0xFFFF_FFFF, 10) && Bit(0xFFFF_FFFF, 11)
    ensures Bit(0xFFFF_FFFF, 12) && Bit(0xFFFF_FFFF, 13) && Bit(0xFFFF_FFFF, 14) && Bit(0xFFFF_FFFF, 15)
    ensures Shift(0xFFFF_FFFF, 16) == 0x0000_FFFF
  {
    assert Shift(0xFFFF_FFFF, 10) == 0x003F_FFFF;
    assert Shift(0xFFFF_FFFF, 12) == 0x000F_FFFF;
    assert Shift(0xFFFF_FFFF, 14) == 0x0003_FFFF;
  }

  lemma OnesBits16()
    requires Shift(0xFFFF_FFFF, 16) == 0x0000_FFFF
    ensures Bit(0xFFFF_FFFF, 16) && Bit(0xFFFF_FFFF, 17) && Bit(0xFFFF_FFFF, 18) && Bit(0xFFFF_FFFF, 19)
    ensures Bit(0xFFFF_FFFF, 20) && Bit(0xFFFF_FFFF, 21) && Bit(0xFFFF_FFFF, 22) && Bit(0xFFFF_FFFF, 23)
    ensures Shift(0xFFFF_FFFF, 24) == 0x0000_00FF
  {
    assert Shift(0xFFFF_FFFF, 18) == 0x0000_3FFF;
    assert Shift(0xFFFF_FFFF, 20) == 0x0000_0FFF;
    assert Shift(0xFFFF_FFFF, 22) == 0x0000_03FF;
  }

  lemma OnesBits24()
    requires Shift(0xFFFF_FFFF, 24) == 0x0000_00FF
    ensures Bit(0xFFFF_FFFF, 24) && Bit(0xFFFF_FFFF, 25) && Bit(0xFFFF_FFFF, 26) && Bit(0xFFFF_FFFF, 27)
    ensures Bit(0xFFFF_FFFF, 28) && Bit(0xFFFF_FFFF, 29) && Bit(0xFFFF_FFFF, 30) && Bit(0xFFFF_FFFF, 31)
    ensures Shift(0xFFFF_FFFF, 32) == 0x0000_0000
  {
    assert Shift(0xFFFF_FFFF, 26) == 0x0000_003F;
    assert Shift(0xFFFF_FFFF, 28) == 0x0000_000F;
    assert Shift(0xFFFF_FFFF, 30) == 0x0000_0003;
  }

  lemma ShortBits0()
    ensures Bit(0xFFFF, 0) && Bit(0xFFFF, 1) && Bit(0xFFFF, 2) && Bit(0xFFFF, 3)
    ensures Bit(0xFFFF, 4) && Bit(0xFFFF, 5) && Bit(0xFFFF, 6) && Bit(0xFFFF, 7)
    ensures Shift(0xFFFF, 8) == 0x0000_00FF
  {
    assert Shift(0xFFFF, 2) == 0x0000_3FFF;
    assert Shift(0xFFFF, 4) == 0x0000_0FFF;
    assert Shift(0xFFFF, 6) == 0x0000_03FF;
  }

  lemma ShortBits8()
    requires Shift(0xFFFF, 8) == 0x0000_00FF
    ensures Bit(0xFFFF, 8) && Bit(0xFFFF, 9) && Bit(0xFFFF, 10) && Bit(0xFFFF, 11)
    ensures Bit(0xFFFF, 12) && Bit(0xFFFF, 13) && Bit(0xFFFF, 14) && Bit(0xFFFF, 15)
    ensures Shift(0xFFFF, 16) == 0x0000_0000
  {
    assert Shift(0xFFFF, 10) == 0x0000_003F;
    assert Shift(0xFFFF, 12) == 0x0000_000F;
    assert Shift(0xFFFF, 14) == 0x0000_0003;
  }

  lemma OnesBits(k: nat)
    requires k < 32
    ensures Bit(0xFFFF_FFFF, k)
  {
    hide Bit;
    OnesBits0();
    OnesBits8();
    OnesBits16();
    OnesBits24();
    hide Shift;
    if k < 16 { Under16(k); } else { Under16(k - 16); }
  }

  lemma ShortBits(k: nat)
    requires k < 16
    ensures Bit(0xFFFF, k)
  {
    hide Bit;
    ShortBits0();
    ShortBits8();
    hide Shift;
    Under16(k);
  }

  // ---- the two CRCs -------------------------------------------------------------------------------

  /** The CRC-32 of every byte string is the complement of the remainder that the message,
      its first 32 bits complemented, leaves; and no other word is. */
  lemma Crc32IsRemainder(xs: Bytes, c: bv32)
    ensures IsRemainder(Dividend(xs, 32), G32, 32, Complemented(c, 32)) <==> c == Crc32(xs)
  {
    hide Bit, Fold, Flip;
    IeeeGenerates();
    AllNarrow(0xFFFF_FFFF);
    forall k: nat | k < 32 ensures Bit(0xFFFF_FFFF, k) { OnesBits(k); }
    AllOnes(0xFFFF_FFFF, 32);
    var r := Fold(IEEE, 0xFFFF_FFFF, xs);
    var q := FoldDivides(IEEE, G32, 32, 0xFFFF_FFFF, xs);
    ReflectedBelow(r, 32);
    ComplementIs(Flip(r));
    FlipTwice(r);
    ComplementIs(c);
    hide Times, Dividend, Message, Reflected, Complemented, Generates, Degree, Narrow;
    assert IsRemainder(Dividend(xs, 32), G32, 32, Reflected(r, 32));
    if IsRemainder(Dividend(xs, 32), G32, 32, Complemented(c, 32)) {
      RemainderIsUnique(Dividend(xs, 32), G32, 32, Reflected(r, 32), Complemented(c, 32));
      AllNarrow(Flip(c));
      AllNarrow(r);
      ReflectedInjective(Flip(c), r, 32);
      FlipTwice(c);
    }
  }

  lemma FlipTwice(c: bv32)
    ensures Flip(Flip(c)) == c
  {}

  lemma ReflectedBelow(v: bv32, w: nat)
    ensures Below(Reflected(v, w), w)
  {
    hide Bit;
  }

  lemma ComplementIs(c: bv32)
    ensures Complemented(c, 32) == Reflected(Flip(c), 32)
  {
    hide Bit, Flip;
    forall e: nat
      ensures e in Complemented(c, 32) <==> e in Reflected(Flip(c), 32)
    {
      InReflected(Flip(c), 32, e);
      if e < 32 {
        FlipBits(c, 31 - e);
        assert e == 32 - 1 - (31 - e);
      }
    }
  }

  /** The CRC-16 of every byte string is the remainder itself, in 16 bits. */
  lemma Crc16IsRemainder(xs: Bytes, c: bv16)
    ensures IsRemainder(Dividend(xs, 16), G16, 16, Reflected(Wide(c), 16)) <==> Wide(c) == Crc16(xs)
  {
    hide Bit, Fold, Wide;
    ModbusGenerates();
    ShortNarrow(0xFFFF);
    forall k: nat | k < 16 ensures Bit(0xFFFF, k) { ShortBits(k); }
    AllOnes(0xFFFF, 16);
    var r := Fold(MODBUS, 0xFFFF, xs);
    var q := FoldDivides(MODBUS, G16, 16, 0xFFFF, xs);
    ReflectedBelow(r, 16);
    hide Times, Dividend, Message, Reflected, Generates, Degree, Narrow;
    assert IsRemainder(Dividend(xs, 16), G16, 16, Reflected(r, 16));
    if IsRemainder(Dividend(xs, 16), G16, 16, Reflected(Wide(c), 16)) {
      RemainderIsUnique(Dividend(xs, 16), G16, 16, Reflected(r, 16), Reflected(Wide(c), 16));
      WideIsShort(c);
      ShortNarrow(Wide(c));
      ReflectedInjective(Wide(c), r, 16);
    }
  }

  lemma WideIsShort(c: bv16)
    ensures Wide(c) < 0x1_0000
  {}
}
