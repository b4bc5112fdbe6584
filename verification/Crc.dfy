/** Bytes as numbers and as bit-vectors. */
module ByteValues {
  lemma RoundTrip(a: nat)
    requires a < 256
    ensures (a as bv8) as int == a
  {}
}

/** The 16-bit frame checksum: generator x^16 + x^12 + x^5 + 1 (section 2 of ITU-T
    Recommendation V.41), initial register 0xFFFF, most significant bit first, no reflection,
    no final complement.

    The register loop is shown to compute a polynomial remainder, and the remainder to expose
    every error burst of at most 16 bits and every error that flips an odd number of bits. */
module Crc {
  import ByteValues

  type byte = x: nat | x < 256

  /** Bit strings, most significant first; sixteen of them are the coefficients of a polynomial
      of degree at most 15, from x^15 down to x^0. */
  type Poly = p: seq<bool> | |p| == 16 witness seq(16, _ => false)

  const INITIAL: bv16 := 0xFFFF

  /** x^12 + x^5 + 1, which x^16 reduces to. */
  function Generator(): (g: Poly)
    ensures forall i :: 0 <= i < 16 ==> g[i] == (i == 15 - 12 || i == 15 - 5 || i == 15 - 0)
  {
    seq(16, i => i == 15 - 12 || i == 15 - 5 || i == 15 - 0)
  }

  // ---------------------------------------------------------------- bit strings

  function Zeros(n: nat): (z: seq<bool>)
    ensures |z| == n && forall i :: 0 <= i < n ==> !z[i]
  {
    seq(n, _ => false)
  }

  function Xor(x: seq<bool>, y: seq<bool>): (z: seq<bool>)
    requires |x| == |y|
    ensures |z| == |x|
    ensures forall i :: 0 <= i < |z| ==> z[i] == (x[i] != y[i])
  {
    seq(|x|, i requires 0 <= i < |x| => x[i] != y[i])
  }

  /** What `top` reads off a word, n times, moving on with `next`. */
  function ReadOff<W>(top: W -> bool, next: W -> W, w: W, n: nat): (bits: seq<bool>)
    ensures |bits| == n
    decreases n
  {
    if n == 0 then [] else [top(w)] + ReadOff(top, next, next(w), n - 1)
  }

  predicate Top(w: bv16) { w & 0x8000 != 0 }
  function Shl(w: bv16): bv16 { w << 1 }

  /** The top n bits of a word. */
  function TopBits(w: bv16, n: nat): (bits: seq<bool>)
    ensures |bits| == n
  {
    ReadOff(Top, Shl, w, n)
  }

  /** A byte in the upper half of a register. */
  function Widen(b: byte): bv16 { ((b as bv8) as bv16) << 8 }

  function ByteBits(b: byte): (bits: seq<bool>)
    ensures |bits| == 8
  {
    TopBits(Widen(b), 8)
  }

  function Bits(data: seq<byte>): (bits: seq<bool>)
    ensures |bits| == 8 * |data|
  {
    if data == [] then [] else Bits(data[..|data| - 1]) + ByteBits(data[|data| - 1])
  }

  // ---------------------------------------------------------------- the register

  /** One turn of the inner loop. */
  function Shift(c: bv16): bv16 {
    if c & 0x8000 != 0 then (c << 1) ^ 0x1021 else c << 1
  }

  /** The register after one message bit, and after a string of message bits. */
  function Feed(c: bv16, bit: bool): bv16 {
    Shift(if bit then c ^ 0x8000 else c)
  }

  function Fold<R>(step: (R, bool) -> R, r: R, bits: seq<bool>): R
    decreases |bits|
  {
    if bits == [] then r else Fold(step, step(r, bits[0]), bits[1..])
  }

  function FeedAll(c: bv16, bits: seq<bool>): bv16 {
    Fold(Feed, c, bits)
  }

  function Checksum(data: seq<byte>): bv16 {
    FeedAll(INITIAL, Bits(data))
  }

  function Coeffs(c: bv16): Poly {
    TopBits(c, 16)
  }

  // ---------------------------------------------------------------- the same on polynomials

  /** Multiplication by x modulo the generator. */
  function TimesX(p: Poly): Poly {
    Xor(p[1..] + [false], if p[0] then Generator() else Zeros(16))
  }

  function Absorb(p: Poly, bit: bool): Poly {
    TimesX(p[0 := p[0] != bit])
  }

  function AbsorbAll(p: Poly, bits: seq<bool>): Poly {
    Fold(Absorb, p, bits)
  }

  function Times<W>(next: W -> W, w: W, n: nat): W
    decreases n
  {
    if n == 0 then w else Times(next, next(w), n - 1)
  }

  lemma TimesFour<W>(next: W -> W, w: W)
    ensures Times(next, w, 4) == next(next(next(next(w))))
  {
    assert Times(next, w, 4) == Times(next, next(next(w)), 2);
  }

  lemma {:induction false} TimesAdd<W>(next: W -> W, w: W, m: nat, n: nat)
    ensures Times(next, w, m + n) == Times(next, Times(next, w, m), n)
    decreases m
  {
    if m > 0 { TimesAdd(next, next(w), m - 1, n); }
  }

  lemma {:induction false} ReadOffSplit<W>(top: W -> bool, next: W -> W, w: W, m: nat, n: nat)
    ensures ReadOff(top, next, w, m + n) == ReadOff(top, next, w, m) + ReadOff(top, next, Times(next, w, m), n)
    decreases m
  {
    if m == 0 {
      assert ReadOff(top, next, w, 0) + ReadOff(top, next, w, n) == ReadOff(top, next, w, n);
    } else {
      ReadOffSplit(top, next, next(w), m - 1, n);
    }
  }

  lemma ReadOffFour<W>(top: W -> bool, next: W -> W, w: W)
    ensures ReadOff(top, next, w, 4) == [top(w), top(next(w)), top(next(next(w))), top(next(next(next(w))))]
  {
    assert ReadOff(top, next, next(next(w)), 2) == [top(next(next(w)))] + ReadOff(top, next, next(next(next(w))), 1);
  }

  function ShlN(w: bv16, n: nat): bv16 {
    Times(Shl, w, n)
  }

  lemma ShlFourTimes(w: bv16)
    ensures Shl(Shl(Shl(Shl(w)))) == w << 4
  {}

  lemma TopBitsSplit(w: bv16, m: nat, n: nat)
    ensures TopBits(w, m + n) == TopBits(w, m) + TopBits(ShlN(w, m), n)
  {
    ReadOffSplit(Top, Shl, w, m, n);
  }

  lemma ShlFour(w: bv16)
    ensures ShlN(w, 4) == w << 4
  {
    TimesFour(Shl, w);
    ShlFourTimes(w);
  }

  lemma ShlEight(w: bv16)
    ensures ShlN(w, 8) == w << 8
  {
    TimesAdd(Shl, w, 4, 4);
    ShlFour(w);
    ShlFour(w << 4);
    assert (w << 4) << 4 == w << 8;
  }

  lemma ShlSixteen(w: bv16)
    ensures ShlN(w, 16) == 0
  {
    TimesAdd(Shl, w, 8, 8);
    ShlEight(w);
    ShlEight(w << 8);
    assert (w << 8) << 8 == 0;
  }

  lemma {:induction false} TopBitsOfZero(n: nat)
    ensures TopBits(0, n) == Zeros(n)
    decreases n
  {
    if n > 0 {
      assert (0 as bv16) << 1 == 0;
      TopBitsOfZero(n - 1);
      assert Zeros(n) == [false] + Zeros(n - 1);
    }
  }

  lemma CoeffsShl(c: bv16)
    ensures Coeffs(c << 1) == Coeffs(c)[1..] + [false]
  {
    TopBitsSplit(c, 16, 1);
    ShlSixteen(c);
    TopBitsOfZero(1);
    assert TopBits(c, 17)[1..] == TopBits(c << 1, 16);
    assert Zeros(1) == [false];
  }

  lemma ShlXor(c: bv16, d: bv16)
    ensures (c ^ d) << 1 == (c << 1) ^ (d << 1)
  {}

  lemma TopXor(c: bv16, d: bv16)
    ensures ((c ^ d) & 0x8000 != 0) == ((c & 0x8000 != 0) != (d & 0x8000 != 0))
  {}

  lemma XorCons(a: bool, x: seq<bool>, b: bool, y: seq<bool>)
    requires |x| == |y|
    ensures Xor([a] + x, [b] + y) == [a != b] + Xor(x, y)
  {}

  lemma {:induction false} ReadOffXor<W(!new)>(top: W -> bool, next: W -> W, plus: (W, W) -> W, v: W, w: W, n: nat)
    requires forall a, b :: top(plus(a, b)) == (top(a) != top(b))
    requires forall a, b :: next(plus(a, b)) == plus(next(a), next(b))
    ensures ReadOff(top, next, plus(v, w), n) == Xor(ReadOff(top, next, v, n), ReadOff(top, next, w, n))
    decreases n
  {
    if n > 0 {
      ReadOffXor(top, next, plus, next(v), next(w), n - 1);
      XorCons(top(v), ReadOff(top, next, next(v), n - 1), top(w), ReadOff(top, next, next(w), n - 1));
    }
  }

  function Plus(c: bv16, d: bv16): bv16 { c ^ d }

  lemma CoeffsXor(c: bv16, w: bv16)
    ensures Coeffs(c ^ w) == Xor(Coeffs(c), Coeffs(w))
  {
    forall a, b
      ensures Top(Plus(a, b)) == (Top(a) != Top(b))
      ensures Shl(Plus(a, b)) == Plus(Shl(a), Shl(b))
    {
      TopXor(a, b);
      ShlXor(a, b);
    }
    ReadOffXor(Top, Shl, Plus, c, w, 16);
  }

  lemma NoTopBit(e: bv16)
    requires e & 0x8000 == 0 && e << 1 == 0
    ensures e == 0
  {}

  lemma {:induction false} NoBits(e: bv16, n: nat)
    requires TopBits(e, n) == Zeros(n) && ShlN(e, n) == 0
    ensures e == 0
    decreases n
  {
    if n > 0 {
      assert TopBits(e, n)[0] == Zeros(n)[0];
      assert TopBits(e << 1, n - 1) == TopBits(e, n)[1..] == Zeros(n - 1);
      NoBits(e << 1, n - 1);
      NoTopBit(e);
    }
  }

  lemma CoeffsInjective(c: bv16, d: bv16)
    requires Coeffs(c) == Coeffs(d)
    ensures c == d
  {
    CoeffsXor(c, d);
    XorZeros(Coeffs(c));
    ShlSixteen(c ^ d);
    NoBits(c ^ d, 16);
    XorToZero(c, d);
  }

  lemma XorToZero(c: bv16, d: bv16)
    requires c ^ d == 0
    ensures c == d
  {}

  lemma CoeffsByFours(w: bv16)
    ensures Coeffs(w) == TopBits(w, 4) + (TopBits(w << 4, 4) + (TopBits(w << 8, 4) + TopBits(w << 12, 4)))
  {
    TopBitsSplit(w, 4, 12);
    ShlFour(w);
    TopBitsSplit(w << 4, 4, 8);
    ShlFour(w << 4);
    assert (w << 4) << 4 == w << 8;
    TopBitsSplit(w << 8, 4, 4);
    ShlFour(w << 8);
    assert (w << 8) << 4 == w << 12;
  }

  lemma CoeffsOfGenerator()
    ensures Coeffs(0x1021) == Generator()
  {
    CoeffsByFours(0x1021);
    assert (0x1021 as bv16) << 4 == 0x0210 && (0x1021 as bv16) << 8 == 0x2100 && (0x1021 as bv16) << 12 == 0x1000;
    NibbleOne(0x1021);
    NibbleOne(0x1000);
    ReadOffFour(Top, Shl, 0x0210);
    ReadOffFour(Top, Shl, 0x2100);
  }

  lemma NibbleOne(w: bv16)
    requires w & 0xF000 == 0x1000
    ensures TopBits(w, 4) == [false, false, false, true]
  {
    ReadOffFour(Top, Shl, w);
    assert !Top(w);
    assert !Top(Shl(w));
    assert !Top(Shl(Shl(w)));
    assert Top(Shl(Shl(Shl(w))));
  }

  lemma CoeffsOfTop()
    ensures Coeffs(0x8000) == [true] + Zeros(15)
  {
    assert (0x8000 as bv16) << 1 == 0;
    TopBitsOfZero(15);
  }

  lemma XorZeros(x: seq<bool>)
    ensures Xor(x, Zeros(|x|)) == x
    ensures Xor(Zeros(|x|), x) == x
    ensures Xor(x, x) == Zeros(|x|)
  {}

  lemma CoeffsShift(c: bv16)
    ensures Coeffs(Shift(c)) == TimesX(Coeffs(c))
  {
    CoeffsShl(c);
    if c & 0x8000 != 0 {
      CoeffsXor(c << 1, 0x1021);
      CoeffsOfGenerator();
    } else {
      XorZeros(Coeffs(c << 1));
    }
  }

  lemma CoeffsFlipTop(c: bv16)
    ensures Coeffs(c ^ 0x8000) == Coeffs(c)[0 := !Coeffs(c)[0]]
  {
    CoeffsXor(c, 0x8000);
    CoeffsOfTop();
    FlipTop(Coeffs(c));
  }

  lemma FlipTop(p: Poly)
    ensures Xor(p, [true] + Zeros(15)) == p[0 := !p[0]]
  {}

  lemma CoeffsFeed(c: bv16, bit: bool)
    ensures Coeffs(Feed(c, bit)) == Absorb(Coeffs(c), bit)
  {
    if bit {
      CoeffsFlipTop(c);
      CoeffsShift(c ^ 0x8000);
    } else {
      CoeffsShift(c);
      assert Coeffs(c) == Coeffs(c)[0 := Coeffs(c)[0] != bit];
    }
  }

  /** The 16-bit register and the polynomial stay in step over any message. */
  lemma {:induction false} CoeffsFeedAll(c: bv16, bits: seq<bool>)
    ensures Coeffs(FeedAll(c, bits)) == AbsorbAll(Coeffs(c), bits)
    decreases |bits|
  {
    if bits != [] {
      CoeffsFeed(c, bits[0]);
      CoeffsFeedAll(Feed(c, bits[0]), bits[1..]);
    }
  }

  // ---------------------------------------------------------------- linearity

  lemma TimesXLinear(p: Poly, q: Poly)
    ensures TimesX(Xor(p, q)) == Xor(TimesX(p), TimesX(q))
  {}

  lemma AbsorbLinear(p: Poly, q: Poly, x: bool, y: bool)
    ensures Absorb(Xor(p, q), x != y) == Xor(Absorb(p, x), Absorb(q, y))
  {
    TimesXLinear(p[0 := p[0] != x], q[0 := q[0] != y]);
    assert Xor(p, q)[0 := Xor(p, q)[0] != (x != y)] == Xor(p[0 := p[0] != x], q[0 := q[0] != y]);
  }

  /** Absorbing is linear: the remainder of a sum is the sum of the remainders. */
  lemma {:induction false} AbsorbAllLinear(p: Poly, q: Poly, x: seq<bool>, y: seq<bool>)
    requires |x| == |y|
    ensures AbsorbAll(Xor(p, q), Xor(x, y)) == Xor(AbsorbAll(p, x), AbsorbAll(q, y))
    decreases |x|
  {
    if x != [] {
      AbsorbLinear(p, q, x[0], y[0]);
      assert Xor(x, y)[1..] == Xor(x[1..], y[1..]);
      AbsorbAllLinear(Absorb(p, x[0]), Absorb(q, y[0]), x[1..], y[1..]);
    }
  }

  lemma {:induction false} FoldConcat<R>(step: (R, bool) -> R, r: R, x: seq<bool>, y: seq<bool>)
    ensures Fold(step, r, x + y) == Fold(step, Fold(step, r, x), y)
    decreases |x|
  {
    if x == [] {
      assert x + y == y;
    } else {
      assert (x + y)[1..] == x[1..] + y;
      FoldConcat(step, step(r, x[0]), x[1..], y);
    }
  }

  // ---------------------------------------------------------------- loading bits at once

  lemma SplitTop(s: Poly, w: Poly)
    ensures Absorb(Xor(s, w), false) == Xor(Absorb(s, w[0]), w[1..] + [false])
  {
    var rest: Poly := [false] + w[1..];
    assert Xor(s, w)[0 := Xor(s, w)[0] != false] == Xor(s[0 := s[0] != w[0]], rest);
    TimesXLinear(s[0 := s[0] != w[0]], rest);
    XorZeros(w[1..] + [false]);
    assert rest[1..] == w[1..];
  }

  lemma RotateOut(w: Poly, n: nat)
    requires 0 < n <= 16
    ensures (w[1..] + [false])[..n - 1] == w[..n][1..]
    ensures (w[1..] + [false])[n - 1..] + Zeros(n - 1) == w[n..] + Zeros(n)
  {}

  /** Adding up to sixteen message bits to the register at once and then multiplying by x that
      many times is the same as absorbing the bits one at a time. */
  lemma {:induction false} LoadAtOnce(s: Poly, w: Poly, n: nat)
    requires n <= 16
    ensures AbsorbAll(Xor(s, w), Zeros(n)) == Xor(AbsorbAll(s, w[..n]), w[n..] + Zeros(n))
    decreases n
  {
    if n == 0 {
      assert w[0..] + Zeros(0) == w;
    } else {
      var w': Poly := w[1..] + [false];
      SplitTop(s, w);
      assert Zeros(n)[1..] == Zeros(n - 1);
      LoadAtOnce(Absorb(s, w[0]), w', n - 1);
      RotateOut(w, n);
    }
  }

  lemma CoeffsWiden(b: byte)
    ensures Coeffs(Widen(b)) == ByteBits(b) + Zeros(8)
  {
    TopBitsSplit(Widen(b), 8, 8);
    ShlEight(Widen(b));
    WidenedEmpties(b);
    TopBitsOfZero(8);
  }

  lemma WidenedEmpties(b: byte)
    ensures Widen(b) << 8 == 0
  {}

  lemma CoeffsAddByte(c: bv16, b: byte)
    ensures Coeffs(c ^ Widen(b)) == Xor(Coeffs(c), ByteBits(b) + Zeros(8))
  {
    CoeffsWiden(b);
    CoeffsXor(c, Widen(b));
  }

  lemma AddByteThenShift(c: bv16, b: byte, loaded: bv16)
    requires Coeffs(loaded) == Xor(Coeffs(c), ByteBits(b) + Zeros(8))
    ensures FeedAll(loaded, Zeros(8)) == FeedAll(c, ByteBits(b))
  {
    CoeffsFeedAll(loaded, Zeros(8));
    CoeffsFeedAll(c, ByteBits(b));
    LoadByteAtOnce(Coeffs(c), ByteBits(b));
    CoeffsInjective(FeedAll(loaded, Zeros(8)), FeedAll(c, ByteBits(b)));
  }

  lemma LoadByteAtOnce(s: Poly, bits: seq<bool>)
    requires |bits| == 8
    ensures AbsorbAll(Xor(s, bits + Zeros(8)), Zeros(8)) == AbsorbAll(s, bits)
  {
    var w: Poly := bits + Zeros(8);
    LoadAtOnce(s, w, 8);
    assert w[..8] == bits;
    assert w[8..] + Zeros(8) == Zeros(16);
    XorZeros(AbsorbAll(s, bits));
  }

  // ---------------------------------------------------------------- the source's loops

  lemma FeedOneZero(c: bv16, bits: seq<bool>)
    ensures FeedAll(c, bits + [false]) == Shift(FeedAll(c, bits))
  {
    FoldConcat(Feed, c, bits, [false]);
    FoldOne(Feed, FeedAll(c, bits), false);
  }

  method CalcCRC16(data: seq<byte>) returns (crc: bv16)
    ensures crc == Checksum(data)
  {
    crc := INITIAL;
    hide ByteBits, Feed;
    assert data[..0] == [];
    for i := 0 to |data|
      invariant crc == Checksum(data[..i])
    {
      ghost var before := crc;
      crc := crc ^ Widen(data[i]);
      ghost var loaded, zeros := crc, [];
      for j := 0 to 8
        invariant zeros == Zeros(j) && crc == FeedAll(loaded, zeros)
      {
        FeedOneZero(loaded, zeros);
        crc, zeros := Shift(crc), zeros + [false];
      }
      AbsorbByte(before, data[i], loaded, zeros);
      ChecksumAppend(data[..i], data[i]);
      assert data[..i] + [data[i]] == data[..i + 1];
    }
    assert data[..|data|] == data;
  }

  /** Eight turns of the inner loop absorb one byte. */
  lemma AbsorbByte(c: bv16, b: byte, loaded: bv16, zeros: seq<bool>)
    requires loaded == c ^ Widen(b) && zeros == Zeros(8)
    ensures FeedAll(loaded, zeros) == FeedAll(c, ByteBits(b))
  {
    CoeffsAddByte(c, b);
    AddByteThenShift(c, b, loaded);
  }

  lemma ChecksumAppend(prefix: seq<byte>, b: byte)
    ensures Checksum(prefix + [b]) == FeedAll(Checksum(prefix), ByteBits(b))
  {
    assert (prefix + [b])[..|prefix|] == prefix;
    FoldConcat(Feed, INITIAL, Bits(prefix), ByteBits(b));
  }

  // ---------------------------------------------------------------- polynomial remainder

  /** Schoolbook long division by the generator: bring down the next coefficient, and subtract
      the generator when the coefficient pushed out at the top was one. */
  function Remainder(r: Poly, bits: seq<bool>): Poly
    decreases |bits|
  {
    if bits == [] then r
    else Remainder(if r[0] then Xor(r[1..] + [bits[0]], Generator()) else r[1..] + [bits[0]], bits[1..])
  }

  function Unit(bit: bool): Poly { Zeros(15) + [bit] }

  lemma {:induction false} TimesXCommutes(r: Poly, n: nat)
    ensures AbsorbAll(TimesX(r), Zeros(n)) == TimesX(AbsorbAll(r, Zeros(n)))
    decreases n
  {
    if n > 0 {
      assert Zeros(n)[1..] == Zeros(n - 1);
      assert r[0 := r[0] != false] == r;
      assert TimesX(r)[0 := TimesX(r)[0] != false] == TimesX(r);
      TimesXCommutes(TimesX(r), n - 1);
    }
  }

  /** x^16 times a constant term is what absorbing that bit into an empty register gives. */
  lemma UnitTimesX16(bit: bool)
    ensures AbsorbAll(Unit(bit), Zeros(16)) == Absorb(Zeros(16), bit)
  {
    WindowAtOnce(Unit(bit));
    AbsorbUnit(bit);
  }

  lemma WindowAtOnce(w: Poly)
    ensures AbsorbAll(w, Zeros(16)) == AbsorbAll(Zeros(16), w)
  {
    LoadAtOnce(Zeros(16), w, 16);
    XorZeros(w);
    assert w[..16] == w && w[16..] + Zeros(16) == Zeros(16);
    XorZeros(AbsorbAll(Zeros(16), w));
  }

  lemma AbsorbInTwoParts(t: Poly, bit: bool)
    ensures Absorb(t, bit) == Xor(TimesX(t), Absorb(Zeros(16), bit))
  {
    XorZeros(t);
    AbsorbLinear(t, Zeros(16), false, bit);
    assert t[0 := t[0] != false] == t;
  }

  /** Multiplying by x^16 turns a step of long division into a step of the register. */
  lemma DivisionStep(r: Poly, bit: bool)
    ensures AbsorbAll(Xor(TimesX(r), Unit(bit)), Zeros(16)) == Absorb(AbsorbAll(r, Zeros(16)), bit)
  {
    XorZeros(Zeros(16));
    AbsorbAllLinear(TimesX(r), Unit(bit), Zeros(16), Zeros(16));
    TimesXCommutes(r, 16);
    UnitTimesX16(bit);
    AbsorbInTwoParts(AbsorbAll(r, Zeros(16)), bit);
  }

  lemma AbsorbUnit(bit: bool)
    ensures AbsorbAll(Zeros(16), Unit(bit)) == Absorb(Zeros(16), bit)
  {
    FoldConcat<Poly>(Absorb, Zeros(16), Zeros(15), [bit]);
    ZerosStayZero(15);
    FoldOne<Poly>(Absorb, Zeros(16), bit);
  }

  lemma FoldOne<R>(step: (R, bool) -> R, r: R, bit: bool)
    ensures Fold(step, r, [bit]) == step(r, bit)
  {
    assert [bit][1..] == [];
  }

  lemma {:induction false} ZerosStayZero(n: nat)
    ensures AbsorbAll(Zeros(16), Zeros(n)) == Zeros(16)
  {
    if n > 0 {
      assert Absorb(Zeros(16), false) == Zeros(16);
      assert Zeros(n)[1..] == Zeros(n - 1);
      ZerosStayZero(n - 1);
    }
  }

  lemma {:induction false} RemainderOfShifted(r: Poly, bits: seq<bool>)
    ensures Remainder(r, bits + Zeros(16)) == AbsorbAll(AbsorbAll(r, Zeros(16)), bits)
    decreases |bits|
  {
    if bits == [] {
      assert bits + Zeros(16) == Zeros(16);
      RemainderOfZeros(r, 16);
    } else {
      assert (bits + Zeros(16))[1..] == bits[1..] + Zeros(16);
      assert (bits + Zeros(16))[0] == bits[0];
      var next := Xor(TimesX(r), Unit(bits[0]));
      assert next == if r[0] then Xor(r[1..] + [bits[0]], Generator()) else r[1..] + [bits[0]];
      DivisionStep(r, bits[0]);
      RemainderOfShifted(next, bits[1..]);
    }
  }

  lemma {:induction false} RemainderOfZeros(r: Poly, n: nat)
    ensures Remainder(r, Zeros(n)) == AbsorbAll(r, Zeros(n))
    decreases n
  {
    if n > 0 {
      assert Zeros(n)[1..] == Zeros(n - 1);
      assert r[0 := r[0] != false] == r;
      XorZeros(r[1..] + [false]);
      RemainderOfZeros(TimesX(r), n - 1);
    }
  }

  /** The preset that multiplication by x^16 turns into the register preset 0xFFFF. */
  const DIVISION_PRESET: bv16 := 0x84CF

  lemma FeedFourZeros(c: bv16)
    ensures FeedAll(c, Zeros(4)) == Shift(Shift(Shift(Shift(c))))
  {
    FeedOneZero(c, []);
    FeedOneZero(c, [false]);
    FeedOneZero(c, [false, false]);
    FeedOneZero(c, [false, false, false]);
    assert Zeros(4) == [] + [false] + [false] + [false] + [false];
  }

  lemma PresetCorresponds()
    ensures FeedAll(DIVISION_PRESET, Zeros(16)) == INITIAL
  {
    assert Zeros(16) == Zeros(4) + (Zeros(4) + (Zeros(4) + Zeros(4)));
    FoldConcat(Feed, DIVISION_PRESET, Zeros(4), Zeros(4) + (Zeros(4) + Zeros(4)));
    FeedFourZeros(DIVISION_PRESET);
    var a := Shift(Shift(Shift(Shift(DIVISION_PRESET))));
    FoldConcat(Feed, a, Zeros(4), Zeros(4) + Zeros(4));
    FeedFourZeros(a);
    var b := Shift(Shift(Shift(Shift(a))));
    FoldConcat(Feed, b, Zeros(4), Zeros(4));
    FeedFourZeros(b);
    FeedFourZeros(Shift(Shift(Shift(Shift(b)))));
  }

  /** The checksum is the remainder of dividing the message, followed by sixteen zero
      coefficients, by the generator. */
  lemma ChecksumIsRemainder(data: seq<byte>)
    ensures Coeffs(Checksum(data)) == Remainder(Coeffs(DIVISION_PRESET), Bits(data) + Zeros(16))
  {
    CoeffsFeedAll(INITIAL, Bits(data));
    CoeffsFeedAll(DIVISION_PRESET, Zeros(16));
    PresetCorresponds();
    RemainderOfShifted(Coeffs(DIVISION_PRESET), Bits(data));
  }

  // ---------------------------------------------------------------- the catalogued check value

  function Shift8(c: bv16): bv16 { Shift(Shift(Shift(Shift(Shift(Shift(Shift(Shift(c)))))))) }

  lemma OneMoreByte(prefix: seq<byte>, c: bv16, b: byte, w: bv16, d: bv16)
    requires Checksum(prefix) == c && Widen(b) == w && Shift8(c ^ w) == d
    ensures Checksum(prefix + [b]) == d
  {
    hide Checksum, Shift, ByteBits, Feed, Widen;
    ChecksumAppend(prefix, b);
    AbsorbByte(c, b, c ^ w, Zeros(8));
    assert Zeros(8) == Zeros(4) + Zeros(4);
    FoldConcat(Feed, c ^ w, Zeros(4), Zeros(4));
    FeedFourZeros(c ^ w);
    FeedFourZeros(Shift(Shift(Shift(Shift(c ^ w)))));
  }

  /** The digits 1 to 9 in ASCII have the check value that catalogues give for this checksum, and the empty
      message has the register's preset. */
  lemma CheckValue(digits: seq<byte>)
    requires |digits| == 9 && forall i :: 0 <= i < 9 ==> digits[i] == 0x31 + i
    ensures Checksum(digits) == 0x29B1
    ensures Checksum(digits[..0]) == 0xFFFF
  {
    hide Checksum, Bits, ByteBits, Feed;
    EmptyChecksum(digits[..0]);
    OneMoreByte(digits[..0], 0xFFFF, 0x31, 0x3100, 0xC782);
    assert digits[..0] + [0x31] == digits[..1];
    OneMoreByte(digits[..1], 0xC782, 0x32, 0x3200, 0x3DBA);
    assert digits[..1] + [0x32] == digits[..2];
    OneMoreByte(digits[..2], 0x3DBA, 0x33, 0x3300, 0x5BCE);
    assert digits[..2] + [0x33] == digits[..3];
    OneMoreByte(digits[..3], 0x5BCE, 0x34, 0x3400, 0x5349);
    assert digits[..3] + [0x34] == digits[..4];
    OneMoreByte(digits[..4], 0x5349, 0x35, 0x3500, 0x4560);
    assert digits[..4] + [0x35] == digits[..5];
    OneMoreByte(digits[..5], 0x4560, 0x36, 0x3600, 0x2EF4);
    assert digits[..5] + [0x36] == digits[..6];
    OneMoreByte(digits[..6], 0x2EF4, 0x37, 0x3700, 0x7718);
    assert digits[..6] + [0x37] == digits[..7];
    OneMoreByte(digits[..7], 0x7718, 0x38, 0x3800, 0xA12B);
    assert digits[..7] + [0x38] == digits[..8];
    OneMoreByte(digits[..8], 0xA12B, 0x39, 0x3900, 0x29B1);
    assert digits[..8] + [0x39] == digits[..9];
    assert digits[..9] == digits;
  }

  lemma EmptyChecksum(data: seq<byte>)
    requires data == []
    ensures Checksum(data) == 0xFFFF
  {
  }

  // ---------------------------------------------------------------- bursts

  lemma TimesXInjectiveAtZero(p: Poly)
    requires TimesX(p) == Zeros(16)
    ensures p == Zeros(16)
  {
    assert !TimesX(p)[15];
    assert Generator()[15];
    forall i | 0 < i < 16
      ensures !p[i]
    {
      assert !TimesX(p)[i - 1];
    }
  }

  lemma {:induction false} AbsorbZerosInjective(p: Poly, n: nat)
    requires AbsorbAll(p, Zeros(n)) == Zeros(16)
    ensures p == Zeros(16)
    decreases n
  {
    if n > 0 {
      assert Zeros(n)[1..] == Zeros(n - 1);
      assert p[0 := p[0] != false] == p;
      AbsorbZerosInjective(TimesX(p), n - 1);
      TimesXInjectiveAtZero(p);
    }
  }

  /** All positions where `bits` is set lie within 16 consecutive positions. */
  ghost predicate IsBurst(bits: seq<bool>) {
    exists from: nat :: BurstFrom(bits, from)
  }

  ghost predicate BurstFrom(bits: seq<bool>, from: nat) {
    forall i :: 0 <= i < |bits| && bits[i] ==> from <= i < from + 16
  }

  lemma WindowLeavesRemainder(from: nat, w: Poly, tail: nat)
    requires AbsorbAll(Zeros(16), Zeros(from) + (w + Zeros(tail))) == Zeros(16)
    ensures w == Zeros(16)
  {
    FoldConcat<Poly>(Absorb, Zeros(16), Zeros(from), w + Zeros(tail));
    ZerosStayZero(from);
    FoldConcat<Poly>(Absorb, Zeros(16), w, Zeros(tail));
    AbsorbZerosInjective(AbsorbAll(Zeros(16), w), tail);
    WindowAtOnce(w);
    AbsorbZerosInjective(w, 16);
  }

  /** Padded with zeros, a burst is a window of 16 bits between zeros. */
  lemma BurstWindow(e: seq<bool>, from: nat) returns (w: Poly)
    requires BurstFrom(e, from)
    ensures e + Zeros(from + 16) == Zeros(from) + (w + Zeros(|e|))
    ensures w == Zeros(16) ==> e == Zeros(|e|)
  {
    var padded := e + Zeros(from + 16);
    w := padded[from..from + 16];
    var framed := Zeros(from) + (w + Zeros(|e|));
    forall i | 0 <= i < |padded| ensures padded[i] == framed[i] {
      assert i < |e| && e[i] ==> from <= i < from + 16;
    }
    forall i | 0 <= i < |e| ensures e[i] ==> w[i - from] {
      assert e[i] ==> from <= i < from + 16;
    }
  }

  lemma BurstLeavesRemainder(e: seq<bool>)
    requires IsBurst(e)
    requires AbsorbAll(Zeros(16), e) == Zeros(16)
    ensures e == Zeros(|e|)
  {
    var from: nat :| BurstFrom(e, from);
    // Behind the burst any number of zero bits may follow without changing the question.
    FoldConcat<Poly>(Absorb, Zeros(16), e, Zeros(from + 16));
    ZerosStayZero(from + 16);
    var w := BurstWindow(e, from);
    WindowLeavesRemainder(from, w, |e|);
  }

  // ---------------------------------------------------------------- odd weight

  function Weight(bits: seq<bool>): nat
    decreases |bits|
  {
    if bits == [] then 0 else (if bits[0] then 1 else 0) + Weight(bits[1..])
  }

  lemma {:induction false} WeightConcat(x: seq<bool>, y: seq<bool>)
    ensures Weight(x + y) == Weight(x) + Weight(y)
    decreases |x|
  {
    if x == [] {
      assert x + y == y;
    } else {
      assert (x + y)[1..] == x[1..] + y;
      WeightConcat(x[1..], y);
    }
  }

  lemma {:induction false} WeightXor(x: seq<bool>, y: seq<bool>)
    requires |x| == |y|
    ensures Weight(Xor(x, y)) % 2 == (Weight(x) + Weight(y)) % 2
    decreases |x|
  {
    if x != [] {
      assert Xor(x, y)[1..] == Xor(x[1..], y[1..]);
      WeightXor(x[1..], y[1..]);
    }
  }

  lemma {:induction false} WeightZeros(n: nat)
    ensures Weight(Zeros(n)) == 0
    decreases n
  {
    if n > 0 {
      assert Zeros(n)[1..] == Zeros(n - 1);
      WeightZeros(n - 1);
    }
  }

  lemma GeneratorWeight()
    ensures Weight(Generator()) == 3
  {
    assert Generator() == Zeros(3) + ([true] + (Zeros(6) + ([true] + (Zeros(4) + [true]))));
    WeightConcat(Zeros(3), [true] + (Zeros(6) + ([true] + (Zeros(4) + [true]))));
    WeightConcat([true], Zeros(6) + ([true] + (Zeros(4) + [true])));
    WeightConcat(Zeros(6), [true] + (Zeros(4) + [true]));
    WeightConcat([true], Zeros(4) + [true]);
    WeightConcat(Zeros(4), [true]);
    WeightZeros(3);
    WeightZeros(4);
    WeightZeros(6);
  }

  /** The generator has an even number of terms (x + 1 divides it), so parity is an invariant. */
  lemma TimesXKeepsParity(p: Poly)
    ensures Weight(TimesX(p)) % 2 == Weight(p) % 2
  {
    GeneratorWeight();
    WeightZeros(16);
    var g: Poly := if p[0] then Generator() else Zeros(16);
    assert TimesX(p) == Xor(p[1..] + [false], g);
    ParityOfReduced(p, g);
  }

  lemma ParityOfReduced(p: Poly, g: Poly)
    requires p[0] == (Weight(g) % 2 == 1)
    ensures Weight(Xor(p[1..] + [false], g)) % 2 == Weight(p) % 2
  {
    WeightConcat(p[1..], [false]);
    WeightZeros(1);
    assert Zeros(1) == [false];
    WeightXor(p[1..] + [false], g);
  }

  lemma {:induction false} FoldParity<R(!new)>(step: (R, bool) -> R, odd: R -> bool, r: R, bits: seq<bool>)
    requires forall r, b :: odd(step(r, b)) == (odd(r) != b)
    ensures odd(Fold(step, r, bits)) == (odd(r) != (Weight(bits) % 2 == 1))
    decreases |bits|
  {
    if bits != [] {
      FoldParity(step, odd, step(r, bits[0]), bits[1..]);
    }
  }

  predicate OddWeight(p: Poly) { Weight(p) % 2 == 1 }

  lemma AbsorbParity(p: Poly, bit: bool)
    ensures OddWeight(Absorb(p, bit)) == (OddWeight(p) != bit)
  {
    var q := p[0 := p[0] != bit];
    assert q[1..] == p[1..];
    TimesXKeepsParity(q);
  }

  // ---------------------------------------------------------------- error detection

  lemma ByteBitsInjective(a: byte, b: byte)
    requires ByteBits(a) == ByteBits(b)
    ensures a == b
  {
    CoeffsWiden(a);
    CoeffsWiden(b);
    CoeffsInjective(Widen(a), Widen(b));
    WidenInjective(a, b);
  }

  lemma WidenInjective(a: byte, b: byte)
    requires Widen(a) == Widen(b)
    ensures a == b
  {
    UpperHalfInjective(a as bv8, b as bv8);
    ByteValues.RoundTrip(a);
    ByteValues.RoundTrip(b);
  }

  lemma UpperHalfInjective(x: bv8, y: bv8)
    requires (x as bv16) << 8 == (y as bv16) << 8
    ensures x == y
  {
    assert (((x as bv16) << 8) >> 8) as bv8 == x;
    assert (((y as bv16) << 8) >> 8) as bv8 == y;
  }

  lemma SplitEqual(a: seq<bool>, b: seq<bool>, c: seq<bool>, d: seq<bool>)
    requires |a| == |c| && a + b == c + d
    ensures a == c && b == d
  {
    assert a == (a + b)[..|a|] && c == (c + d)[..|c|];
    assert b == (a + b)[|a|..] && d == (c + d)[|c|..];
  }

  lemma {:induction false} BitsInjective(p: seq<byte>, q: seq<byte>)
    requires |p| == |q| && Bits(p) == Bits(q)
    ensures p == q
  {
    hide ByteBits;
    if p != [] {
      var n := |p| - 1;
      SplitEqual(Bits(p[..n]), ByteBits(p[n]), Bits(q[..n]), ByteBits(q[n]));
      BitsInjective(p[..n], q[..n]);
      ByteBitsInjective(p[n], q[n]);
      assert p == p[..n] + [p[n]] && q == q[..n] + [q[n]];
    }
  }

  /** A corruption within 16 consecutive bits, or of an odd number of bits, always changes the
      checksum, whatever the message length. */
  lemma DetectsErrors(p: seq<byte>, q: seq<byte>)
    requires |p| == |q| && p != q
    requires IsBurst(Xor(Bits(p), Bits(q))) || Weight(Xor(Bits(p), Bits(q))) % 2 == 1
    ensures Checksum(p) != Checksum(q)
  {
    if Checksum(p) == Checksum(q) {
      SameChecksum(p, q);
      NothingToDetect(Xor(Bits(p), Bits(q)));
      SameBits(p, q);
      assert false;
    }
  }

  lemma FixedPointParity(p: Poly, e: seq<bool>)
    requires AbsorbAll(p, e) == p
    ensures Weight(e) % 2 == 0
  {
    forall r: Poly, b: bool
      ensures OddWeight(Absorb(r, b)) == (OddWeight(r) != b)
    {
      AbsorbParity(r, b);
    }
    FoldParity<Poly>(Absorb, OddWeight, p, e);
  }

  lemma NothingToDetect(e: seq<bool>)
    requires AbsorbAll(Zeros(16), e) == Zeros(16)
    requires IsBurst(e) || Weight(e) % 2 == 1
    ensures e == Zeros(|e|)
  {
    if Weight(e) % 2 == 1 {
      FixedPointParity(Zeros(16), e);
      assert false;
    } else {
      BurstLeavesRemainder(e);
    }
  }

  lemma SameChecksum(p: seq<byte>, q: seq<byte>)
    requires |p| == |q| && Checksum(p) == Checksum(q)
    ensures AbsorbAll(Zeros(16), Xor(Bits(p), Bits(q))) == Zeros(16)
  {
    var start := Coeffs(INITIAL);
    CoeffsFeedAll(INITIAL, Bits(p));
    CoeffsFeedAll(INITIAL, Bits(q));
    AbsorbAllLinear(start, start, Bits(p), Bits(q));
    XorZeros(start);
    XorZeros(AbsorbAll(start, Bits(p)));
  }

  lemma SameBits(p: seq<byte>, q: seq<byte>)
    requires |p| == |q| && Xor(Bits(p), Bits(q)) == Zeros(8 * |p|)
    ensures p == q
  {
    forall i | 0 <= i < 8 * |p|
      ensures Bits(p)[i] == Bits(q)[i]
    {
      assert !Xor(Bits(p), Bits(q))[i];
    }
    BitsInjective(p, q);
  }
}
