/**
 Arithmetic in GF(2^255 - 19) as the X25519 code does it: five 51-bit limbs in 64-bit
 words with 128-bit products.
 */
module Curve25519 {
  import opened Words
  import opened Limbs
  import opened Fermat
  import Prime25519

  /** 2^255 - 19 */
  const PRIME := 0x7FFF_FFFF_FFFF_FFFF_FFFF_FFFF_FFFF_FFFF_FFFF_FFFF_FFFF_FFFF_FFFF_FFFF_FFFF_FFED

  const TWO255 := 0x8000_0000_0000_0000_0000_0000_0000_0000_0000_0000_0000_0000_0000_0000_0000_0000

  function Value(x: Limbs5): int { Eval(0x8_0000_0000_0000, x) }

  lemma PrimeIsPow5()
    ensures Pow5(0x8_0000_0000_0000) == TWO255 == PRIME + 19
  {
  }

  /** What multiplication accepts: limbs below 2^54. */
  ghost predicate Wide(x: Limbs5) {
    && 0 <= x.x0 < 0x40_0000_0000_0000 && 0 <= x.x1 < 0x40_0000_0000_0000 && 0 <= x.x2 < 0x40_0000_0000_0000
    && 0 <= x.x3 < 0x40_0000_0000_0000 && 0 <= x.x4 < 0x40_0000_0000_0000
  }

  /** What multiplication returns: only limb 1 may exceed 51 bits, by less than 2^13. */
  ghost predicate Tight(x: Limbs5) {
    && 0 <= x.x0 < 0x8_0000_0000_0000 && 0 <= x.x1 < 0x8_0000_0000_2000 && 0 <= x.x2 < 0x8_0000_0000_0000
    && 0 <= x.x3 < 0x8_0000_0000_0000 && 0 <= x.x4 < 0x8_0000_0000_0000
  }

  // ---------- Multiplication ----------

  /** The carry chain of fe_mul, with every conversion to 64 and 128 bits written out. */
  function CarryChain(t: Limbs5): Limbs5
    requires 0 <= t.x0 && 0 <= t.x1 && 0 <= t.x2 && 0 <= t.x3 && 0 <= t.x4
  {
    var c0 := W64(Shr(t.x0, 51)); var h0 := And(W64(t.x0), 0x7ffffffffffff); var t1 := W128(t.x1 + c0);
    var c1 := W64(Shr(t1, 51)); var h1 := And(W64(t1), 0x7ffffffffffff); var t2 := W128(t.x2 + c1);
    var c2 := W64(Shr(t2, 51)); var h2 := And(W64(t2), 0x7ffffffffffff); var t3 := W128(t.x3 + c2);
    var c3 := W64(Shr(t3, 51)); var h3 := And(W64(t3), 0x7ffffffffffff); var t4 := W128(t.x4 + c3);
    var c4 := W64(Shr(t4, 51)); var h4 := And(W64(t4), 0x7ffffffffffff); var h0' := W64(h0 + W64(c4 * 19));
    Limbs5(And(h0', 0x7ffffffffffff), W64(h1 + Shr(h0', 51)), h2, h3, h4)
  }

  function MulLimbs(f: Limbs5, g: Limbs5): Limbs5 {
    var g1, g2, g3, g4 := W64(g.x1 * 19), W64(g.x2 * 19), W64(g.x3 * 19), W64(g.x4 * 19);
    CarryChain(Limbs5(
      W128(f.x0 * g.x0 + f.x1 * g4 + f.x2 * g3 + f.x3 * g2 + f.x4 * g1),
      W128(f.x0 * g.x1 + f.x1 * g.x0 + f.x2 * g4 + f.x3 * g3 + f.x4 * g2),
      W128(f.x0 * g.x2 + f.x1 * g.x1 + f.x2 * g.x0 + f.x3 * g4 + f.x4 * g3),
      W128(f.x0 * g.x3 + f.x1 * g.x2 + f.x2 * g.x1 + f.x3 * g.x0 + f.x4 * g4),
      W128(f.x0 * g.x4 + f.x1 * g.x3 + f.x2 * g.x2 + f.x3 * g.x1 + f.x4 * g.x0)))
  }

  lemma Mask51(x: nat)
    ensures And(x, 0x7ffffffffffff) == Lo(0x8_0000_0000_0000, x) && Shr(x, 51) == Hi(0x8_0000_0000_0000, x)
  {
    hide And, Pow2;
    Pow2Consts();
    AndMask(x, 51);
  }

  lemma MaskedWord(t: nat)
    ensures And(W64(t), 0x7ffffffffffff) == Lo(0x8_0000_0000_0000, t)
  {
    hide And, Pow2;
    Mask51(W64(t));
    Pow2Consts();
    ModMod(t, 51, 64);
  }

  /** Bounds on the five sums under which no conversion of the chain loses a bit. */
  ghost predicate ChainFits(t: Limbs5) {
    && 0 <= t.x0 < 0x5F_000000000000000000000000000 && 0 <= t.x1 < 0x5F_000000000000000000000000000
    && 0 <= t.x2 < 0x5F_000000000000000000000000000 && 0 <= t.x3 < 0x5F_000000000000000000000000000
    && 0 <= t.x4 < 0x5_000000000000000000000000000
  }

  lemma ChainLink(t: nat, next: nat)
    requires t < 0x5F_000000000010000000000000000 && next < 0x5F_000000000000000000000000000
    ensures And(W64(t), 0x7ffffffffffff) == Lo(0x8_0000_0000_0000, t)
    ensures 0 <= W64(Shr(t, 51)) == Hi(0x8_0000_0000_0000, t) < 0xBE00_0000_0000_2000
    ensures W128(next + W64(Shr(t, 51))) == next + Hi(0x8_0000_0000_0000, t)
  {
    hide And, Shr, W64, W128;
    Mask51(t);
    MaskedWord(t);
    W64Id(Shr(t, 51));
    W128Id(next + Shr(t, 51));
  }

  /** The top carry comes back nineteen-fold into limb 0, and limb 0 carries into limb 1. */
  lemma FoldLink(h0: int, c4: int, h1: int)
    requires 0 <= h0 < 0x8_0000_0000_0000 && 0 <= c4 < 0xA00_0000_0000_2000 && 0 <= h1 < 0x8_0000_0000_0000
    ensures W64(h0 + W64(c4 * 19)) == h0 + c4 * 19
    ensures And(h0 + c4 * 19, 0x7ffffffffffff) == Lo(0x8_0000_0000_0000, h0 + c4 * 19)
    ensures 0 <= Shr(h0 + c4 * 19, 51) == Hi(0x8_0000_0000_0000, h0 + c4 * 19) < 0x2000
    ensures W64(h1 + Hi(0x8_0000_0000_0000, h0 + c4 * 19)) == h1 + Hi(0x8_0000_0000_0000, h0 + c4 * 19)
  {
    hide And, Shr;
    Mask51(h0 + c4 * 19);
  }

  /** A carry is small, and adding it keeps the next sum inside the chain's range. */
  lemma CarryBound(t: int, next: int)
    requires 0 <= t < 0x5F_000000000010000000000000000 && 0 <= next < 0x5F_000000000000000000000000000
    ensures 0 <= next + Hi(0x8_0000_0000_0000, t) < 0x5F_000000000010000000000000000
    ensures next < 0x5_000000000000000000000000000 ==>
      Hi(0x8_0000_0000_0000, next + Hi(0x8_0000_0000_0000, t)) < 0xA00_0000_0000_2000
  {
  }

  lemma ChainIsPlain(t: Limbs5)
    requires ChainFits(t)
    ensures CarryChain(t) == Chain(0x8_0000_0000_0000, 19, t)
    ensures Tight(CarryChain(t))
  {
    hide And, Shr, W64, W128, Hi, Lo;
    var t1 := t.x1 + Hi(0x8_0000_0000_0000, t.x0);
    ChainLink(t.x0, t.x1); CarryBound(t.x0, t.x1); LoRange(0x8_0000_0000_0000, t.x0);
    var t2 := t.x2 + Hi(0x8_0000_0000_0000, t1);
    ChainLink(t1, t.x2); CarryBound(t1, t.x2); LoRange(0x8_0000_0000_0000, t1);
    var t3 := t.x3 + Hi(0x8_0000_0000_0000, t2);
    ChainLink(t2, t.x3); CarryBound(t2, t.x3); LoRange(0x8_0000_0000_0000, t2);
    var t4 := t.x4 + Hi(0x8_0000_0000_0000, t3);
    ChainLink(t3, t.x4); CarryBound(t3, t.x4); LoRange(0x8_0000_0000_0000, t3);
    ChainLink(t4, 0); LoRange(0x8_0000_0000_0000, t4);
    var h0 := Lo(0x8_0000_0000_0000, t.x0) + Hi(0x8_0000_0000_0000, t4) * 19;
    FoldLink(Lo(0x8_0000_0000_0000, t.x0), Hi(0x8_0000_0000_0000, t4), Lo(0x8_0000_0000_0000, t1));
    LoRange(0x8_0000_0000_0000, h0);
  }

  lemma TermBound(a: int, b: int, m: int)
    requires 0 <= a < 0x40_0000_0000_0000 && 0 <= b < m
    ensures 0 <= a * b <= 0x3F_FFFF_FFFF_FFFF * m
  {
    MulMono(a, 0x3F_FFFF_FFFF_FFFF, b);
    MulMono(0, a, b);
  }

  lemma DotBound(a: Limbs5, b0: int, b1: int, b2: int, b3: int, b4: int, m: int)
    requires Wide(a)
    requires 0 <= b0 < m && 0 <= b1 < m && 0 <= b2 < m && 0 <= b3 < m && 0 <= b4 < m
    ensures 0 <= a.x0 * b0 + a.x1 * b1 + a.x2 * b2 + a.x3 * b3 + a.x4 * b4 <= 5 * 0x3F_FFFF_FFFF_FFFF * m
  {
    TermBound(a.x0, b0, m);
    TermBound(a.x1, b1, m);
    TermBound(a.x2, b2, m);
    TermBound(a.x3, b3, m);
    TermBound(a.x4, b4, m);
  }

  lemma ProductsFit(f: Limbs5, g: Limbs5)
    requires Wide(f) && Wide(g)
    ensures ChainFits(Product(19, f, g))
  {
    var g1, g2, g3, g4 := g.x1 * 19, g.x2 * 19, g.x3 * 19, g.x4 * 19;
    var m := 19 * 0x40_0000_0000_0000;
    DotBound(f, g.x0, g4, g3, g2, g1, m);
    DotBound(f, g.x1, g.x0, g4, g3, g2, m);
    DotBound(f, g.x2, g.x1, g.x0, g4, g3, m);
    DotBound(f, g.x3, g.x2, g.x1, g.x0, g4, m);
    DotBound(f, g.x4, g.x3, g.x2, g.x1, g.x0, 0x40_0000_0000_0000);
  }

  lemma MulIsChain(f: Limbs5, g: Limbs5)
    requires Wide(g) && ChainFits(Product(19, f, g))
    ensures MulLimbs(f, g) == CarryChain(Product(19, f, g))
  {
    hide CarryChain, W64, W128;
    var t := Product(19, f, g);
    W64Id(g.x1 * 19);
    W64Id(g.x2 * 19);
    W64Id(g.x3 * 19);
    W64Id(g.x4 * 19);
    W128Id(t.x0);
    W128Id(t.x1);
    W128Id(t.x2);
    W128Id(t.x3);
    W128Id(t.x4);
  }

  /** fe_mul: nothing overflows, the limbs are fit for reuse, the value is the product mod p. */
  lemma MulValue(f: Limbs5, g: Limbs5)
    requires Wide(f) && Wide(g)
    ensures Tight(MulLimbs(f, g))
    ensures Congruent(PRIME, Value(MulLimbs(f, g)), Value(f) * Value(g))
  {
    hide MulLimbs, CarryChain, Chain, Product, Pow5, Eval, TopCarry;
    var t := Product(19, f, g);
    ProductsFit(f, g);
    MulIsChain(f, g);
    ChainIsPlain(t);
    ChainValue(0x8_0000_0000_0000, 19, t);
    PrimeIsPow5();
    CongruentMultiple(PRIME, Value(t), Value(MulLimbs(f, g)), TopCarry(0x8_0000_0000_0000, t));
    ProductCongruent(0x8_0000_0000_0000, 19, f, g);
  }

  // ---------- Field elements in memory ----------

  ghost predicate IsFe(a: array<Word64>) { a.Length == 5 }

  function LimbsOf(a: array<Word64>): Limbs5
    requires IsFe(a)
    reads a
  {
    Limbs5(a[0], a[1], a[2], a[3], a[4])
  }

  /** fe_mul; h may be the same array as f or g or both. */
  method FeMul(h: array<Word64>, f: array<Word64>, g: array<Word64>)
    requires IsFe(h) && IsFe(f) && IsFe(g)
    requires Wide(LimbsOf(f)) && Wide(LimbsOf(g))
    modifies h
    ensures Tight(LimbsOf(h))
    ensures Congruent(PRIME, Value(LimbsOf(h)), old(Value(LimbsOf(f)) * Value(LimbsOf(g))))
  {
    hide MulLimbs, Value;
    var p := MulLimbs(LimbsOf(f), LimbsOf(g));
    MulValue(LimbsOf(f), LimbsOf(g));
    h[0], h[1], h[2], h[3], h[4] := p.x0, p.x1, p.x2, p.x3, p.x4;
    assert LimbsOf(h) == p;
  }

  /** fe_sq */
  method FeSq(h: array<Word64>, f: array<Word64>)
    requires IsFe(h) && IsFe(f) && Wide(LimbsOf(f))
    modifies h
    ensures Tight(LimbsOf(h))
    ensures Congruent(PRIME, Value(LimbsOf(h)), old(Value(LimbsOf(f)) * Value(LimbsOf(f))))
  {
    FeMul(h, f, f);
  }

  // ---------- Subtraction ----------

  /** fe_sub: a bias meant to be a multiple of the prime is added first. */
  function SubLimbs(f: Limbs5, g: Limbs5): Limbs5 {
    Limbs5(W64(f.x0 + 0xf_ffff_ffff_ffda - g.x0), W64(f.x1 + 0x7_ffff_ffff_ffff - g.x1),
           W64(f.x2 + 0x7_ffff_ffff_ffff - g.x2), W64(f.x3 + 0x7_ffff_ffff_ffff - g.x3),
           W64(f.x4 + 0x7_ffff_ffff_ffff - g.x4))
  }

  /** A limb difference wraps at most once. */
  lemma WrapOnce(d: int) returns (k: int)
    requires -0x40_0000_0000_0000 < d < 0x80_0000_0000_0000
    ensures 0 <= k <= 1 && W64(d) == d + k * 0x1_0000_0000_0000_0000
  {
    k := if d < 0 then 1 else 0;
    DivModUnique(d, 0x1_0000_0000_0000_0000, -k, d + k * 0x1_0000_0000_0000_0000);
  }

  /** How far the biased difference is from the true one. */
  lemma SubOffset(f: Limbs5, g: Limbs5, h: Limbs5, k0: int, k1: int, k2: int, k3: int, k4: int)
    requires h.x0 == f.x0 + 0xf_ffff_ffff_ffda - g.x0 + k0 * 0x1_0000_0000_0000_0000
    requires h.x1 == f.x1 + 0x7_ffff_ffff_ffff - g.x1 + k1 * 0x1_0000_0000_0000_0000
    requires h.x2 == f.x2 + 0x7_ffff_ffff_ffff - g.x2 + k2 * 0x1_0000_0000_0000_0000
    requires h.x3 == f.x3 + 0x7_ffff_ffff_ffff - g.x3 + k3 * 0x1_0000_0000_0000_0000
    requires h.x4 == f.x4 + 0x7_ffff_ffff_ffff - g.x4 + k4 * 0x1_0000_0000_0000_0000
    ensures Value(h) - (Value(f) - Value(g))
         == TWO255 + 0x7_ffff_ffff_ffda + 0x1_0000_0000_0000_0000 * Value(Limbs5(k0, k1, k2, k3, k4))
  {
  }

  /** The remainder the bias leaves, whatever wraps. */
  lemma SubResidue(k0: int, k1: int, k2: int, k3: int, k4: int)
    requires 0 <= k0 <= 1 && 0 <= k1 <= 1 && 0 <= k2 <= 1 && 0 <= k3 <= 1 && 0 <= k4 <= 1
    ensures (TWO255 + 0x7_ffff_ffff_ffda + 0x1_0000_0000_0000_0000 * Value(Limbs5(k0, k1, k2, k3, k4))) % PRIME != 0
  {
    var low := 0x7_ffff_ffff_ffed + 0x1_0000_0000_0000_0000 * Value(Limbs5(k0, k1, k2, k3, 0)) + 155648 * k4;
    assert 0 < low < PRIME;
    var all := TWO255 + 0x7_ffff_ffff_ffda + 0x1_0000_0000_0000_0000 * Value(Limbs5(k0, k1, k2, k3, k4));
    assert all == (1 + 8192 * k4) * PRIME + low;
    DivModUnique(all, PRIME, 1 + 8192 * k4, low);
  }

  /**
   fe_sub never represents the difference: the bias is 2^255 + 2^51 - 38, not a multiple of
   2^255 - 19, and no wrapped limb makes up for it.
   */
  lemma SubIsNeverDifference(f: Limbs5, g: Limbs5)
    requires Wide(f) && Wide(g)
    ensures !Congruent(PRIME, Value(SubLimbs(f, g)), Value(f) - Value(g))
  {
    hide Value, W64;
    var k0 := WrapOnce(f.x0 + 0xf_ffff_ffff_ffda - g.x0);
    var k1 := WrapOnce(f.x1 + 0x7_ffff_ffff_ffff - g.x1);
    var k2 := WrapOnce(f.x2 + 0x7_ffff_ffff_ffff - g.x2);
    var k3 := WrapOnce(f.x3 + 0x7_ffff_ffff_ffff - g.x3);
    var k4 := WrapOnce(f.x4 + 0x7_ffff_ffff_ffff - g.x4);
    SubOffset(f, g, SubLimbs(f, g), k0, k1, k2, k3, k4);
    SubResidue(k0, k1, k2, k3, k4);
    if Congruent(PRIME, Value(SubLimbs(f, g)), Value(f) - Value(g)) {
      SameResidue(Value(SubLimbs(f, g)), Value(f) - Value(g));
    }
  }

  lemma SameResidue(x: int, y: int)
    requires Congruent(PRIME, x, y)
    ensures (x - y) % PRIME == 0
  {
    var p := PRIME;
    assert x == x / p * p + x % p && y == y / p * p + y % p;
    assert (x / p - y / p) * p == x / p * p - y / p * p;
    DivModUnique(x - y, p, x / p - y / p, 0);
  }

  // ---------- Encoding ----------

  /** Four 64-bit words, least significant first. */
  datatype Words4 = Words4(w0: Word64, w1: Word64, w2: Word64, w3: Word64)

  function Value4(w: Words4): int {
    w.w0 as int + 0x1_0000_0000_0000_0000 * (w.w1 as int + 0x1_0000_0000_0000_0000 * (
      w.w2 as int + 0x1_0000_0000_0000_0000 * w.w3 as int))
  }

  /** How often p must be subtracted, estimated by adding 19 and carrying to the top. */
  function Excess(t: Limbs5): int
    requires Wide(t)
  {
    var c0 := Shr(W64(t.x0 + 19), 51);
    var c1 := Shr(W64(c0 + t.x1), 51);
    var c2 := Shr(W64(c1 + t.x2), 51);
    var c3 := Shr(W64(c2 + t.x3), 51);
    Shr(W64(c3 + t.x4), 51)
  }

  /** Add 19 c, carry, and drop what leaves the top. */
  function Reduce(t: Limbs5, c: nat): Limbs5
    requires Wide(t)
  {
    var t0 := W64(t.x0 + W64(19 * c));
    var t1 := W64(t.x1 + Shr(t0, 51));
    var t2 := W64(t.x2 + Shr(t1, 51));
    var t3 := W64(t.x3 + Shr(t2, 51));
    var t4 := W64(t.x4 + Shr(t3, 51));
    Limbs5(And(t0, 0x7ffffffffffff), And(t1, 0x7ffffffffffff), And(t2, 0x7ffffffffffff),
           And(t3, 0x7ffffffffffff), And(t4, 0x7ffffffffffff))
  }

  /** A carry of a wide limb. */
  lemma WideCarry(x: int, next: int)
    requires 0 <= x < 0x40_0000_0000_1000 && 0 <= next < 0x40_0000_0000_0000
    ensures W64(x) == x && And(x, 0x7ffffffffffff) == Lo(0x8_0000_0000_0000, x)
    ensures 0 <= Shr(x, 51) == Hi(0x8_0000_0000_0000, x) <= 8
    ensures W64(next + Shr(x, 51)) == next + Hi(0x8_0000_0000_0000, x)
  {
    hide And, Shr;
    Mask51(x);
  }

  lemma ExcessIsTopCarry(t: Limbs5)
    requires Wide(t)
    ensures Excess(t) == TopCarry(0x8_0000_0000_0000, t.(x0 := t.x0 + 19)) && 0 <= Excess(t) <= 8
  {
    hide And, Shr, W64, Hi;
    var d1 := t.x1 + Hi(0x8_0000_0000_0000, t.x0 + 19);
    WideCarry(t.x0 + 19, t.x1);
    var d2 := t.x2 + Hi(0x8_0000_0000_0000, d1);
    WideCarry(d1, t.x2);
    var d3 := t.x3 + Hi(0x8_0000_0000_0000, d2);
    WideCarry(d2, t.x3);
    WideCarry(d3, t.x4);
    WideCarry(t.x4 + Hi(0x8_0000_0000_0000, d3), 0);
  }

  lemma ReduceIsDigits(t: Limbs5, c: nat)
    requires Wide(t) && c <= 8
    ensures Reduce(t, c) == Digits(0x8_0000_0000_0000, t.(x0 := t.x0 + 19 * c))
  {
    hide And, Shr, W64, Hi, Lo;
    var d0 := t.x0 + 19 * c;
    W64Id(19 * c);
    W64Id(d0);
    var d1 := t.x1 + Hi(0x8_0000_0000_0000, d0);
    WideCarry(d0, t.x1);
    var d2 := t.x2 + Hi(0x8_0000_0000_0000, d1);
    WideCarry(d1, t.x2);
    var d3 := t.x3 + Hi(0x8_0000_0000_0000, d2);
    WideCarry(d2, t.x3);
    WideCarry(d3, t.x4);
    WideCarry(t.x4 + Hi(0x8_0000_0000_0000, d3), 0);
  }

  lemma RaiseLimb0(t: Limbs5, n: int)
    ensures Value(t.(x0 := t.x0 + n)) == Value(t) + n
  {
  }

  /** The two passes in numbers: add 19 for every 2^255 in value + 19, modulo 2^255. */
  lemma ReduceValue(t: Limbs5)
    requires Wide(t)
    ensures 0 <= Excess(t) == (Value(t) + 19) / TWO255
    ensures Digital(0x8_0000_0000_0000, Reduce(t, Excess(t)))
    ensures Value(Reduce(t, Excess(t))) == (Value(t) + 19 * Excess(t)) % TWO255
  {
    hide Excess, Reduce, Eval, Pow5, Digits, TopCarry;
    PrimeIsPow5();
    ExcessIsTopCarry(t);
    RaiseLimb0(t, 19);
    DigitsValue(0x8_0000_0000_0000, t.(x0 := t.x0 + 19));
    ReduceIsDigits(t, Excess(t));
    RaiseLimb0(t, 19 * Excess(t));
    DigitsValue(0x8_0000_0000_0000, t.(x0 := t.x0 + 19 * Excess(t)));
  }

  /** In terms of the residue left after removing the estimated multiples of p. */
  lemma ResidueRange(v: int, c: int)
    requires v >= 0 && c == (v + 19) / TWO255 && c <= 8
    ensures (v + 19 * c) % TWO255 == (v - PRIME * c) % TWO255
    ensures 0 <= v - PRIME * c < TWO255 + 19 * 8 && v % PRIME == (v - PRIME * c) % PRIME
  {
    var w := v - PRIME * c;
    assert v + 19 * c == w + TWO255 * c;
    CongruentMultiple(TWO255, v + 19 * c, w, c);
    CongruentMultiple(PRIME, v, w, c);
  }

  /** When counting multiples of 2^255 in value + 19 counts the multiples of p in value. */
  lemma QuotientExactly(v: int)
    requires v >= 0 && v / PRIME <= 9
    ensures v / PRIME == (v + 19) / TWO255 <==> v % PRIME >= 19 * (v / PRIME - 1)
  {
    var q, r := v / PRIME, v % PRIME;
    var s := r - 19 * q + 19;
    assert v + 19 == q * TWO255 + s;
    if s >= 0 {
      DivModUnique(v + 19, TWO255, q, s);
    } else {
      DivModUnique(v + 19, TWO255, q - 1, s + TWO255);
    }
  }

  /**
   When the encoder is canonical: exactly when the remainder of the value is at least 19 for
   every multiple of p in it after the first.  So it is for everything below 2p.
   */
  lemma CanonicalExactly(v: int)
    requires v >= 0 && (v + 19) / TWO255 <= 8
    ensures (v + 19 * ((v + 19) / TWO255)) % TWO255 == v % PRIME <==> v % PRIME >= 19 * (v / PRIME - 1)
    ensures v < 2 * PRIME ==> v % PRIME >= 19 * (v / PRIME - 1)
  {
    var c := (v + 19) / TWO255;
    var w := v - PRIME * c;
    ResidueRange(v, c);
    if w < PRIME {
      DivModUnique(v, PRIME, c, w);
    } else {
      DivModUnique(v, PRIME, c + 1, w - PRIME);
    }
    QuotientExactly(v);
  }

  /** 2p itself is not: the encoder writes p instead of 0. */
  lemma TwicePrimeIsNotCanonical()
    ensures var t := Limbs5(0xF_FFFF_FFFF_FFDA, 0xF_FFFF_FFFF_FFFE, 0xF_FFFF_FFFF_FFFE,
                            0xF_FFFF_FFFF_FFFE, 0xF_FFFF_FFFF_FFFE);
            Wide(t) && Value(t) == 2 * PRIME && Value(Reduce(t, Excess(t))) == PRIME
  {
    var t := Limbs5(0xF_FFFF_FFFF_FFDA, 0xF_FFFF_FFFF_FFFE, 0xF_FFFF_FFFF_FFFE, 0xF_FFFF_FFFF_FFFE, 0xF_FFFF_FFFF_FFFE);
    hide Reduce, Excess;
    ReduceValue(t);
  }

  lemma TightIsSmall(t: Limbs5)
    requires Tight(t)
    ensures Wide(t) && 0 <= Value(t) < 2 * PRIME
  {
  }

  // ---------- Packing into bytes ----------

  function Pack(t: Limbs5): Words4
    requires Digital(0x8_0000_0000_0000, t)
  {
    Words4(W64(Or(t.x0, Shl64(t.x1, 51))), W64(Or(Shr(t.x1, 13), Shl64(t.x2, 38))),
           W64(Or(Shr(t.x2, 26), Shl64(t.x3, 25))), W64(Or(Shr(t.x3, 39), Shl64(t.x4, 12))))
  }

  lemma Pow2Shifts()
    ensures Pow2(12) == 0x1000 && Pow2(13) == 0x2000 && Pow2(25) == 0x200_0000 && Pow2(26) == 0x400_0000
    ensures Pow2(38) == 0x40_0000_0000 && Pow2(39) == 0x80_0000_0000 && Pow2(51) == 0x8_0000_0000_0000
    ensures Pow2(52) == 0x10_0000_0000_0000
  {
    Pow2TwelveThirteen();
    hide Pow2;
    Pow2Consts();
    Pow2Add(13, 12);
    Pow2Add(26, 12);
    Pow2Add(26, 13);
    Pow2Add(26, 26);
  }

  lemma Pow2TwelveThirteen()
    ensures Pow2(12) == 0x1000 && Pow2(13) == 0x2000
  {
  }

  lemma PackWord(j: nat, a: nat, b: nat, pj: nat, pk: nat)
    requires j <= 64 && pj == Pow2(j) && pk == Pow2(64 - j) && a < pj
    ensures W64(Or(a, Shl64(b, j))) == a + pj * (b % pk)
  {
    hide Or, Pow2;
    Pow2Consts();
    OrShifted(64, j, a, b);
  }

  lemma PackSum(t: Limbs5, q1: int, r1: int, q2: int, r2: int, q3: int, r3: int)
    requires t.x1 == 0x2000 * q1 + r1 && t.x2 == 0x400_0000 * q2 + r2 && t.x3 == 0x80_0000_0000 * q3 + r3
    ensures Value(t) == t.x0 + 0x8_0000_0000_0000 * r1 + 0x1_0000_0000_0000_0000 * (
                          q1 + 0x40_0000_0000 * r2 + 0x1_0000_0000_0000_0000 * (
                            q2 + 0x200_0000 * r3 + 0x1_0000_0000_0000_0000 * (q3 + 0x1000 * t.x4)))
  {
  }

  lemma PackWords(t: Limbs5)
    requires Digital(0x8_0000_0000_0000, t)
    ensures Pack(t).w0 == t.x0 + 0x8_0000_0000_0000 * (t.x1 % 0x2000)
    ensures Pack(t).w1 == t.x1 / 0x2000 + 0x40_0000_0000 * (t.x2 % 0x400_0000)
    ensures Pack(t).w2 == t.x2 / 0x400_0000 + 0x200_0000 * (t.x3 % 0x80_0000_0000)
    ensures Pack(t).w3 == t.x3 / 0x80_0000_0000 + 0x1000 * t.x4
  {
    hide Or, Pow2, Shl64;
    Pow2Shifts();
    ShrBound(51, 13, t.x1);
    ShrBound(51, 26, t.x2);
    ShrBound(51, 39, t.x3);
    PackWord(51, t.x0, t.x1, 0x8_0000_0000_0000, 0x2000);
    PackWord(38, Shr(t.x1, 13), t.x2, 0x40_0000_0000, 0x400_0000);
    PackWord(25, Shr(t.x2, 26), t.x3, 0x200_0000, 0x80_0000_0000);
    PackWord(12, Shr(t.x3, 39), t.x4, 0x1000, 0x10_0000_0000_0000);
  }

  lemma PackValue(t: Limbs5)
    requires Digital(0x8_0000_0000_0000, t)
    ensures Value4(Pack(t)) == Value(t)
  {
    hide Pack, Eval;
    PackWords(t);
    PackSum(t, t.x1 / 0x2000, t.x1 % 0x2000, t.x2 / 0x400_0000, t.x2 % 0x400_0000,
            t.x3 / 0x80_0000_0000, t.x3 % 0x80_0000_0000);
  }

  lemma LePut8(w: Word64)
    ensures Le(PutLe(w, 8)) == w
  {
    hide Le, PutLe, Pow2;
    LePut(w, 8);
    Pow2Consts();
  }

  lemma LeWord(a: seq<Byte>, b: seq<Byte>)
    requires |a| == 8
    ensures Le(a + b) == Le(a) + 0x1_0000_0000_0000_0000 * Le(b)
  {
    hide Le, Pow2;
    Pow2Consts();
    LeConcat(a, b);
  }

  function Bytes(w: Words4): (s: seq<Byte>)
    ensures |s| == 32
  {
    PutLe(w.w0, 8) + PutLe(w.w1, 8) + PutLe(w.w2, 8) + PutLe(w.w3, 8)
  }

  lemma BytesValue(w: Words4)
    ensures Le(Bytes(w)) == Value4(w)
  {
    hide Le, PutLe;
    var a, b, c, d := PutLe(w.w0, 8), PutLe(w.w1, 8), PutLe(w.w2, 8), PutLe(w.w3, 8);
    LePut8(w.w0);
    LePut8(w.w1);
    LePut8(w.w2);
    LePut8(w.w3);
    LeWord(c, d);
    LeWord(b, c + d);
    LeWord(a, b + (c + d));
    assert Bytes(w) == a + (b + (c + d));
  }

  /** The inner loops of fe_tobytes: byte i of a word is w >> 8i, truncated. */
  method StoreWord(w: Word64) returns (s: seq<Byte>)
    ensures s == PutLe(w, 8)
  {
    s := [];
    hide PutLe, Pow2;
    PutLeNone(w);
    for i := 0 to 8
      invariant s == PutLe(w, i)
    {
      PutLeAppend(w, i);
      s := s + [Shr(w, 8 * i) % 0x100];
    }
  }

  lemma PutLeNone(w: nat)
    ensures PutLe(w, 0) == []
  {
  }

  /** The inner loops of fe_frombytes: a word assembled by or-ing shifted bytes. */
  method LoadWord(s: seq<Byte>) returns (w: Word64)
    requires |s| == 8
    ensures w == Le(s)
  {
    w := 0;
    assert s[..0] == [];
    hide Le, Or, Pow2, Shl64;
    LeNone();
    for i := 0 to 8
      invariant w == Le(s[..i])
    {
      OrByte(s, i);
      w := Or(w, Shl64(s[i], 8 * i));
    }
    assert s[..8] == s;
  }

  lemma LeNone()
    ensures Le([]) == 0
  {
  }

  lemma OrByte(s: seq<Byte>, i: nat)
    requires i < |s| == 8
    ensures Or(Le(s[..i]), Shl64(s[i], 8 * i)) == Le(s[..i + 1]) < 0x1_0000_0000_0000_0000
  {
    assert Le([s[i]]) == s[i];
    hide Le, Or, Pow2;
    LeBound(s[..i]);
    LeBound(s[..i + 1]);
    Pow2Consts();
    assert s[..i + 1] == s[..i] + [s[i]];
    LeConcat(s[..i], [s[i]]);
    OrShifted(64, 8 * i, Le(s[..i]), s[i]);
    Pow2Mono(8, 64 - 8 * i);
    Pow2Mono(8 * (i + 1), 64);
    DivModUnique(s[i], Pow2(64 - 8 * i), 0, s[i]);
  }

  lemma Pow2Mono(a: nat, b: nat)
    requires a <= b
    ensures Pow2(a) <= Pow2(b)
  {
    Pow2Add(a, b - a);
    hide Pow2;
    MulMono(1, Pow2(b - a), Pow2(a));
  }

  /** fe_tobytes: the canonical little-endian encoding, for every value below 2p. */
  method ToBytes(h: array<Word64>) returns (s: seq<Byte>)
    requires IsFe(h) && Wide(LimbsOf(h))
    ensures |s| == 32
    ensures var v := Value(LimbsOf(h)); Le(s) == (v + 19 * ((v + 19) / TWO255)) % TWO255
    ensures var v := Value(LimbsOf(h)); Le(s) == v % PRIME <==> v % PRIME >= 19 * (v / PRIME - 1)
    ensures Value(LimbsOf(h)) < 2 * PRIME ==> Le(s) == Value(LimbsOf(h)) % PRIME
  {
    hide Excess, Reduce, Pack, Eval, Le, PutLe;
    var t := LimbsOf(h);
    ReduceValue(t);
    var c := Excess(t);
    var u := Reduce(t, c);
    var w := Pack(u);
    PackValue(u);
    BytesValue(w);
    EncodeFacts(t);
    var a := StoreWord(w.w0);
    var b := StoreWord(w.w1);
    var d := StoreWord(w.w2);
    var e := StoreWord(w.w3);
    s := a + b + d + e;
  }

  lemma EncodeFacts(t: Limbs5)
    requires Wide(t)
    ensures var v := Value(t);
            && ((v + 19 * ((v + 19) / TWO255)) % TWO255 == v % PRIME <==> v % PRIME >= 19 * (v / PRIME - 1))
            && (v < 2 * PRIME ==> v % PRIME >= 19 * (v / PRIME - 1))
  {
    hide Excess, Reduce, TopCarry, Value, Digital;
    WideNonNegative(t);
    ReduceValue(t);
    ExcessIsTopCarry(t);
    hide Wide;
    CanonicalExactly(Value(t));
  }

  lemma WideNonNegative(t: Limbs5)
    requires Wide(t)
    ensures Value(t) >= 0
  {
  }

  // ---------- Decoding ----------

  function Unpack(w: Words4): Limbs5 {
    Limbs5(And(w.w0, 0x7ffffffffffff),
           And(W64(Or(Shr(w.w0, 51), Shl64(w.w1, 13))), 0x7ffffffffffff),
           And(W64(Or(Shr(w.w1, 38), Shl64(w.w2, 26))), 0x7ffffffffffff),
           And(W64(Or(Shr(w.w2, 25), Shl64(w.w3, 39))), 0x7ffffffffffff),
           And(Shr(w.w3, 12), 0x7ffffffffffff))
  }

  lemma UnpackLimb(k: nat, lo: Word64, hi: Word64, pk: nat, pj: nat, pm: nat)
    requires 13 <= k <= 64 && pk == Pow2(k) && pj == Pow2(64 - k) && pm == Pow2(k - 13)
    ensures And(W64(Or(Shr(lo, k), W64(hi * pj))), 0x7ffffffffffff) == lo / pk + pj * (hi % pm)
  {
    hide And, Or, Pow2, Shr;
    Pow2Consts();
    var v := Or(Shr(lo, k), W64(hi * pj));
    assert W64(hi * pj) == (hi * Pow2(64 - k)) % Pow2(64);
    hide W64;
    StraddleWord(64, k, lo, hi);
    Straddle(64, k, 51, lo, hi);
    W64Id(v);
    AndMask(v, 51);
  }

  lemma UnpackLimbs(w: Words4)
    ensures Unpack(w).x0 == w.w0 % 0x8_0000_0000_0000
    ensures Unpack(w).x1 == w.w0 / 0x8_0000_0000_0000 + 0x2000 * (w.w1 % 0x40_0000_0000)
    ensures Unpack(w).x2 == w.w1 / 0x40_0000_0000 + 0x400_0000 * (w.w2 % 0x200_0000)
    ensures Unpack(w).x3 == w.w2 / 0x200_0000 + 0x80_0000_0000 * (w.w3 % 0x1000)
    ensures Unpack(w).x4 == w.w3 / 0x1000 % 0x8_0000_0000_0000
  {
    hide And, Or, Pow2;
    Pow2Shifts();
    AndMask(w.w0, 51);
    UnpackLimb(51, w.w0, w.w1, 0x8_0000_0000_0000, 0x2000, 0x40_0000_0000);
    UnpackLimb(38, w.w1, w.w2, 0x40_0000_0000, 0x400_0000, 0x200_0000);
    UnpackLimb(25, w.w2, w.w3, 0x200_0000, 0x80_0000_0000, 0x1000);
    AndMask(Shr(w.w3, 12), 51);
  }

  lemma UnpackSum(x: Limbs5, w: Words4, top: int)
    requires x.x0 == w.w0 % 0x8_0000_0000_0000
    requires x.x1 == w.w0 / 0x8_0000_0000_0000 + 0x2000 * (w.w1 % 0x40_0000_0000)
    requires x.x2 == w.w1 / 0x40_0000_0000 + 0x400_0000 * (w.w2 % 0x200_0000)
    requires x.x3 == w.w2 / 0x200_0000 + 0x80_0000_0000 * (w.w3 % 0x1000)
    requires w.w3 / 0x1000 == x.x4 + 0x8_0000_0000_0000 * top
    ensures Value4(w) == Value(x) + TWO255 * top
  {
  }

  /** The limbs are the digits of the number modulo 2^255. */
  lemma UnpackValue(w: Words4)
    ensures Digital(0x8_0000_0000_0000, Unpack(w))
    ensures Value(Unpack(w)) == Value4(w) % TWO255
  {
    hide Unpack, Eval, Pow5;
    UnpackLimbs(w);
    var top := w.w3 / 0x1000 / 0x8_0000_0000_0000;
    UnpackSum(Unpack(w), w, top);
    PrimeIsPow5();
    DigitalBound(0x8_0000_0000_0000, Unpack(w));
    DivModUnique(Value4(w), TWO255, top, Value(Unpack(w)));
  }

  /** fe_frombytes: the number modulo 2^255, the top bit being ignored. */
  method FromBytes(h: array<Word64>, s: seq<Byte>)
    requires IsFe(h) && |s| == 32
    modifies h
    ensures Tight(LimbsOf(h)) && Value(LimbsOf(h)) == Le(s) % TWO255
  {
    hide Unpack, Eval, Le;
    var lo := LoadWord(s[..8]);
    var hi := LoadWord(s[8..16]);
    var mi1 := LoadWord(s[16..24]);
    var mi2 := LoadWord(s[24..]);
    var w := Words4(lo, hi, mi1, mi2);
    LoadValue(s, w);
    UnpackValue(w);
    var t := Unpack(w);
    h[0], h[1], h[2], h[3], h[4] := t.x0, t.x1, t.x2, t.x3, t.x4;
    assert LimbsOf(h) == t;
  }

  lemma LoadValue(s: seq<Byte>, w: Words4)
    requires |s| == 32
    requires w.w0 == Le(s[..8]) && w.w1 == Le(s[8..16]) && w.w2 == Le(s[16..24]) && w.w3 == Le(s[24..])
    ensures Value4(w) == Le(s)
  {
    hide Le;
    var a, b, c, d := s[..8], s[8..16], s[16..24], s[24..];
    LeWord(c, d);
    LeWord(b, c + d);
    LeWord(a, b + (c + d));
    assert s == a + (b + (c + d));
  }

  // ---------- Multiplication by a small number ----------

  /** Limb i of f, and the carry that reaches it when every limb is multiplied by n. */
  function LimbAt(f: Limbs5, i: nat): int
    requires i < 5
  {
    if i == 0 then f.x0 else if i == 1 then f.x1 else if i == 2 then f.x2 else if i == 3 then f.x3 else f.x4
  }

  function CarryAt(f: Limbs5, n: nat, i: nat): int
    requires i <= 5
  {
    if i == 0 then 0 else Hi(0x8_0000_0000_0000, LimbAt(f, i - 1) * n + CarryAt(f, n, i - 1))
  }

  /** Digit i of the product, before the top carry is folded back. */
  function DigitAt(f: Limbs5, n: nat, i: nat): (d: int)
    requires i < 5
    ensures 0 <= d < 0x8_0000_0000_0000
  {
    Lo(0x8_0000_0000_0000, LimbAt(f, i) * n + CarryAt(f, n, i))
  }

  lemma ScaleLink(f: Limbs5, n: Word64, i: nat)
    requires Wide(f) && i < 5 && 0 <= CarryAt(f, n, i) < 0x10_0000_0000_0000_0000
    ensures 0 <= CarryAt(f, n, i + 1) < 0x10_0000_0000_0000_0000
    ensures var c := W128(CarryAt(f, n, i) + LimbAt(f, i) * n);
            And(W64(c), 0x7ffffffffffff) == DigitAt(f, n, i) && Shr(c, 51) == CarryAt(f, n, i + 1)
  {
    assert CarryAt(f, n, i + 1) == Hi(0x8_0000_0000_0000, LimbAt(f, i) * n + CarryAt(f, n, i));
    hide CarryAt;
    ScaleBound(LimbAt(f, i), n);
    ScaleCarry(LimbAt(f, i) * n, CarryAt(f, n, i));
  }

  lemma ScaleCarry(x: int, carry: int)
    requires 0 <= x < 0x40_0000_0000_0000 * 0x1_0000_0000_0000_0000 && 0 <= carry < 0x10_0000_0000_0000_0000
    ensures var c := W128(carry + x);
            && And(W64(c), 0x7ffffffffffff) == Lo(0x8_0000_0000_0000, x + carry)
            && 0 <= Shr(c, 51) == Hi(0x8_0000_0000_0000, x + carry) < 0x10_0000_0000_0000_0000
  {
    hide And, Shr, W64, W128;
    W128Id(x + carry);
    Mask51(x + carry);
    MaskedWord(x + carry);
  }

  lemma ScaleBound(a: int, n: int)
    requires 0 <= a < 0x40_0000_0000_0000 && 0 <= n < 0x1_0000_0000_0000_0000
    ensures 0 <= a * n < 0x40_0000_0000_0000 * 0x1_0000_0000_0000_0000
  {
    MulMono(a, 0x3F_FFFF_FFFF_FFFF, n);
    MulMono(0, a, n);
  }

  /** The digits and the last carry are those of the product. */
  lemma ScaleDigits(f: Limbs5, n: nat)
    ensures var d, t := Digits(0x8_0000_0000_0000, Times(f, n)), Value(f) * n;
      && d == Limbs5(DigitAt(f, n, 0), DigitAt(f, n, 1), DigitAt(f, n, 2), DigitAt(f, n, 3), DigitAt(f, n, 4))
      && CarryAt(f, n, 5) == t / TWO255 && Value(d) == t % TWO255
  {
    hide Hi, Lo, Eval, Pow5;
    assert CarryAt(f, n, 1) == Hi(0x8_0000_0000_0000, f.x0 * n);
    assert CarryAt(f, n, 2) == Hi(0x8_0000_0000_0000, f.x1 * n + CarryAt(f, n, 1));
    assert CarryAt(f, n, 3) == Hi(0x8_0000_0000_0000, f.x2 * n + CarryAt(f, n, 2));
    assert CarryAt(f, n, 4) == Hi(0x8_0000_0000_0000, f.x3 * n + CarryAt(f, n, 3));
    assert CarryAt(f, n, 5) == Hi(0x8_0000_0000_0000, f.x4 * n + CarryAt(f, n, 4));
    EvalTimes(0x8_0000_0000_0000, f, n);
    DigitsValue(0x8_0000_0000_0000, Times(f, n));
    PrimeIsPow5();
  }

  /** What fe_mul_scalar adds up in the lowest limb: the lowest digit and 19 times the last carry. */
  function Folded(f: Limbs5, n: nat): int { (f.x0 * n) % 0x8_0000_0000_0000 + 19 * (Value(f) * n / TWO255) }

  lemma FoldedWord(h0: int, c: int)
    ensures W64(h0 + W64(W64(c) * 19)) == W64(h0 + 19 * c)
  {
    hide Congruent;
    CongruentMod(0x1_0000_0000_0000_0000, c);
    CongruentRefl(0x1_0000_0000_0000_0000, 19);
    CongruentMul(0x1_0000_0000_0000_0000, W64(c), c, 19, 19);
    CongruentMod(0x1_0000_0000_0000_0000, W64(c) * 19);
    CongruentRefl(0x1_0000_0000_0000_0000, h0);
    CongruentTrans(0x1_0000_0000_0000_0000, W64(W64(c) * 19), W64(c) * 19, c * 19);
    CongruentAdd(0x1_0000_0000_0000_0000, h0, h0, W64(W64(c) * 19), c * 19);
    CongruentIsWord(h0 + W64(W64(c) * 19), h0 + c * 19);
  }

  lemma CongruentIsWord(x: int, y: int)
    requires Congruent(0x1_0000_0000_0000_0000, x, y)
    ensures W64(x) == W64(y)
  {
  }

  /** A difference of 2^64 k is a multiple of the prime only for k = 0, as long as k is small. */
  lemma WrapIsSeen(x: int, y: int, top: int, k: nat)
    requires x == y - PRIME * top - 0x1_0000_0000_0000_0000 * k && k < 0x400
    ensures Congruent(PRIME, x, y) <==> k == 0
  {
    if k == 0 {
      assert x == y + PRIME * -top;
      CongruentMultiple(PRIME, x, y, -top);
    } else if Congruent(PRIME, x, y) {
      var e := CongruentDiff(PRIME, x, y);
      NoSmallMultiple(e + top, 0x1_0000_0000_0000_0000 * k) by { Dist(PRIME, e, top); }
    }
  }

  lemma NoSmallMultiple(e: int, v: int)
    requires PRIME * e == -v && 0 <= v < PRIME
    ensures v == 0
  {
  }

  /** The value the code leaves, whatever wraps. */
  lemma ScaleValue(f: Limbs5, n: nat, w: int)
    requires Folded(f, n) >= 0 && w == W64(Folded(f, n)) && Folded(f, n) < 0x400 * 0x1_0000_0000_0000_0000
    requires DigitAt(f, n, 0) == (f.x0 * n) % 0x8_0000_0000_0000
    ensures var h := Limbs5(Lo(0x8_0000_0000_0000, w), DigitAt(f, n, 1) + Hi(0x8_0000_0000_0000, w),
                            DigitAt(f, n, 2), DigitAt(f, n, 3), DigitAt(f, n, 4));
      Congruent(PRIME, Value(h), Value(f) * n) <==> Folded(f, n) < 0x1_0000_0000_0000_0000
  {
    hide Hi, Lo, Eval, Pow5, DigitAt, CarryAt, Congruent;
    ScaleDigits(f, n);
    var d, t := Digits(0x8_0000_0000_0000, Times(f, n)), Value(f) * n;
    hide Digits;
    EvalRaise(0x8_0000_0000_0000, d, w - d.x0);
    var h := Limbs5(Lo(0x8_0000_0000_0000, w), d.x1 + Hi(0x8_0000_0000_0000, w), d.x2, d.x3, d.x4);
    var top, k := t / TWO255, Folded(f, n) / 0x1_0000_0000_0000_0000;
    assert t == TWO255 * top + t % TWO255;
    assert Value(h) == t - PRIME * top - 0x1_0000_0000_0000_0000 * k;
    WrapIsSeen(Value(h), t, top, k);
  }

  lemma FirstDigit(f: Limbs5, n: nat)
    ensures DigitAt(f, n, 0) == (f.x0 * n) % 0x8_0000_0000_0000
  {
  }

  /** Below 2^56 nothing wraps. */
  lemma SmallScalarFits(f: Limbs5, n: nat)
    requires Wide(f) && n < 0x100_0000_0000_0000
    ensures 0 <= Folded(f, n) < 0x1_0000_0000_0000_0000
  {
    WideValue(f);
    var v := Value(f);
    hide Eval;
    MulMono(0, v, n);
    MulMono(v, 9 * TWO255, n);
    SmallQuotient(v * n);
  }

  lemma SmallQuotient(t: int)
    requires 0 <= t < 9 * TWO255 * 0x100_0000_0000_0000
    ensures 0 <= 19 * (t / TWO255) < 0xAB00_0000_0000_0000
  {
  }

  lemma WideValue(f: Limbs5)
    requires Wide(f)
    ensures 0 <= Value(f) < 9 * TWO255
  {
  }

  /**
   fe_mul_scalar, for every 64-bit n; h may be f.  The result represents the product exactly
   when the lowest limb and 19 times the last carry fit a word together.
   */
  method FeMulScalar(h: array<Word64>, f: array<Word64>, n: Word64)
    requires IsFe(h) && IsFe(f) && Wide(LimbsOf(f))
    modifies h
    ensures Tight(LimbsOf(h))
    ensures Congruent(PRIME, Value(LimbsOf(h)), old(Value(LimbsOf(f))) * n) <==>
      old(Folded(LimbsOf(f), n)) < 0x1_0000_0000_0000_0000
    ensures n < 0x100_0000_0000_0000 ==> Congruent(PRIME, Value(LimbsOf(h)), old(Value(LimbsOf(f))) * n)
  {
    hide And, Shr, W64, W128, Hi, Lo, Eval, CarryAt, DigitAt, Times, Congruent;
    ghost var x := LimbsOf(f);
    var c: nat := 0;
    CarryNone(x, n);
    for i := 0 to 5
      invariant c == CarryAt(x, n, i) < 0x10_0000_0000_0000_0000
      invariant forall k :: i <= k < 5 ==> f[k] == LimbAt(x, k)
      invariant forall k :: 0 <= k < i ==> h[k] == DigitAt(x, n, k)
    {
      ScaleLink(x, n, i);
      c := W128(c + f[i] * n);
      h[i] := And(W64(c), 0x7ffffffffffff);
      c := Shr(c, 51);
    }
    ScaleDigits(x, n);
    FirstDigit(x, n);
    assert Folded(x, n) == h[0] + 19 * c;
    hide Folded;
    FoldedWord(h[0], c);
    ghost var w := W64(Folded(x, n));
    ScaleEnd(w, h[1]);
    ScaleValue(x, n, w);
    if n < 0x100_0000_0000_0000 { SmallScalarFits(x, n); }
    h[0] := W64(h[0] + W64(W64(c) * 19));
    var carry := Shr(h[0], 51);
    h[0] := And(h[0], 0x7ffffffffffff);
    h[1] := W64(h[1] + carry);
  }

  /** A scalar of 64 ones on a full top limb is too much. */
  lemma HugeScalarWraps()
    ensures var f := Limbs5(0, 0, 0, 0, 0x3F_FFFF_FFFF_FFFF);
      Wide(f) && Folded(f, 0xFFFF_FFFF_FFFF_FFFF) >= 0x1_0000_0000_0000_0000
  {
  }

  lemma ScaleEnd(w: Word64, h1: int)
    requires 0 <= h1 < 0x8_0000_0000_0000
    ensures And(w, 0x7ffffffffffff) == Lo(0x8_0000_0000_0000, w) && 0 <= Lo(0x8_0000_0000_0000, w) < 0x8_0000_0000_0000
    ensures 0 <= Shr(w, 51) == Hi(0x8_0000_0000_0000, w) < 0x2000
    ensures W64(h1 + Hi(0x8_0000_0000_0000, w)) == h1 + Hi(0x8_0000_0000_0000, w)
  {
    hide And, Shr, W64;
    Mask51(w);
    W64Id(h1 + Hi(0x8_0000_0000_0000, w));
  }

  lemma CarryNone(f: Limbs5, n: nat)
    ensures CarryAt(f, n, 0) == 0
  {
  }

  // ---------- Inversion ----------

  /** The array holds z^e, with limbs that can be multiplied again. */
  ghost predicate Holds(a: array<Word64>, z: int, e: nat)
    reads a
  {
    IsFe(a) && Wide(LimbsOf(a)) && Congruent(PRIME, Value(LimbsOf(a)), Pow(z, e))
  }

  lemma PowProduct(x: int, y: int, h: int, z: int, m: nat, n: nat)
    requires Congruent(PRIME, x, Pow(z, m)) && Congruent(PRIME, y, Pow(z, n)) && Congruent(PRIME, h, x * y)
    ensures Congruent(PRIME, h, Pow(z, m + n))
  {
    hide Pow;
    CongruentMul(PRIME, x, Pow(z, m), y, Pow(z, n));
    PowAdd(z, m, n);
  }

  /** fe_mul on powers of z adds the exponents. */
  method MulPowers(h: array<Word64>, f: array<Word64>, g: array<Word64>, ghost z: int, ghost m: nat, ghost n: nat)
    requires IsFe(h) && Holds(f, z, m) && Holds(g, z, n)
    modifies h
    ensures Holds(h, z, m + n) && Tight(LimbsOf(h))
  {
    hide Value, Pow;
    ghost var x, y := Value(LimbsOf(f)), Value(LimbsOf(g));
    FeMul(h, f, g);
    PowProduct(x, y, Value(LimbsOf(h)), z, m, n);
  }

  /** e doubled n times. */
  ghost function Doubled(e: nat, n: nat): nat { if n == 0 then e else 2 * Doubled(e, n - 1) }

  /** fe_sq(h, f) followed by n - 1 times fe_sq(h, h): the exponent is doubled n times. */
  method SquareTimes(h: array<Word64>, f: array<Word64>, n: nat, ghost z: int, ghost e: nat)
    requires IsFe(h) && Holds(f, z, e) && n >= 1
    modifies h
    ensures Holds(h, z, Doubled(e, n))
  {
    hide Wide, Congruent, Value, Pow;
    MulPowers(h, f, f, z, e, e);
    var i := 1;
    while i < n
      invariant 1 <= i <= n
      invariant Holds(h, z, Doubled(e, i))
    {
      MulPowers(h, h, h, z, Doubled(e, i), Doubled(e, i));
      i := i + 1;
    }
  }

  /** A run of k one bits, shifted left n places. */
  lemma ShiftOnes(k: nat, n: nat)
    ensures Doubled(Pow2(k) - 1, n) == Pow2(k + n) - Pow2(n)
  {
    if n > 0 { ShiftOnes(k, n - 1); }
  }

  lemma {:induction false} PowOne(z: int)
    ensures Pow(z, 1) == z
  {
    assert Pow(z, 0) == 1;
  }

  lemma FirstPower(z: array<Word64>)
    requires IsFe(z) && Wide(LimbsOf(z))
    ensures Holds(z, Value(LimbsOf(z)), 1)
  {
    PowOne(Value(LimbsOf(z)));
  }

  /** The start of the chain: z^11 in t0 and z^31 in t1. */
  method LowPowers(t0: array<Word64>, t1: array<Word64>, t2: array<Word64>, z: array<Word64>, ghost x: int)
    requires IsFe(t0) && IsFe(t1) && IsFe(t2) && Holds(z, x, 1)
    requires t0 != t1 && t0 != t2 && t1 != t2 && z != t0 && z != t1 && z != t2
    modifies t0, t1, t2
    ensures Holds(t0, x, 11) && Holds(t1, x, 31)
  {
    hide Wide, Congruent, Value, Pow;
    MulPowers(t0, z, z, x, 1, 1);
    MulPowers(t1, t0, t0, x, 2, 2);
    MulPowers(t1, t1, t1, x, 4, 4);
    MulPowers(t1, z, t1, x, 1, 8);
    MulPowers(t0, t0, t1, x, 2, 9);
    MulPowers(t2, t0, t0, x, 11, 11);
    MulPowers(t1, t1, t2, x, 9, 22);
  }

  /** Square `f` n times into h, then multiply by g: 2^k - 1 and 2^n - 1 make 2^(k+n) - 1. */
  method AppendOnes(h: array<Word64>, f: array<Word64>, g: array<Word64>, out: array<Word64>, n: nat,
                    ghost x: int, ghost k: nat)
    requires IsFe(h) && IsFe(out) && n >= 1 && h != g
    requires Holds(f, x, Pow2(k) - 1) && Holds(g, x, Pow2(n) - 1)
    modifies h, out
    ensures Holds(out, x, Pow2(k + n) - 1)
  {
    hide Wide, Congruent, Value, Pow, Doubled, Pow2;
    ShiftOnes(k, n);
    SquareTimes(h, f, n, x, Pow2(k) - 1);
    MulPowers(out, h, g, x, Pow2(k + n) - Pow2(n), Pow2(n) - 1);
  }

  /** The middle of the chain: from 2^5 - 1 to 2^250 - 1, all ones. */
  method LongRun(t1: array<Word64>, t2: array<Word64>, t3: array<Word64>, ghost x: int)
    requires IsFe(t1) && IsFe(t2) && IsFe(t3) && t1 != t2 && t1 != t3 && t2 != t3
    requires Holds(t1, x, Pow2(5) - 1)
    modifies t1, t2, t3
    ensures Holds(t1, x, Pow2(250) - 1)
  {
    hide Holds, Pow2;
    AppendOnes(t2, t1, t1, t1, 5, x, 5);
    AppendOnes(t2, t1, t1, t2, 10, x, 10);
    AppendOnes(t3, t2, t2, t2, 20, x, 20);
    AppendOnes(t2, t2, t1, t1, 10, x, 40);
    AppendOnes(t2, t1, t1, t2, 50, x, 50);
    AppendOnes(t3, t2, t2, t2, 100, x, 100);
    AppendOnes(t2, t2, t1, t1, 50, x, 200);
  }

  lemma OnesExponents()
    ensures Pow2(5) - 1 == 31 && Pow2(255) == TWO255 && Pow2(250) >= 1
  {
    Pow2Five();
    hide Pow2;
    Pow2Consts();
    Pow2Square(51, 102);
    Pow2Square(102, 204);
    Pow2Add(204, 51);
  }

  lemma Pow2Five()
    ensures Pow2(5) == 32
  {
  }

  lemma PowerIsInverse(z: int, y: int)
    requires !Congruent(PRIME, z, 0) && Congruent(PRIME, y, Pow(z, PRIME - 2))
    ensures Congruent(PRIME, z * y, 1)
  {
    hide Pow, IsPrime;
    Prime25519.PIsPrime();
    InverseModPrime(z, PRIME);
    CongruentMul(PRIME, z, z, y, Pow(z, PRIME - 2));
  }

  /**
   fe_invert: z^(2^255 - 21), that is z^(p - 2), by the addition chain of the source; p being
   prime, that is the inverse of every z that is not zero.
   `out` may be `z`: z is last read before `out` is first written.
   */
  method FeInvert(out: array<Word64>, z: array<Word64>)
    requires IsFe(out) && IsFe(z) && Wide(LimbsOf(z))
    modifies out
    ensures Tight(LimbsOf(out))
    ensures Congruent(PRIME, Value(LimbsOf(out)), Pow(old(Value(LimbsOf(z))), PRIME - 2))
    ensures !Congruent(PRIME, old(Value(LimbsOf(z))), 0) ==>
      Congruent(PRIME, old(Value(LimbsOf(z))) * Value(LimbsOf(out)), 1)
  {
    hide Wide, Congruent, Value, Pow, Doubled, Pow2;
    ghost var x := Value(LimbsOf(z));
    var t0, t1, t2, t3 := new Word64[5], new Word64[5], new Word64[5], new Word64[5];
    FirstPower(z);
    OnesExponents();
    LowPowers(t0, t1, t2, z, x);
    LongRun(t1, t2, t3, x);
    ShiftOnes(250, 5);
    SquareTimes(t1, t1, 5, x, Pow2(250) - 1);
    MulPowers(out, t1, t0, x, TWO255 - 32, 11);
    if !Congruent(PRIME, x, 0) { PowerIsInverse(x, Value(LimbsOf(out))); }
  }
}
