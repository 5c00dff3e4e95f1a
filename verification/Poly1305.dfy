/**
 Poly1305 as the C library computes it: five 26-bit limbs in 32-bit words, lazy carries
 and a branch-free final reduction, against section 2.5 of RFC 7539.
 */
module Poly1305 {
  import opened Words
  import opened Limbs

  // ---------- The definition of section 2.5 of RFC 7539 ----------

  /** 2^130 - 5 */
  const PRIME := 0x3_FFFF_FFFF_FFFF_FFFF_FFFF_FFFF_FFFF_FFFB

  const CLAMP := 0x0FFFFFFC0FFFFFFC0FFFFFFC0FFFFFFF

  type Key = k: seq<Byte> | |k| == 32 witness seq(32, _ => 0)

  function ClampedR(key: Key): nat { And(Le(key[..16]), CLAMP) }

  /** The length of the block at the front of a message. */
  function FirstLen(msg: seq<Byte>): nat { if |msg| < 16 then |msg| else 16 }

  /** One accumulator step per 16-byte block, each block with a 1 byte appended. */
  function Absorb(acc: nat, msg: seq<Byte>, r: nat): nat
    decreases |msg|
  {
    if msg == [] then acc
    else
      var n := FirstLen(msg);
      Absorb((acc + Le(msg[..n] + [1])) * r % PRIME, msg[n..], r)
  }

  /** The tag of a message under a one-time key. */
  function Mac(msg: seq<Byte>, key: Key): (tag: seq<Byte>)
    ensures |tag| == 16
  {
    PutLe(Absorb(0, msg, ClampedR(key)) + Le(key[16..]), 16)
  }

  // ---------- The accumulator as a polynomial in r ----------

  function BlockCount(msg: seq<Byte>): nat { (|msg| + 15) / 16 }

  /** c_1 * r^q + c_2 * r^(q-1) + ... + c_q * r over the q blocks of the message. */
  function PowerSum(msg: seq<Byte>, r: nat): nat
    decreases |msg|
  {
    if msg == [] then 0
    else
      var n := FirstLen(msg);
      Le(msg[..n] + [1]) * Pow(r, BlockCount(msg)) + PowerSum(msg[n..], r)
  }

  lemma {:induction false} AbsorbIsPolynomialFrom(acc: nat, msg: seq<Byte>, r: nat)
    ensures Congruent(PRIME, Absorb(acc, msg, r), acc * Pow(r, BlockCount(msg)) + PowerSum(msg, r))
    decreases |msg|
  {
    if msg == [] {
    } else {
      var n := FirstLen(msg);
      var c := Le(msg[..n] + [1]);
      var q := BlockCount(msg[n..]);
      assert BlockCount(msg) == q + 1;
      AbsorbIsPolynomialFrom((acc + c) * r % PRIME, msg[n..], r);
      HornerToPowers(acc, c, r, Pow(r, q), PowerSum(msg[n..], r));
    }
  }

  lemma HornerToPowers(acc: nat, c: nat, r: nat, power: nat, rest: nat)
    ensures Congruent(PRIME, (acc + c) * r % PRIME * power + rest, acc * (r * power) + (c * (r * power) + rest))
  {
    hide Congruent;
    ReduceThenScale((acc + c) * r, power, rest);
    Assoc(acc + c, r, power);
    Dist(r * power, acc, c);
  }

  lemma ReduceThenScale(x: int, power: int, rest: int)
    ensures Congruent(PRIME, x % PRIME * power + rest, x * power + rest)
  {
    hide Congruent;
    CongruentMod(PRIME, x);
    CongruentRefl(PRIME, power);
    CongruentRefl(PRIME, rest);
    CongruentMul(PRIME, x % PRIME, x, power, power);
    CongruentAdd(PRIME, x % PRIME * power, x * power, rest, rest);
  }

  /** Every tag is ((c_1 r^q + ... + c_q r) mod (2^130 - 5) + s) mod 2^128. */
  lemma MacIsPolynomial(msg: seq<Byte>, key: Key)
    ensures Le(Mac(msg, key))
         == (PowerSum(msg, ClampedR(key)) % PRIME + Le(key[16..])) % 0x1_0000_0000_0000_0000_0000_0000_0000_0000
  {
    hide PowerSum, Pow, Le, PutLe, BlockCount, ClampedR;
    var r := ClampedR(key);
    AbsorbIsPolynomialFrom(0, msg, r);
    AbsorbReduced(0, msg, r);
    LePut16(Absorb(0, msg, r) + Le(key[16..]));
    DivModUnique(Absorb(0, msg, r), PRIME, 0, Absorb(0, msg, r));
  }

  lemma LePut16(v: nat)
    ensures Le(PutLe(v, 16)) == v % 0x1_0000_0000_0000_0000_0000_0000_0000_0000
  {
    LePut(v, 16);
    Pow2Consts();
  }

  lemma AbsorbReduced(acc: nat, msg: seq<Byte>, r: nat)
    requires acc < PRIME
    ensures Absorb(acc, msg, r) < PRIME
    decreases |msg|
  {
  }

  /** The accumulator only matters modulo the prime. */
  lemma {:induction false} AbsorbCongruent(a: nat, b: nat, msg: seq<Byte>, r: nat)
    requires Congruent(PRIME, a, b)
    ensures Congruent(PRIME, Absorb(a, msg, r), Absorb(b, msg, r))
  {
    if msg != [] {
      var c := Le(msg[..FirstLen(msg)] + [1]);
      CongruentAdd(PRIME, a, b, c, c);
      CongruentMul(PRIME, a + c, b + c, r, r);
    }
  }

  /** A message may be cut at any block boundary. */
  lemma {:induction false} AbsorbConcat(acc: nat, a: seq<Byte>, b: seq<Byte>, r: nat)
    requires |a| % 16 == 0
    ensures Absorb(acc, a + b, r) == Absorb(Absorb(acc, a, r), b, r)
    decreases |a|
  {
    if a == [] {
      assert a + b == b;
    } else {
      assert (a + b)[..16] == a[..16] && (a + b)[16..] == a[16..] + b;
      AbsorbConcat((acc + Le(a[..16] + [1])) * r % PRIME, a[16..], b, r);
    }
  }

  // ---------- Limbs ----------

  function Value(x: Limbs5): int { Eval(0x400_0000, x) }

  /** Limbs of a clamped r: all below 2^26. */
  ghost predicate Reduced(x: Limbs5) {
    && 0 <= x.x0 < 0x400_0000 && 0 <= x.x1 < 0x400_0000 && 0 <= x.x2 < 0x400_0000
    && 0 <= x.x3 < 0x400_0000 && 0 <= x.x4 < 0x400_0000
  }

  /** What the accumulator keeps between blocks: only limb 1 may exceed 26 bits, by less than 64. */
  ghost predicate Lazy(x: Limbs5) {
    && 0 <= x.x0 < 0x400_0000 && 0 <= x.x1 < 0x400_0000 + 64 && 0 <= x.x2 < 0x400_0000
    && 0 <= x.x3 < 0x400_0000 && 0 <= x.x4 < 0x400_0000
  }

  /** What the accumulator may hold after a block has been added and before it is multiplied. */
  ghost predicate Loaded(x: Limbs5) {
    && 0 <= x.x0 < 0x800_0040 && 0 <= x.x1 < 0x800_0040 && 0 <= x.x2 < 0x800_0040
    && 0 <= x.x3 < 0x800_0040 && 0 <= x.x4 < 0x800_0040
  }

  /** Sixteen bytes as the four little-endian words t0..t3. */
  datatype Words4 = Words4(t0: Word32, t1: Word32, t2: Word32, t3: Word32)

  function Load(data: seq<Byte>): Words4
    requires |data| >= 16
  {
    Words4(Le32(data), Le32(data[4..]), Le32(data[8..]), Le32(data[12..]))
  }

  function Value4(t: Words4): nat {
    t.t0 as int + 0x1_0000_0000 * (t.t1 as int + 0x1_0000_0000 * (t.t2 as int + 0x1_0000_0000 * t.t3 as int))
  }

  lemma LeWord(a: seq<Byte>, b: seq<Byte>)
    requires |a| == 4
    ensures Le(a + b) == Le(a) + 0x1_0000_0000 * Le(b)
  {
    Pow2Consts();
    LeConcat(a, b);
  }

  lemma LoadValue(data: seq<Byte>)
    requires |data| >= 16
    ensures Value4(Load(data)) == Le(data[..16])
  {
    var a, b, c, d := data[..4], data[4..8], data[8..12], data[12..16];
    assert data[4..][..4] == b && data[8..][..4] == c && data[12..][..4] == d;
    LeWord(c, d);
    LeWord(b, c + d);
    LeWord(a, b + (c + d));
    assert data[..16] == a + (b + (c + d));
  }

  /** The five 26-bit slices of a 128-bit number, before masking, as the C code takes them. */
  function Slice1(t: Words4): Word32 { W32(Or(Shr(t.t0, 26), Shl32(t.t1, 6))) }
  function Slice2(t: Words4): Word32 { W32(Or(Shr(t.t1, 20), Shl32(t.t2, 12))) }
  function Slice3(t: Words4): Word32 { W32(Or(Shr(t.t2, 14), Shl32(t.t3, 18))) }

  function Slices(t: Words4): Limbs5 {
    Limbs5(And(t.t0, 0x3ffffff), And(Slice1(t), 0x3ffffff), And(Slice2(t), 0x3ffffff),
           And(Slice3(t), 0x3ffffff), Shr(t.t3, 8))
  }

  lemma Mask26(x: nat)
    ensures And(x, 0x3ffffff) == x % 0x400_0000
  {
    Pow2Consts();
    AndMask(x, 26);
  }

  /** `Straddle` with its powers of two already evaluated. */
  lemma SliceOf(k: nat, lo: Word32, hi: Word32, pk: nat, pj: nat, pm: nat)
    requires 6 <= k <= 32
    requires pk == Pow2(k) && pj == Pow2(32 - k) && pm == Pow2(k - 6)
    ensures W32(Or(Shr(lo, k), W32(hi * pj))) % 0x400_0000 == lo / pk + pj * (hi % pm)
  {
    hide Pow2, Or, Shr;
    Pow2Consts();
    var v := Or(Shr(lo, k), W32(hi * pj));
    assert W32(hi * pj) == (hi * Pow2(32 - k)) % Pow2(32);
    hide W32;
    StraddleWord(32, k, lo, hi);
    Straddle(32, k, 26, lo, hi);
    W32Id(v);
  }

  lemma Pow2Slices()
    ensures Pow2(6) == 0x40 && Pow2(8) == 0x100 && Pow2(12) == 0x1000 && Pow2(14) == 0x4000
    ensures Pow2(18) == 0x4_0000 && Pow2(20) == 0x10_0000 && Pow2(24) == 0x100_0000
    ensures Pow2(26) == 0x400_0000
  {
  }

  lemma SliceExact(t: Words4)
    ensures Slice1(t) % 0x400_0000 == t.t0 / 0x400_0000 + 0x40 * (t.t1 % 0x10_0000)
    ensures Slice2(t) % 0x400_0000 == t.t1 / 0x10_0000 + 0x1000 * (t.t2 % 0x4000)
    ensures Slice3(t) % 0x400_0000 == t.t2 / 0x4000 + 0x4_0000 * (t.t3 % 0x100)
  {
    hide Pow2, Or;
    Pow2Slices();
    SliceOf(26, t.t0, t.t1, 0x400_0000, 0x40, 0x10_0000);
    SliceOf(20, t.t1, t.t2, 0x10_0000, 0x1000, 0x4000);
    SliceOf(14, t.t2, t.t3, 0x4000, 0x4_0000, 0x100);
  }

  /** The slices are the base-2^26 digits of the number. */
  lemma SlicesValue(t: Words4)
    ensures Value(Slices(t)) == Value4(t)
    ensures Reduced(Slices(t)) && Slices(t).x4 < 0x100_0000
  {
    hide And, Or, Pow2;
    SliceExact(t);
    Mask26(t.t0);
    Mask26(Slice1(t));
    Mask26(Slice2(t));
    Mask26(Slice3(t));
    Pow2Slices();
  }

  // ---------- Clamping ----------

  function ClampLimbs(t: Words4): Limbs5 {
    Limbs5(And(t.t0, 0x3ffffff), And(Slice1(t), 0x3ffff03), And(Slice2(t), 0x3ffc0ff),
           And(Slice3(t), 0x3f03fff), And(Shr(t.t3, 8), 0x00fffff))
  }

  lemma AndLow26(x: nat, m: nat)
    requires m < 0x400_0000
    ensures And(x, m) == And(x % 0x400_0000, m)
  {
    Pow2Consts();
    AndLow(x, m, 26);
  }

  lemma AndSplit26(a: nat, b: nat, m: nat, n: nat)
    requires a < 0x400_0000 && m < 0x400_0000
    ensures And(a + 0x400_0000 * b, m + 0x400_0000 * n) == And(a, m) + 0x400_0000 * And(b, n)
  {
    hide And, Pow2;
    Pow2Consts();
    AndSplit(26, a, b, m, n);
  }

  lemma AndPeel(slice: nat, x: nat, m: nat, rest: nat, mrest: nat)
    requires m < 0x400_0000 && x == And(slice, 0x3ffffff)
    ensures And(x + 0x400_0000 * rest, m + 0x400_0000 * mrest) == And(slice, m) + 0x400_0000 * And(rest, mrest)
  {
    hide And;
    Mask26(slice);
    AndLow26(slice, m);
    AndSplit26(x, rest, m, mrest);
  }

  const CLAMP4 := 0x00fffff
  const CLAMP3 := 0x3f03fff + 0x400_0000 * CLAMP4
  const CLAMP2 := 0x3ffc0ff + 0x400_0000 * CLAMP3
  const CLAMP1 := 0x3ffff03 + 0x400_0000 * CLAMP2

  /** The masks are the digits of the 128-bit mask. */
  lemma ClampDigits()
    ensures CLAMP == 0x3ffffff + 0x400_0000 * CLAMP1
  {
  }

  function Masked(s0: nat, s1: nat, s2: nat, s3: nat, x4: nat): Limbs5 {
    Limbs5(And(s0, 0x3ffffff), And(s1, 0x3ffff03), And(s2, 0x3ffc0ff), And(s3, 0x3f03fff), And(x4, CLAMP4))
  }

  lemma ClampPeeled(s0: nat, s1: nat, s2: nat, s3: nat, x: Limbs5)
    requires x.x0 == And(s0, 0x3ffffff) && x.x1 == And(s1, 0x3ffffff) && x.x2 == And(s2, 0x3ffffff)
    requires x.x3 == And(s3, 0x3ffffff) && x.x4 >= 0
    ensures And(Eval(0x400_0000, x), CLAMP)
         == Eval(0x400_0000, Masked(s0, s1, s2, s3, x.x4))
  {
    hide And, Eval;
    ClampDigits();
    var v3 := x.x3 + 0x400_0000 * x.x4;
    var v2 := x.x2 + 0x400_0000 * v3;
    var v1 := x.x1 + 0x400_0000 * v2;
    AndPeel(s3, x.x3, 0x3f03fff, x.x4, CLAMP4);
    AndPeel(s2, x.x2, 0x3ffc0ff, v3, CLAMP3);
    AndPeel(s1, x.x1, 0x3ffff03, v2, CLAMP2);
    AndPeel(s0, x.x0, 0x3ffffff, v1, CLAMP1);
    EvalNested(x);
    EvalNested(Masked(s0, s1, s2, s3, x.x4));
  }

  lemma EvalNested(x: Limbs5)
    ensures Eval(0x400_0000, x)
         == x.x0 + 0x400_0000 * (x.x1 + 0x400_0000 * (x.x2 + 0x400_0000 * (x.x3 + 0x400_0000 * x.x4)))
  {
  }

  /** Masking limb by limb is masking the 128-bit number. */
  lemma ClampValue(t: Words4)
    ensures Reduced(ClampLimbs(t))
    ensures Value(ClampLimbs(t)) == And(Value4(t), CLAMP)
  {
    hide And, Or, Shr, Slice1, Slice2, Slice3, Eval, Value4;
    SlicesValue(t);
    ClampPeeled(t.t0, Slice1(t), Slice2(t), Slice3(t), Slices(t));
  }

  // ---------- Adding a block ----------

  function AddBlock(h: Limbs5, t: Words4, hibit: Word32): Limbs5
    requires Lazy(h)
  {
    Limbs5(W32(h.x0 + And(t.t0, 0x3ffffff)),
           W32(h.x1 + And(Slice1(t), 0x3ffffff)),
           W32(h.x2 + And(Slice2(t), 0x3ffffff)),
           W32(h.x3 + And(Slice3(t), 0x3ffffff)),
           W32(h.x4 + Or(Shr(t.t3, 8), hibit)))
  }

  lemma HighBit(top: nat, hibit: Word32)
    requires top < 0x100_0000 && (hibit == 0 || hibit == 0x100_0000)
    ensures Or(top, hibit) == top + hibit
  {
    hide Or, Pow2;
    Pow2Slices();
    OrDisjoint(24, top, if hibit == 0 then 0 else 1);
  }

  lemma AddBlockValue(h: Limbs5, t: Words4, hibit: Word32)
    requires Lazy(h) && (hibit == 0 || hibit == 0x100_0000)
    ensures Loaded(AddBlock(h, t, hibit))
    ensures Value(AddBlock(h, t, hibit))
         == Value(h) + Value4(t) + (if hibit == 0 then 0 else 0x1_0000_0000_0000_0000_0000_0000_0000_0000)
  {
    hide And, Or, Slice1, Slice2, Slice3, Shr, W32;
    SlicesValue(t);
    var x := Slices(t);
    HighBit(x.x4, hibit);
    var y := x.(x4 := x.x4 + hibit);
    W32Id(h.x0 + y.x0);
    W32Id(h.x1 + y.x1);
    W32Id(h.x2 + y.x2);
    W32Id(h.x3 + y.x3);
    W32Id(h.x4 + y.x4);
    assert AddBlock(h, t, hibit) == Plus(h, y);
  }

  // ---------- One multiplication by r with its carry chain ----------

  lemma PrimeIsPow5()
    ensures Pow5(0x400_0000) - 5 == PRIME
  {
  }

  /** The carry chain, with every conversion to 32 and 64 bits written out. */
  function CarryChain(d: Limbs5): Limbs5
    requires 0 <= d.x0 && 0 <= d.x1 && 0 <= d.x2 && 0 <= d.x3 && 0 <= d.x4
  {
    var c0 := W32(Shr(d.x0, 26)); var h0 := And(W32(d.x0), 0x3ffffff); var d1 := W64(d.x1 + c0);
    var c1 := W32(Shr(d1, 26)); var h1 := And(W32(d1), 0x3ffffff); var d2 := W64(d.x2 + c1);
    var c2 := W32(Shr(d2, 26)); var h2 := And(W32(d2), 0x3ffffff); var d3 := W64(d.x3 + c2);
    var c3 := W32(Shr(d3, 26)); var h3 := And(W32(d3), 0x3ffffff); var d4 := W64(d.x4 + c3);
    var c4 := W32(Shr(d4, 26)); var h4 := And(W32(d4), 0x3ffffff); var h0' := W32(h0 + W32(c4 * 5));
    var c5 := Shr(h0', 26);
    Limbs5(And(h0', 0x3ffffff), W32(h1 + c5), h2, h3, h4)
  }

  lemma MaskedWord(d: nat)
    ensures And(W32(d), 0x3ffffff) == d % 0x400_0000
    ensures Shr(d, 26) == d / 0x400_0000
  {
    hide And, Pow2;
    Mask26(W32(d));
    Pow2Consts();
    ModMod(d, 26, 32);
  }

  /** d_k bounds under which no conversion of the chain loses a bit. */
  ghost predicate ChainFits(d: Limbs5) {
    && 0 <= d.x0 < 0x320_0032_0000_0000 && 0 <= d.x1 < 0x320_0032_0000_0000
    && 0 <= d.x2 < 0x320_0032_0000_0000 && 0 <= d.x3 < 0x320_0032_0000_0000
    && 0 <= d.x4 < 0xA0_000A_0000_0000
  }

  /** One link of the chain: nothing is lost. */
  lemma ChainLink(d: nat, next: nat)
    requires d < 0x320_0033_0000_0000 && next < 0x320_0032_0000_0000
    ensures And(W32(d), 0x3ffffff) == Lo(0x400_0000, d)
    ensures 0 <= W32(Shr(d, 26)) == Hi(0x400_0000, d) < 0xC800_1000
    ensures W64(next + W32(Shr(d, 26))) == next + Hi(0x400_0000, d)
  {
    hide And, Shr, W32, W64;
    MaskedWord(d);
    W32Id(Shr(d, 26));
    W64Id(next + Hi(0x400_0000, d));
  }

  lemma ChainIsPlain(d: Limbs5)
    requires ChainFits(d)
    ensures CarryChain(d) == Chain(0x400_0000, 5, d)
    ensures Lazy(Chain(0x400_0000, 5, d))
  {
    hide And, Shr, W32, W64, Hi, Lo;
    var d1 := d.x1 + Hi(0x400_0000, d.x0);
    ChainLink(d.x0, d.x1); LoRange(0x400_0000, d.x0);
    var d2 := d.x2 + Hi(0x400_0000, d1);
    ChainLink(d1, d.x2); LoRange(0x400_0000, d1);
    var d3 := d.x3 + Hi(0x400_0000, d2);
    ChainLink(d2, d.x3); LoRange(0x400_0000, d2);
    var d4 := d.x4 + Hi(0x400_0000, d3);
    ChainLink(d3, d.x4); LoRange(0x400_0000, d3);
    ChainLink(d4, 0); HiLo(0x400_0000, d4);
    FoldLink(Lo(0x400_0000, d.x0), Hi(0x400_0000, d4), Lo(0x400_0000, d1));
  }

  /** The top carry comes back five-fold into limb 0, and limb 0 carries into limb 1. */
  lemma FoldLink(h0: int, c4: int, h1: int)
    requires 0 <= h0 < 0x400_0000 && 0 <= c4 < 0x2800_1000 && 0 <= h1 < 0x400_0000
    ensures W32(h0 + W32(c4 * 5)) == h0 + c4 * 5
    ensures And(h0 + c4 * 5, 0x3ffffff) == Lo(0x400_0000, h0 + c4 * 5)
    ensures Shr(h0 + c4 * 5, 26) == Hi(0x400_0000, h0 + c4 * 5) < 64
    ensures W32(h1 + Hi(0x400_0000, h0 + c4 * 5)) == h1 + Hi(0x400_0000, h0 + c4 * 5)
  {
    hide And, Shr;
    Mask26(h0 + c4 * 5);
    MaskedWord(h0 + c4 * 5);
  }

  /** The chain keeps the value, up to a multiple of the prime, and restores the lazy bounds. */
  lemma CarryChainValue(d: Limbs5)
    requires ChainFits(d)
    ensures Lazy(CarryChain(d))
    ensures Congruent(PRIME, Value(CarryChain(d)), Value(d))
  {
    hide CarryChain, Chain, Eval, Pow5, TopCarry;
    ChainIsPlain(d);
    ChainValue(0x400_0000, 5, d);
    PrimeIsPow5();
    CongruentMultiple(PRIME, Value(d), Value(Chain(0x400_0000, 5, d)), TopCarry(0x400_0000, d));
  }

  function Multiply(h: Limbs5, r: Limbs5): Limbs5 {
    var s1, s2, s3, s4 := W32(r.x1 * 5), W32(r.x2 * 5), W32(r.x3 * 5), W32(r.x4 * 5);
    CarryChain(Limbs5(
      W64(h.x0 * r.x0 + h.x1 * s4 + h.x2 * s3 + h.x3 * s2 + h.x4 * s1),
      W64(h.x0 * r.x1 + h.x1 * r.x0 + h.x2 * s4 + h.x3 * s3 + h.x4 * s2),
      W64(h.x0 * r.x2 + h.x1 * r.x1 + h.x2 * r.x0 + h.x3 * s4 + h.x4 * s3),
      W64(h.x0 * r.x3 + h.x1 * r.x2 + h.x2 * r.x1 + h.x3 * r.x0 + h.x4 * s4),
      W64(h.x0 * r.x4 + h.x1 * r.x3 + h.x2 * r.x2 + h.x3 * r.x1 + h.x4 * r.x0)))
  }

  lemma DotBound(a: Limbs5, b0: int, b1: int, b2: int, b3: int, b4: int, m: int)
    requires Loaded(a)
    requires 0 <= b0 <= m && 0 <= b1 <= m && 0 <= b2 <= m && 0 <= b3 <= m && 0 <= b4 <= m
    ensures 0 <= a.x0 * b0 + a.x1 * b1 + a.x2 * b2 + a.x3 * b3 + a.x4 * b4 <= 5 * 0x800_003F * m
  {
    TermBound(a.x0, b0, m);
    TermBound(a.x1, b1, m);
    TermBound(a.x2, b2, m);
    TermBound(a.x3, b3, m);
    TermBound(a.x4, b4, m);
  }

  lemma TermBound(a: int, b: int, m: int)
    requires 0 <= a <= 0x800_003F && 0 <= b <= m
    ensures 0 <= a * b <= 0x800_003F * m
  {
    MulMono(a, 0x800_003F, b);
    MulMono(0, a, b);
  }

  /** No word of the five products overflows, so the 64-bit sums are the exact ones. */
  lemma ProductsFit(h: Limbs5, r: Limbs5)
    requires Loaded(h) && Reduced(r)
    ensures ChainFits(Product(5, h, r))
  {
    var s1, s2, s3, s4 := r.x1 * 5, r.x2 * 5, r.x3 * 5, r.x4 * 5;
    DotBound(h, r.x0, s4, s3, s2, s1, 0x13FF_FFFB);
    DotBound(h, r.x1, r.x0, s4, s3, s2, 0x13FF_FFFB);
    DotBound(h, r.x2, r.x1, r.x0, s4, s3, 0x13FF_FFFB);
    DotBound(h, r.x3, r.x2, r.x1, r.x0, s4, 0x13FF_FFFB);
    DotBound(h, r.x4, r.x3, r.x2, r.x1, r.x0, 0x3FF_FFFF);
  }

  lemma MultiplyIsChain(h: Limbs5, r: Limbs5)
    requires Reduced(r) && ChainFits(Product(5, h, r))
    ensures Multiply(h, r) == CarryChain(Product(5, h, r))
  {
    hide CarryChain, W32, W64;
    var d := Product(5, h, r);
    W32Id(r.x1 * 5);
    W32Id(r.x2 * 5);
    W32Id(r.x3 * 5);
    W32Id(r.x4 * 5);
    W64Id(d.x0);
    W64Id(d.x1);
    W64Id(d.x2);
    W64Id(d.x3);
    W64Id(d.x4);
  }

  /** Multiplication by r: no word overflows, the bounds come back, the value is the product mod the prime. */
  lemma MultiplyValue(h: Limbs5, r: Limbs5)
    requires Loaded(h) && Reduced(r)
    ensures Lazy(Multiply(h, r))
    ensures Congruent(PRIME, Value(Multiply(h, r)), Value(h) * Value(r))
  {
    hide Multiply, CarryChain, Product, Pow5, Eval;
    ProductsFit(h, r);
    MultiplyIsChain(h, r);
    CarryChainValue(Product(5, h, r));
    PrimeIsPow5();
    ProductCongruent(0x400_0000, 5, h, r);
  }

  // ---------- The final reduction ----------

  /** One more pass of carries, this time from limb 1 up and around. */
  function FullCarry(h: Limbs5): Limbs5
    requires Lazy(h)
  {
    var h1 := And(h.x1, 0x3ffffff); var h2' := W32(h.x2 + Shr(h.x1, 26));
    var h2 := And(h2', 0x3ffffff); var h3' := W32(h.x3 + Shr(h2', 26));
    var h3 := And(h3', 0x3ffffff); var h4' := W32(h.x4 + Shr(h3', 26));
    var h4 := And(h4', 0x3ffffff); var h0' := W32(h.x0 + W32(Shr(h4', 26) * 5));
    Limbs5(And(h0', 0x3ffffff), W32(h1 + Shr(h0', 26)), h2, h3, h4)
  }

  lemma MaskShift(x: nat)
    ensures And(x, 0x3ffffff) == Lo(0x400_0000, x) && Shr(x, 26) == Hi(0x400_0000, x)
  {
    hide And, Pow2;
    Mask26(x);
    Pow2Consts();
  }

  /** A carry out of a limb that is at most one over: it is 0 or 1. */
  lemma SmallCarry(x: nat, next: nat)
    requires x < 0x800_0000 && next < 0x400_0000
    ensures And(x, 0x3ffffff) == Lo(0x400_0000, x) && Shr(x, 26) == Hi(0x400_0000, x) && 0 <= Hi(0x400_0000, x) <= 1
    ensures W32(next + Shr(x, 26)) == next + Hi(0x400_0000, x)
    ensures W32(next + W32(Shr(x, 26) * 5)) == next + Hi(0x400_0000, x) * 5
    ensures Hi(0x400_0000, x) == 0 <==> x < 0x400_0000
  {
    hide And, Shr;
    MaskShift(x);
  }

  function PlainFullCarry(h: Limbs5): Limbs5 {
    var h2 := h.x2 + Hi(0x400_0000, h.x1);
    var h3 := h.x3 + Hi(0x400_0000, h2);
    var h4 := h.x4 + Hi(0x400_0000, h3);
    var h0 := h.x0 + Hi(0x400_0000, h4) * 5;
    Limbs5(Lo(0x400_0000, h0), Lo(0x400_0000, h.x1) + Hi(0x400_0000, h0),
           Lo(0x400_0000, h2), Lo(0x400_0000, h3), Lo(0x400_0000, h4))
  }

  lemma FullCarryIsPlain(h: Limbs5)
    requires Lazy(h)
    ensures FullCarry(h) == PlainFullCarry(h)
  {
    hide And, Shr, W32, Hi, Lo;
    var h2 := h.x2 + Hi(0x400_0000, h.x1);
    SmallCarry(h.x1, h.x2);
    var h3 := h.x3 + Hi(0x400_0000, h2);
    SmallCarry(h2, h.x3);
    var h4 := h.x4 + Hi(0x400_0000, h3);
    SmallCarry(h3, h.x4);
    var h0 := h.x0 + Hi(0x400_0000, h4) * 5;
    SmallCarry(h4, h.x0);
    LoRange(0x400_0000, h.x1);
    SmallCarry(h0, Lo(0x400_0000, h.x1));
  }

  /** The carry that leaves limb 0 cannot overflow limb 1: it only exists if limb 1 was just emptied. */
  lemma PlainFullCarryReduced(h: Limbs5)
    requires Lazy(h)
    ensures Reduced(PlainFullCarry(h))
  {
    hide Hi, Lo;
    var h2 := h.x2 + Hi(0x400_0000, h.x1);
    HiLo(0x400_0000, h.x1);
    var h3 := h.x3 + Hi(0x400_0000, h2);
    HiLo(0x400_0000, h2);
    var h4 := h.x4 + Hi(0x400_0000, h3);
    HiLo(0x400_0000, h3);
    HiLo(0x400_0000, h4);
    HiLo(0x400_0000, h.x0 + Hi(0x400_0000, h4) * 5);
  }

  /** The carry out of limb 4. */
  function LastCarry(h: Limbs5): int {
    Hi(0x400_0000, h.x4 + Hi(0x400_0000, h.x3 + Hi(0x400_0000, h.x2 + Hi(0x400_0000, h.x1))))
  }

  lemma PlainFullCarryValue(h: Limbs5)
    ensures Value(h) == Value(PlainFullCarry(h)) + PRIME * LastCarry(h)
  {
    hide Hi, Lo;
    var h2 := h.x2 + Hi(0x400_0000, h.x1);
    var h3 := h.x3 + Hi(0x400_0000, h2);
    var h4 := h.x4 + Hi(0x400_0000, h3);
    HiLo(0x400_0000, h.x1);
    HiLo(0x400_0000, h2);
    HiLo(0x400_0000, h3);
    HiLo(0x400_0000, h4);
    HiLo(0x400_0000, h.x0 + Hi(0x400_0000, h4) * 5);
  }

  /** After the pass every limb is below 2^26 and the residue is unchanged. */
  lemma FullCarryValue(h: Limbs5)
    requires Lazy(h)
    ensures Reduced(FullCarry(h))
    ensures Congruent(PRIME, Value(FullCarry(h)), Value(h))
  {
    hide FullCarry, PlainFullCarry, Eval, LastCarry;
    FullCarryIsPlain(h);
    PlainFullCarryReduced(h);
    PlainFullCarryValue(h);
    CongruentMultiple(PRIME, Value(h), Value(FullCarry(h)), LastCarry(h));
  }

  /** h - p, with the borrow left as a wrapped top limb. */
  function MinusPrime(h: Limbs5): Limbs5
    requires Reduced(h)
  {
    var g0 := W32(h.x0 + 5);
    var g1 := W32(h.x1 + Shr(g0, 26));
    var g2 := W32(h.x2 + Shr(g1, 26));
    var g3 := W32(h.x3 + Shr(g2, 26));
    var g4 := W32(h.x4 + Shr(g3, 26) - 0x400_0000);
    Limbs5(And(g0, 0x3ffffff), And(g1, 0x3ffffff), And(g2, 0x3ffffff), And(g3, 0x3ffffff), g4)
  }

  ghost predicate AllWords(x: Limbs5) {
    && 0 <= x.x0 < 0x1_0000_0000 && 0 <= x.x1 < 0x1_0000_0000 && 0 <= x.x2 < 0x1_0000_0000
    && 0 <= x.x3 < 0x1_0000_0000 && 0 <= x.x4 < 0x1_0000_0000
  }

  /** Keep g or h by masks, without branching on the secret value. */
  function Choose(h: Limbs5, g: Limbs5): Limbs5
    requires AllWords(h) && AllWords(g)
  {
    var mask := W32(Shr(g.x4, 31) - 1);
    var keep := W32(0xFFFF_FFFF - mask);
    Limbs5(Or(And(h.x0, keep), And(g.x0, mask)), Or(And(h.x1, keep), And(g.x1, mask)),
           Or(And(h.x2, keep), And(g.x2, mask)), Or(And(h.x3, keep), And(g.x3, mask)),
           Or(And(h.x4, keep), And(g.x4, mask)))
  }

  lemma MaskAll(x: Word32)
    ensures And(x, 0xFFFF_FFFF) == x && And(x, 0) == 0 && Or(x, 0) == x && Or(0, x) == x
  {
    hide And, Or, Pow2;
    Pow2Consts();
    AndMask(x, 32);
    AndZero(x);
    OrNeutral(x);
  }

  lemma OrNeutral(x: nat)
    ensures Or(x, 0) == x && Or(0, x) == x
  {
  }

  lemma SignBit(g: Word32)
    ensures Shr(g, 31) == if g < 0x8000_0000 then 0 else 1
  {
    hide Pow2;
    Pow2Consts();
    Pow2Add(31, 1);
    Pow2Small();
  }

  lemma ChooseIsChoice(h: Limbs5, g: Limbs5)
    requires AllWords(h) && AllWords(g)
    ensures Choose(h, g) == if g.x4 < 0x8000_0000 then g else h
  {
    hide And, Or, Shr;
    SignBit(g.x4);
    MaskAll(h.x0); MaskAll(g.x0);
    MaskAll(h.x1); MaskAll(g.x1);
    MaskAll(h.x2); MaskAll(g.x2);
    MaskAll(h.x3); MaskAll(g.x3);
    MaskAll(h.x4); MaskAll(g.x4);
  }

  /** h + 5 in digits; the top digit is the one before the borrow is taken. */
  function PlusFive(h: Limbs5): Limbs5 {
    var g1 := h.x1 + Hi(0x400_0000, h.x0 + 5);
    var g2 := h.x2 + Hi(0x400_0000, g1);
    var g3 := h.x3 + Hi(0x400_0000, g2);
    Limbs5(Lo(0x400_0000, h.x0 + 5), Lo(0x400_0000, g1), Lo(0x400_0000, g2), Lo(0x400_0000, g3),
           h.x4 + Hi(0x400_0000, g3))
  }

  lemma PlusFiveValue(h: Limbs5)
    ensures Value(PlusFive(h)) == Value(h) + 5
  {
    hide Hi, Lo;
    var g := h.(x0 := h.x0 + 5);
    ChainDigits(0x400_0000, g);
    HiLo(0x400_0000, PlusFive(h).x4);
  }

  lemma PlusFiveBounds(h: Limbs5)
    requires Reduced(h)
    ensures Reduced(PlusFive(h).(x4 := 0)) && 0 <= PlusFive(h).x4 <= 0x400_0000
  {
    hide Hi, Lo;
    var g1 := h.x1 + Hi(0x400_0000, h.x0 + 5);
    HiLo(0x400_0000, h.x0 + 5);
    var g2 := h.x2 + Hi(0x400_0000, g1);
    HiLo(0x400_0000, g1);
    var g3 := h.x3 + Hi(0x400_0000, g2);
    HiLo(0x400_0000, g2);
    HiLo(0x400_0000, g3);
  }

  lemma MinusPrimeIsPlusFive(h: Limbs5)
    requires Reduced(h)
    ensures var g := PlusFive(h); MinusPrime(h) == g.(x4 := W32(g.x4 - 0x400_0000))
  {
    hide And, Shr, Hi, Lo, W32;
    var g1 := h.x1 + Hi(0x400_0000, h.x0 + 5);
    W32Id(h.x0 + 5);
    SmallCarry(h.x0 + 5, h.x1); HiLo(0x400_0000, h.x0 + 5);
    var g2 := h.x2 + Hi(0x400_0000, g1);
    SmallCarry(g1, h.x2); HiLo(0x400_0000, g1);
    var g3 := h.x3 + Hi(0x400_0000, g2);
    SmallCarry(g2, h.x3); HiLo(0x400_0000, g2);
    SmallCarry(g3, h.x4); HiLo(0x400_0000, g3);
  }

  lemma MinusPrimeValue(h: Limbs5)
    requires Reduced(h)
    ensures AllWords(MinusPrime(h))
    ensures MinusPrime(h).x4 >= 0x8000_0000 ==> Value(h) < PRIME
    ensures MinusPrime(h).x4 < 0x8000_0000 ==>
              Reduced(MinusPrime(h)) && Value(h) == Value(MinusPrime(h)) + PRIME && Value(MinusPrime(h)) < PRIME
  {
    hide MinusPrime, PlusFive, W32, Eval;
    MinusPrimeIsPlusFive(h);
    PlusFiveValue(h);
    PlusFiveBounds(h);
    var g := PlusFive(h);
    TopLimbSign(g.x4);
    LimbsBelow(g);
    TopLimbMoves(g);
    LimbsBelow(h);
  }

  /** The top limb is negative, as a signed word, exactly when h + 5 does not reach 2^130. */
  lemma TopLimbSign(x: int)
    requires 0 <= x <= 0x400_0000
    ensures if x < 0x400_0000 then 0x8000_0000 <= W32(x - 0x400_0000) < 0x1_0000_0000 else W32(x - 0x400_0000) == 0
  {
  }

  /** What the top limb says about the value. */
  lemma LimbsBelow(g: Limbs5)
    requires Reduced(g.(x4 := 0)) && 0 <= g.x4 <= 0x400_0000
    ensures Value(g) < PRIME + 5 <==> g.x4 < 0x400_0000
    ensures Value(g) < PRIME + 5 + 0x400_0000 * 0x400_0000 * 0x400_0000 * 0x400_0000
  {
  }

  lemma TopLimbMoves(g: Limbs5)
    ensures Value(g.(x4 := 0)) == Value(g) - 0x400_0000 * 0x400_0000 * 0x400_0000 * 0x400_0000 * g.x4
  {
  }

  /** The selection picks the canonical residue. */
  lemma SelectValue(h: Limbs5)
    requires Reduced(h)
    ensures AllWords(MinusPrime(h))
    ensures Reduced(Choose(h, MinusPrime(h)))
    ensures Value(Choose(h, MinusPrime(h))) == Value(h) % PRIME
  {
    hide MinusPrime, Choose;
    var g := MinusPrime(h);
    MinusPrimeValue(h);
    ChooseIsChoice(h, g);
    if g.x4 < 0x8000_0000 {
      DivModUnique(Value(h), PRIME, 1, Value(g));
    } else {
      DivModUnique(Value(h), PRIME, 0, Value(h));
    }
  }

  // ---------- Packing and adding s ----------

  function Pack(h: Limbs5): Words4
    requires Reduced(h)
  {
    Words4(W32(Or(h.x0, Shl32(h.x1, 26))), W32(Or(Shr(h.x1, 6), Shl32(h.x2, 20))),
           W32(Or(Shr(h.x2, 12), Shl32(h.x3, 14))), W32(Or(Shr(h.x3, 18), Shl32(h.x4, 8))))
  }

  lemma PackWord(j: nat, a: nat, b: nat, pj: nat, pk: nat)
    requires j <= 32 && pj == Pow2(j) && pk == Pow2(32 - j) && a < pj
    ensures W32(Or(a, Shl32(b, j))) == a + pj * (b % pk)
  {
    hide Or, Pow2;
    Pow2Consts();
    OrShifted(32, j, a, b);
  }

  lemma PackSum(h: Limbs5, q1: int, r1: int, q2: int, r2: int, q3: int, r3: int, q4: int, r4: int)
    requires h.x1 == 0x40 * q1 + r1 && h.x2 == 0x1000 * q2 + r2
    requires h.x3 == 0x4_0000 * q3 + r3 && h.x4 == 0x100_0000 * q4 + r4
    ensures Value(h) == h.x0 + 0x400_0000 * r1 + 0x1_0000_0000 * (q1 + 0x10_0000 * r2 + 0x1_0000_0000 * (
                          q2 + 0x4000 * r3 + 0x1_0000_0000 * (q3 + 0x100 * r4)))
                        + 0x1_0000_0000_0000_0000_0000_0000_0000_0000 * q4
  {
  }

  lemma PackWords(h: Limbs5)
    requires Reduced(h)
    ensures Pack(h).t0 == h.x0 + 0x400_0000 * (h.x1 % 0x40)
    ensures Pack(h).t1 == h.x1 / 0x40 + 0x10_0000 * (h.x2 % 0x1000)
    ensures Pack(h).t2 == h.x2 / 0x1000 + 0x4000 * (h.x3 % 0x4_0000)
    ensures Pack(h).t3 == h.x3 / 0x4_0000 + 0x100 * (h.x4 % 0x100_0000)
  {
    hide Or, Pow2, Shl32;
    Pow2Slices();
    PackWord(26, h.x0, h.x1, 0x400_0000, 0x40);
    PackWord(20, Shr(h.x1, 6), h.x2, 0x10_0000, 0x1000);
    PackWord(14, Shr(h.x2, 12), h.x3, 0x4000, 0x4_0000);
    PackWord(8, Shr(h.x3, 18), h.x4, 0x100, 0x100_0000);
  }

  lemma Value4Bound(t: Words4)
    ensures 0 <= Value4(t) < 0x1_0000_0000_0000_0000_0000_0000_0000_0000
  {
  }

  /** Packing drops nothing but the two bits above 2^128. */
  lemma PackValue(h: Limbs5)
    requires Reduced(h)
    ensures Value4(Pack(h)) == Value(h) % 0x1_0000_0000_0000_0000_0000_0000_0000_0000
  {
    hide Pack, Eval;
    PackWords(h);
    Value4Bound(Pack(h));
    PackSum(h, h.x1 / 0x40, h.x1 % 0x40, h.x2 / 0x1000, h.x2 % 0x1000,
            h.x3 / 0x4_0000, h.x3 % 0x4_0000, h.x4 / 0x100_0000, h.x4 % 0x100_0000);
    DivModUnique(Value(h), 0x1_0000_0000_0000_0000_0000_0000_0000_0000, h.x4 / 0x100_0000, Value4(Pack(h)));
  }

  function AddPad(t: Words4, pad: Words4): Words4 {
    var f0 := W64(t.t0 as int + pad.t0 as int);
    var f1 := W64(t.t1 as int + pad.t1 as int + Shr(f0, 32));
    var f2 := W64(t.t2 as int + pad.t2 as int + Shr(f1, 32));
    var f3 := W64(t.t3 as int + pad.t3 as int + Shr(f2, 32));
    Words4(W32(f0), W32(f1), W32(f2), W32(f3))
  }

  lemma CarryWord(f: int)
    requires 0 <= f < 0x2_0000_0000
    ensures W64(f) == f == W32(f) + 0x1_0000_0000 * Shr(f, 32) && 0 <= Shr(f, 32) <= 1
  {
    hide Pow2;
    Pow2Consts();
  }

  /** Addition modulo 2^128, a word at a time. */
  lemma AddPadValue(t: Words4, pad: Words4)
    ensures Value4(AddPad(t, pad)) == (Value4(t) + Value4(pad)) % 0x1_0000_0000_0000_0000_0000_0000_0000_0000
  {
    hide Shr, W32, W64;
    var f0 := t.t0 as int + pad.t0 as int;
    CarryWord(f0);
    var f1 := t.t1 as int + pad.t1 as int + Shr(f0, 32);
    CarryWord(f1);
    var f2 := t.t2 as int + pad.t2 as int + Shr(f1, 32);
    CarryWord(f2);
    var f3 := t.t3 as int + pad.t3 as int + Shr(f2, 32);
    CarryWord(f3);
    Value4Bound(AddPad(t, pad));
    DivModUnique(Value4(t) + Value4(pad), 0x1_0000_0000_0000_0000_0000_0000_0000_0000,
                 Shr(f3, 32), Value4(AddPad(t, pad)));
  }

  function Bytes(t: Words4): (s: seq<Byte>)
    ensures |s| == 16
  {
    PutLe(t.t0, 4) + PutLe(t.t1, 4) + PutLe(t.t2, 4) + PutLe(t.t3, 4)
  }

  lemma LePut4(w: Word32)
    ensures Le(PutLe(w, 4)) == w
  {
    hide Le, PutLe, Pow2;
    LePut(w, 4);
    Pow2Consts();
  }

  lemma BytesValue(t: Words4)
    ensures Le(Bytes(t)) == Value4(t)
  {
    hide Le, PutLe;
    var a, b, c, d := PutLe(t.t0, 4), PutLe(t.t1, 4), PutLe(t.t2, 4), PutLe(t.t3, 4);
    LePut4(t.t0);
    LePut4(t.t1);
    LePut4(t.t2);
    LePut4(t.t3);
    LeWord(c, d);
    LeWord(b, c + d);
    LeWord(a, b + (c + d));
    assert Bytes(t) == a + (b + (c + d));
  }

  // ---------- The running state ----------

  /** What `Blocks` adds for each whole 16-byte block: its bytes and the high bit. */
  function AbsorbBlocks(acc: nat, data: seq<Byte>, high: nat, r: nat): nat
    decreases |data|
  {
    if |data| < 16 then acc
    else AbsorbBlocks((acc + Le(data[..16]) + high) * r % PRIME, data[16..], high, r)
  }

  lemma AbsorbBlocksShort(acc: nat, data: seq<Byte>, high: nat, r: nat)
    requires |data| < 16
    ensures AbsorbBlocks(acc, data, high, r) == acc
  {
  }

  lemma {:induction false} AbsorbBlocksCongruent(a: nat, b: nat, data: seq<Byte>, high: nat, r: nat)
    requires Congruent(PRIME, a, b)
    ensures Congruent(PRIME, AbsorbBlocks(a, data, high, r), AbsorbBlocks(b, data, high, r))
  {
    if |data| >= 16 {
      var c := Le(data[..16]) + high;
      CongruentRefl(PRIME, c);
      CongruentRefl(PRIME, r);
      CongruentAdd(PRIME, a, b, c, c);
      CongruentMul(PRIME, a + c, b + c, r, r);
    }
  }

  lemma LeBlock(block: seq<Byte>)
    requires |block| == 16
    ensures Le(block + [1]) == Le(block) + 0x1_0000_0000_0000_0000_0000_0000_0000_0000
  {
    hide Pow2;
    LeConcat(block, [1]);
    Pow2Consts();
    assert Le([1]) == 1;
  }

  /** With the high bit set, whole blocks are absorbed as the definition says. */
  lemma {:induction false} AbsorbBlocksFull(acc: nat, data: seq<Byte>, r: nat)
    requires |data| % 16 == 0
    ensures AbsorbBlocks(acc, data, 0x1_0000_0000_0000_0000_0000_0000_0000_0000, r) == Absorb(acc, data, r)
    decreases |data|
  {
    hide Le;
    if data == [] {
    } else {
      LeBlock(data[..16]);
      AbsorbBlocksFull((acc + Le(data[..16] + [1])) * r % PRIME, data[16..], r);
    }
  }

  function HighOf(hibit: Word32): nat {
    if hibit == 0 then 0 else 0x1_0000_0000_0000_0000_0000_0000_0000_0000
  }

  /** One turn of the block loop: add, multiply, carry. */
  lemma BlockStep(h: Limbs5, r: Limbs5, data: seq<Byte>, hibit: Word32)
    requires Lazy(h) && Reduced(r) && |data| >= 16 && (hibit == 0 || hibit == 0x100_0000)
    ensures var h' := Multiply(AddBlock(h, Load(data), hibit), r);
            Lazy(h') && Congruent(PRIME, Value(h'), (Value(h) + Le(data[..16]) + HighOf(hibit)) * Value(r))
  {
    hide Load, AddBlock, Multiply, Le, Eval;
    LoadValue(data);
    AddBlockValue(h, Load(data), hibit);
    MultiplyValue(AddBlock(h, Load(data), hibit), r);
  }

  lemma ValueNonNegative(x: Limbs5)
    requires Lazy(x)
    ensures Value(x) >= 0
  {
  }

  /** The poly1305_state of the C library. */
  class State {
    var h: Limbs5
    var r: Limbs5
    var pad: Words4

    ghost predicate Valid()
      reads this
    {
      Lazy(h) && Reduced(r)
    }

    /** The accumulator, as a number. */
    ghost function Acc(): nat
      requires Valid()
      reads this
    {
      ValueNonNegative(h);
      Value(h)
    }

    ghost function R(): nat
      requires Valid()
      reads this
    {
      ValueNonNegative(r);
      Value(r)
    }

    constructor (key: Key)
      ensures Valid() && Acc() == 0 && R() == ClampedR(key) && Value4(pad) == Le(key[16..])
    {
      hide Load, ClampLimbs, ClampedR, Le, Value4;
      r := ClampLimbs(Load(key));
      pad := Load(key[16..]);
      h := Limbs5(0, 0, 0, 0, 0);
      new;
      InitValue(key);
      ValueZero();
      hide Eval;
    }

    method Blocks(data: seq<Byte>, hibit: Word32)
      requires Valid() && (hibit == 0 || hibit == 0x100_0000)
      modifies this`h
      ensures Valid() && R() == old(R())
      ensures Congruent(PRIME, Acc(), AbsorbBlocks(old(Acc()), data, HighOf(hibit), R()))
    {
      hide Load, AddBlock, Multiply, Eval, AbsorbBlocks, Le;
      var data', len := data, |data|;
      ghost var rr := R();
      while len >= 16
        invariant Valid() && len == |data'|
        invariant R() == rr
        invariant Congruent(PRIME, AbsorbBlocks(Acc(), data', HighOf(hibit), rr),
                                   AbsorbBlocks(old(Acc()), data, HighOf(hibit), rr))
      {
        ghost var before := Acc();
        var h' := Multiply(AddBlock(h, Load(data'), hibit), r);
        BlockStep(h, r, data', hibit);
        h := h';
        AbsorbStep(before, Acc(), data', HighOf(hibit), rr);
        data', len := data'[16..], len - 16;
      }
      AbsorbBlocksShort(Acc(), data', HighOf(hibit), rr);
    }

    method Finish() returns (tag: seq<Byte>)
      requires Valid()
      ensures tag == PutLe(Acc() % PRIME + Value4(pad), 16)
    {
      hide FullCarry, MinusPrime, Choose, Pack, AddPad, Bytes, PutLe, Eval;
      FinishCorrect(h, pad);
      var t := FullCarry(h);
      var u := Choose(t, MinusPrime(t));
      tag := Bytes(AddPad(Pack(u), pad));
    }
  }

  lemma InitValue(key: Key)
    ensures Reduced(ClampLimbs(Load(key))) && Value(ClampLimbs(Load(key))) == ClampedR(key)
    ensures Value4(Load(key[16..])) == Le(key[16..])
  {
    hide Load, ClampLimbs, Le, And;
    ClampValue(Load(key));
    LoadValue(key);
    LoadValue(key[16..]);
    assert key[16..][..16] == key[16..];
  }

  lemma ValueZero()
    ensures Value(Limbs5(0, 0, 0, 0, 0)) == 0
  {
  }

  /** Finishing: full carry, canonical residue, pack, add s, write out. */
  lemma FinishCorrect(h: Limbs5, pad: Words4)
    requires Lazy(h)
    ensures Reduced(FullCarry(h)) && AllWords(MinusPrime(FullCarry(h)))
    ensures var t := FullCarry(h);
            var u := Choose(t, MinusPrime(t));
            Reduced(u) && Bytes(AddPad(Pack(u), pad)) == PutLe(Value(h) % PRIME + Value4(pad), 16)
  {
    hide FullCarry, MinusPrime, Choose, Pack, AddPad, Bytes, PutLe, Eval;
    FullCarryValue(h);
    var t := FullCarry(h);
    SelectValue(t);
    FinishValue(Choose(t, MinusPrime(t)), pad);
  }

  lemma AbsorbStep(acc: nat, acc': nat, data: seq<Byte>, high: nat, r: nat)
    requires |data| >= 16 && Congruent(PRIME, acc', (acc + Le(data[..16]) + high) * r)
    ensures Congruent(PRIME, AbsorbBlocks(acc', data[16..], high, r), AbsorbBlocks(acc, data, high, r))
  {
    hide Le;
    var x := (acc + Le(data[..16]) + high) * r;
    CongruentMod(PRIME, x);
    AbsorbBlocksCongruent(acc', x % PRIME, data[16..], high, r);
  }

  lemma FinishValue(u: Limbs5, pad: Words4)
    requires Reduced(u) && 0 <= Value(u)
    ensures Bytes(AddPad(Pack(u), pad)) == PutLe(Value(u) + Value4(pad), 16)
  {
    hide Pack, AddPad, Bytes, PutLe, Le, Eval;
    var w := AddPad(Pack(u), pad);
    PackValue(u);
    AddPadValue(Pack(u), pad);
    BytesValue(w);
    LePut16(Value(u) + Value4(pad));
    ModAdd(Value(u), Value4(pad), 0x1_0000_0000_0000_0000_0000_0000_0000_0000);
    LeInjective(Bytes(w), PutLe(Value(u) + Value4(pad), 16));
  }

  lemma ModAdd(x: int, y: int, m: nat)
    requires m > 0
    ensures (x % m + y) % m == (x + y) % m
  {
    CongruentMod(m, x);
    CongruentRefl(m, y);
    CongruentAdd(m, x % m, x, y, y);
  }

  /** size_t & ~15: round a length down to whole blocks. */
  lemma RoundDown(len: Word64)
    ensures And(len, 0xFFFF_FFFF_FFFF_FFF0) == len - len % 16
  {
    hide And, Pow2;
    Pow2Sixty();
    var q := len / 16;
    AndSplit(4, len % 16, q, 0, 0xFFF_FFFF_FFFF_FFFF);
    AndZero(len % 16);
    AndMask(q, 60);
  }

  lemma Pow2Sixty()
    ensures Pow2(4) == 16 && Pow2(60) == 0x1000_0000_0000_0000
  {
    Pow2Consts();
    Pow2Add(4, 60);
    hide Pow2;
  }

  lemma AbsorbLast(acc: nat, rest: seq<Byte>, r: nat)
    requires 0 < |rest| < 16
    ensures Absorb(acc, rest, r)
         == AbsorbBlocks(acc, LastBlock(rest), 0, r)
  {
    var block := LastBlock(rest);
    assert block[..16] == block && rest[..|rest|] == rest;
    LeZeros(rest + [1], 15 - |rest|);
  }

  lemma LeZeros(s: seq<Byte>, n: nat)
    ensures Le(s + seq(n, _ => 0)) == Le(s)
  {
    LeConcat(s, seq(n, _ => 0));
    LeAllZero(n);
  }

  lemma {:induction false} LeAllZero(n: nat)
    ensures Le(seq<Byte>(n, _ => 0)) == 0
  {
    if n > 0 {
      assert seq<Byte>(n, _ => 0)[1..] == seq<Byte>(n - 1, _ => 0);
      LeAllZero(n - 1);
    }
  }

  /** The last partial block with its 1 byte, zero-filled. */
  function LastBlock(rest: seq<Byte>): seq<Byte>
    requires |rest| < 16
  {
    rest + [1] + seq(15 - |rest|, _ => 0)
  }

  /** Whole blocks first, then the padded remainder: together, the message. */
  lemma MessageInTwoParts(acc: nat, msg: seq<Byte>, full: nat, r: nat)
    requires full == |msg| - |msg| % 16
    requires Congruent(PRIME, acc, AbsorbBlocks(0, msg[..full], 0x1_0000_0000_0000_0000_0000_0000_0000_0000, r))
    ensures |msg| == full ==> Congruent(PRIME, acc, Absorb(0, msg, r))
    ensures |msg| > full ==> Congruent(PRIME, AbsorbBlocks(acc, LastBlock(msg[full..]), 0, r), Absorb(0, msg, r))
  {
    hide Absorb, AbsorbBlocks, Le;
    AbsorbBlocksFull(0, msg[..full], r);
    AbsorbConcat(0, msg[..full], msg[full..], r);
    assert msg == msg[..full] + msg[full..];
    if |msg| > full {
      AbsorbLast(Absorb(0, msg[..full], r), msg[full..], r);
      AbsorbBlocksCongruent(acc, Absorb(0, msg[..full], r), LastBlock(msg[full..]), 0, r);
    } else {
      assert msg[..full] == msg;
    }
  }

  lemma TagOf(acc: nat, msg: seq<Byte>, key: Key)
    requires Congruent(PRIME, acc, Absorb(0, msg, ClampedR(key)))
    ensures PutLe(acc % PRIME + Le(key[16..]), 16) == Mac(msg, key)
  {
    hide Absorb, PutLe, Le, ClampedR;
    AbsorbReduced(0, msg, ClampedR(key));
    var a := Absorb(0, msg, ClampedR(key));
    DivModUnique(a, PRIME, 0, a);
  }

  /** poly1305_mac computes the tag of section 2.5 of RFC 7539, for every key and message. */
  method ComputeMac(msg: seq<Byte>, key: Key) returns (tag: seq<Byte>)
    requires |msg| < 0x1_0000_0000_0000_0000
    ensures tag == Mac(msg, key)
  {
    hide And, AbsorbBlocks, Absorb, Le, PutLe, Mac, ClampedR, LastBlock, Value4;
    var st := new State(key);
    var full := And(|msg|, 0xFFFF_FFFF_FFFF_FFF0);
    RoundDown(|msg|);
    if full > 0 {
      st.Blocks(msg[..full], 0x100_0000);
    } else {
      assert msg[..full] == [];
      AbsorbBlocksShort(0, [], 0x1_0000_0000_0000_0000_0000_0000_0000_0000, st.R());
    }
    MessageInTwoParts(st.Acc(), msg, full, st.R());
    var rem := |msg| - full;
    if rem > 0 {
      st.Blocks(LastBlock(msg[full..]), 0);
    }
    TagOf(st.Acc(), msg, key);
    tag := st.Finish();
  }
}
