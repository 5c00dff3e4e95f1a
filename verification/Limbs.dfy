/**
 Five-limb numbers in an arbitrary radix b, multiplied modulo b^5 - c.

 Both Poly1305 (b = 2^26, c = 5) and the field GF(2^255 - 19) (b = 2^51, c = 19) use the
 same schoolbook multiplication in which every product of weight b^(5+i) is folded back
 to weight b^i with a factor c.  The algebra is done here once, for every b and c.
 */
module Limbs {
  import opened Words

  datatype Limbs5 = Limbs5(x0: int, x1: int, x2: int, x3: int, x4: int)

  /** The number denoted by five limbs in radix b. */
  function Eval(b: int, x: Limbs5): int {
    x.x0 + b * (x.x1 + b * (x.x2 + b * (x.x3 + b * x.x4)))
  }

  function Pow5(b: int): int { b * (b * (b * (b * b))) }

  function Plus(x: Limbs5, y: Limbs5): Limbs5 {
    Limbs5(x.x0 + y.x0, x.x1 + y.x1, x.x2 + y.x2, x.x3 + y.x3, x.x4 + y.x4)
  }

  function Times(x: Limbs5, n: int): Limbs5 {
    Limbs5(x.x0 * n, x.x1 * n, x.x2 * n, x.x3 * n, x.x4 * n)
  }

  /** Multiplication by the radix, with the limb that falls off the top folded back. */
  function Rotate(c: int, x: Limbs5): Limbs5 {
    Limbs5(x.x4 * c, x.x0, x.x1, x.x2, x.x3)
  }

  /** The folded schoolbook product, laid out as the two C multiplications write it. */
  function Product(c: int, f: Limbs5, g: Limbs5): Limbs5 {
    var g1, g2, g3, g4 := g.x1 * c, g.x2 * c, g.x3 * c, g.x4 * c;
    Limbs5(
      f.x0 * g.x0 + f.x1 * g4 + f.x2 * g3 + f.x3 * g2 + f.x4 * g1,
      f.x0 * g.x1 + f.x1 * g.x0 + f.x2 * g4 + f.x3 * g3 + f.x4 * g2,
      f.x0 * g.x2 + f.x1 * g.x1 + f.x2 * g.x0 + f.x3 * g4 + f.x4 * g3,
      f.x0 * g.x3 + f.x1 * g.x2 + f.x2 * g.x1 + f.x3 * g.x0 + f.x4 * g4,
      f.x0 * g.x4 + f.x1 * g.x3 + f.x2 * g.x2 + f.x3 * g.x1 + f.x4 * g.x0)
  }

  lemma Dist(a: int, x: int, y: int)
    ensures a * (x + y) == a * x + a * y
  {
  }

  lemma Assoc(a: int, x: int, y: int)
    ensures (a * x) * y == a * (x * y)
  {
  }

  lemma EvalPlus(b: int, x: Limbs5, y: Limbs5)
    ensures Eval(b, Plus(x, y)) == Eval(b, x) + Eval(b, y)
  {
    var u3, v3 := x.x3 + b * x.x4, y.x3 + b * y.x4;
    var u2, v2 := x.x2 + b * u3, y.x2 + b * v3;
    var u1, v1 := x.x1 + b * u2, y.x1 + b * v2;
    Dist(b, x.x4, y.x4);
    Dist(b, u3, v3);
    Dist(b, u2, v2);
    Dist(b, u1, v1);
  }

  lemma EvalTimes(b: int, x: Limbs5, n: int)
    ensures Eval(b, Times(x, n)) == Eval(b, x) * n
  {
    EvalTimesTail(b, x.x2, x.x3, x.x4, n);
    var u2 := x.x2 + b * (x.x3 + b * x.x4);
    TimesStep(b, x.x1, u2, n);
    TimesStep(b, x.x0, x.x1 + b * u2, n);
  }

  lemma EvalTimesTail(b: int, x2: int, x3: int, x4: int, n: int)
    ensures x2 * n + b * (x3 * n + b * (x4 * n)) == (x2 + b * (x3 + b * x4)) * n
  {
    TimesStep(b, x3, x4, n);
    TimesStep(b, x2, x3 + b * x4, n);
  }

  lemma TimesStep(b: int, lo: int, hi: int, n: int)
    ensures (lo + b * hi) * n == lo * n + b * (hi * n)
  {
    Dist(n, lo, b * hi);
    Assoc(b, hi, n);
  }

  /** Rotating multiplies by the radix, up to a multiple of b^5 - c. */
  lemma EvalRotate(b: int, c: int, x: Limbs5)
    ensures b * Eval(b, x) == Eval(b, Rotate(c, x)) + (Pow5(b) - c) * x.x4
  {
    var y := x.x4;
    var z := Limbs5(0, 0, 0, 0, y);
    var w := x.(x4 := 0);
    assert Plus(w, z) == x;
    EvalPlus(b, w, z);
    Dist(b, Eval(b, w), Eval(b, z));
    assert b * Eval(b, w) == Eval(b, Limbs5(0, x.x0, x.x1, x.x2, x.x3));
    assert Plus(Limbs5(0, x.x0, x.x1, x.x2, x.x3), Limbs5(y * c, 0, 0, 0, 0)) == Rotate(c, x);
    EvalPlus(b, Limbs5(0, x.x0, x.x1, x.x2, x.x3), Limbs5(y * c, 0, 0, 0, 0));
    assert b * Eval(b, z) == Pow5(b) * y by {
      Assoc(b, b, y); Assoc(b, b * b, y); Assoc(b, b * (b * b), y); Assoc(b, b * (b * (b * b)), y);
    }
    assert (Pow5(b) - c) * y == Pow5(b) * y - c * y;
  }

  /** One Horner step: acc * b + f * n, folded. */
  lemma HornerStep(b: int, c: int, acc: Limbs5, f: Limbs5, n: int, value: int, e: int)
    requires value == Eval(b, acc) + (Pow5(b) - c) * e
    ensures b * value + Eval(b, f) * n
         == Eval(b, Plus(Rotate(c, acc), Times(f, n))) + (Pow5(b) - c) * (b * e + acc.x4)
  {
    var p := Pow5(b) - c;
    EvalRotate(b, c, acc);
    EvalTimes(b, f, n);
    EvalPlus(b, Rotate(c, acc), Times(f, n));
    Dist(b, Eval(b, acc), p * e);
    Dist(p, b * e, acc.x4);
    assert b * (p * e) == p * (b * e) by { Assoc(b, p, e); Assoc(p, b, e); }
  }

  /** Horner's rule over the limbs of g, folding at every step, is the laid-out product. */
  function HornerProduct(c: int, f: Limbs5, g: Limbs5): Limbs5 {
    var a4 := Times(f, g.x4);
    var a3 := Plus(Rotate(c, a4), Times(f, g.x3));
    var a2 := Plus(Rotate(c, a3), Times(f, g.x2));
    var a1 := Plus(Rotate(c, a2), Times(f, g.x1));
    Plus(Rotate(c, a1), Times(f, g.x0))
  }

  lemma FoldTwo(c: int, f: int, g: int, f': int, g': int)
    ensures (f * g + f' * g') * c == f * (g * c) + f' * (g' * c)
  {
    Dist(c, f * g, f' * g');
    Assoc(f, g, c);
    Assoc(f', g', c);
  }

  lemma FoldOne(c: int, r: int, f: int, g: int)
    ensures (r + f * g) * c == r * c + f * (g * c)
  {
    Dist(c, r, f * g);
    Assoc(f, g, c);
  }

  lemma HornerIsProduct(c: int, f: Limbs5, g: Limbs5)
    ensures HornerProduct(c, f, g) == Product(c, f, g)
  {
    Assoc(f.x4, g.x4, c);
    FoldTwo(c, f.x3, g.x4, f.x4, g.x3);
    FoldTwo(c, f.x2, g.x4, f.x3, g.x3);
    FoldOne(c, f.x2 * g.x4 + f.x3 * g.x3, f.x4, g.x2);
    FoldTwo(c, f.x1, g.x4, f.x2, g.x3);
    FoldOne(c, f.x1 * g.x4 + f.x2 * g.x3, f.x3, g.x2);
    FoldOne(c, f.x1 * g.x4 + f.x2 * g.x3 + f.x3 * g.x2, f.x4, g.x1);
  }

  /** The folded product is the product, up to a multiple of b^5 - c. */
  lemma ProductExact(b: int, c: int, f: Limbs5, g: Limbs5) returns (e: int)
    ensures Eval(b, f) * Eval(b, g) == Eval(b, Product(c, f, g)) + (Pow5(b) - c) * e
  {
    var F := Eval(b, f);
    var G3 := g.x3 + b * g.x4;
    var G2 := g.x2 + b * G3;
    var G1 := g.x1 + b * G2;
    var a4 := Times(f, g.x4);
    var a3 := Plus(Rotate(c, a4), Times(f, g.x3));
    var a2 := Plus(Rotate(c, a3), Times(f, g.x2));
    var a1 := Plus(Rotate(c, a2), Times(f, g.x1));
    var e3 := a4.x4;
    var e2 := b * e3 + a3.x4;
    var e1 := b * e2 + a2.x4;
    e := b * e1 + a1.x4;
    EvalTimes(b, f, g.x4);
    HornerStep(b, c, a4, f, g.x3, F * g.x4, 0);
    HornerPeel(b, F, g.x3, g.x4);
    HornerStep(b, c, a3, f, g.x2, F * G3, e3);
    HornerPeel(b, F, g.x2, G3);
    HornerStep(b, c, a2, f, g.x1, F * G2, e2);
    HornerPeel(b, F, g.x1, G2);
    HornerStep(b, c, a1, f, g.x0, F * G1, e1);
    HornerPeel(b, F, g.x0, G1);
    HornerIsProduct(c, f, g);
  }

  lemma HornerPeel(b: int, f: int, n: int, r: int)
    ensures f * (n + b * r) == b * (f * r) + f * n
  {
    Dist(f, n, b * r);
    Assoc(f, b, r);
    Assoc(b, f, r);
  }

  // ---------- Carrying ----------

  function Hi(b: int, x: int): int
    requires b > 0
  {
    x / b
  }

  function Lo(b: int, x: int): int
    requires b > 0
  {
    x % b
  }

  lemma HiLo(b: int, x: int)
    requires b > 0
    ensures x == b * Hi(b, x) + Lo(b, x) && 0 <= Lo(b, x) < b
  {
  }

  lemma LoRange(b: int, x: int)
    requires b > 0
    ensures 0 <= Lo(b, x) < b
  {
  }

  /** The carry out of the top limb after a pass from limb 0 to limb 4. */
  function TopCarry(b: int, d: Limbs5): int
    requires b > 0
  {
    Hi(b, d.x4 + Hi(b, d.x3 + Hi(b, d.x2 + Hi(b, d.x1 + Hi(b, d.x0)))))
  }

  /** A pass of carries with the top one folded back into limb 0, in exact arithmetic. */
  function Chain(b: int, c: int, d: Limbs5): Limbs5
    requires b > 0
  {
    var d1 := d.x1 + Hi(b, d.x0);
    var d2 := d.x2 + Hi(b, d1);
    var d3 := d.x3 + Hi(b, d2);
    var d4 := d.x4 + Hi(b, d3);
    var h0 := Lo(b, d.x0) + Hi(b, d4) * c;
    Limbs5(Lo(b, h0), Lo(b, d1) + Hi(b, h0), Lo(b, d2), Lo(b, d3), Lo(b, d4))
  }

  lemma CarryStep(b: int, x: int, y: int, z: int)
    requires b > 0
    ensures x + b * (y + z) == Lo(b, x) + b * ((y + Hi(b, x)) + z)
  {
    hide Hi, Lo;
    HiLo(b, x);
    Dist(b, y + z, Hi(b, x));
  }

  lemma TopLimb(b: int, q: int)
    ensures b * (b * (b * (b * (b * q)))) == Pow5(b) * q
  {
    Assoc(b, b, q);
    Assoc(b, b * b, q);
    Assoc(b, b * (b * b), q);
    Assoc(b, b * (b * (b * b)), q);
  }

  /** Spelling out the digits of one pass. */
  lemma ChainDigits(b: int, d: Limbs5)
    requires b > 0
    ensures var d1 := d.x1 + Hi(b, d.x0);
            var d2 := d.x2 + Hi(b, d1);
            var d3 := d.x3 + Hi(b, d2);
            var d4 := d.x4 + Hi(b, d3);
            Eval(b, d) == Eval(b, Limbs5(Lo(b, d.x0), Lo(b, d1), Lo(b, d2), Lo(b, d3), Lo(b, d4) + b * Hi(b, d4)))
  {
    hide Hi, Lo;
    var d1 := d.x1 + Hi(b, d.x0);
    var d2 := d.x2 + Hi(b, d1);
    var d3 := d.x3 + Hi(b, d2);
    var d4 := d.x4 + Hi(b, d3);
    CarryStep(b, d.x0, d.x1, b * (d.x2 + b * (d.x3 + b * d.x4)));
    CarryStep(b, d1, d.x2, b * (d.x3 + b * d.x4));
    CarryStep(b, d2, d.x3, b * d.x4);
    CarryStep(b, d3, d.x4, 0);
    HiLo(b, d4);
  }

  /** The five digits left behind by a pass of carries that drops the top one. */
  function Digits(b: int, d: Limbs5): Limbs5
    requires b > 0
  {
    var d1 := d.x1 + Hi(b, d.x0);
    var d2 := d.x2 + Hi(b, d1);
    var d3 := d.x3 + Hi(b, d2);
    Limbs5(Lo(b, d.x0), Lo(b, d1), Lo(b, d2), Lo(b, d3), Lo(b, d.x4 + Hi(b, d3)))
  }

  ghost predicate Digital(b: int, x: Limbs5) {
    0 <= x.x0 < b && 0 <= x.x1 < b && 0 <= x.x2 < b && 0 <= x.x3 < b && 0 <= x.x4 < b
  }

  lemma DigitBound(b: int, lo: int, hi: int, bound: int)
    requires 0 <= lo < b && 0 <= hi < bound
    ensures 0 <= lo + b * hi < b * bound
  {
    MulComm(hi, b);
    MulMono(0, hi, b);
    MulMono(hi, bound - 1, b);
    MulComm(bound - 1, b);
    Dist(b, bound, -1);
  }

  lemma DigitalBound(b: int, x: Limbs5)
    requires Digital(b, x)
    ensures 0 <= Eval(b, x) < Pow5(b)
  {
    var u3 := x.x3 + b * x.x4;
    var u2 := x.x2 + b * u3;
    var u1 := x.x1 + b * u2;
    DigitBound(b, x.x3, x.x4, b);
    DigitBound(b, x.x2, u3, b * b);
    DigitBound(b, x.x1, u2, b * (b * b));
    DigitBound(b, x.x0, u1, b * (b * (b * b)));
  }

  /** The digits and the last carry make up the number. */
  lemma DigitsSum(b: int, d: Limbs5)
    requires b > 0
    ensures Eval(b, d) == Eval(b, Digits(b, d)) + Pow5(b) * TopCarry(b, d)
  {
    hide Hi, Lo, Eval, Pow5;
    ChainDigits(b, d);
    var q, low := TopCarry(b, d), Digits(b, d);
    assert Plus(low, Limbs5(0, 0, 0, 0, b * q)) == low.(x4 := low.x4 + b * q);
    hide Digits, TopCarry;
    EvalPlus(b, low, Limbs5(0, 0, 0, 0, b * q));
    EvalTop(b, q);
  }

  lemma DigitsAreDigital(b: int, d: Limbs5)
    requires b > 0
    ensures Digital(b, Digits(b, d))
  {
    hide Hi, Lo;
    var d1 := d.x1 + Hi(b, d.x0);
    var d2 := d.x2 + Hi(b, d1);
    var d3 := d.x3 + Hi(b, d2);
    LoRange(b, d.x0);
    LoRange(b, d1);
    LoRange(b, d2);
    LoRange(b, d3);
    LoRange(b, d.x4 + Hi(b, d3));
  }

  /** Quotient and remainder of the whole number by b^5. */
  lemma DigitsValue(b: int, d: Limbs5)
    requires b > 0
    ensures Digital(b, Digits(b, d)) && Pow5(b) > 0
    ensures Eval(b, d) == Eval(b, Digits(b, d)) + Pow5(b) * TopCarry(b, d)
    ensures Eval(b, Digits(b, d)) == Eval(b, d) % Pow5(b) && TopCarry(b, d) == Eval(b, d) / Pow5(b)
  {
    hide *;
    DigitsSum(b, d);
    DigitsAreDigital(b, d);
    DigitalBound(b, Digits(b, d));
    MulComm(Pow5(b), TopCarry(b, d));
    DivModUnique(Eval(b, d), Pow5(b), TopCarry(b, d), Eval(b, Digits(b, d)));
  }

  /** The chain keeps the value up to a multiple of b^5 - c. */
  lemma ChainValue(b: int, c: int, d: Limbs5)
    requires b > 0
    ensures Eval(b, d) == Eval(b, Chain(b, c, d)) + (Pow5(b) - c) * TopCarry(b, d)
  {
    hide Hi, Lo, Eval, Pow5;
    DigitsValue(b, d);
    var q := TopCarry(b, d);
    EvalRaise(b, Digits(b, d), q * c);
    assert (Pow5(b) - c) * q == Pow5(b) * q - q * c;
  }

  lemma EvalTop(b: int, q: int)
    ensures Eval(b, Limbs5(0, 0, 0, 0, b * q)) == Pow5(b) * q
  {
    TopLimb(b, q);
  }

  /** Adding n to limb 0 and carrying it into limb 1 adds n. */
  lemma EvalRaise(b: int, x: Limbs5, n: int)
    requires b > 0
    ensures Eval(b, Limbs5(Lo(b, x.x0 + n), x.x1 + Hi(b, x.x0 + n), x.x2, x.x3, x.x4)) == Eval(b, x) + n
  {
    hide Hi, Lo;
    CarryStep(b, x.x0 + n, x.x1, b * (x.x2 + b * (x.x3 + b * x.x4)));
  }

  // ---------- Congruence ----------

  ghost predicate Congruent(p: nat, x: int, y: int)
    requires p > 0
  {
    x % p == y % p
  }

  lemma CongruentMultiple(p: nat, x: int, y: int, e: int)
    requires p > 0 && x == y + p * e
    ensures Congruent(p, x, y)
  {
    var q, r := y / p, y % p;
    assert x == (q + e) * p + r by { Dist(p, q, e); }
    DivModUnique(x, p, q + e, r);
  }

  lemma CongruentDiff(p: nat, x: int, y: int) returns (e: int)
    requires p > 0 && Congruent(p, x, y)
    ensures x == y + p * e
  {
    e := x / p - y / p;
    Dist(p, x / p, -(y / p));
  }

  lemma CongruentMul(p: nat, x: int, x': int, y: int, y': int)
    requires p > 0 && Congruent(p, x, x') && Congruent(p, y, y')
    ensures Congruent(p, x * y, x' * y')
  {
    var d := CongruentDiff(p, x, x');
    var e := CongruentDiff(p, y, y');
    TimesStep(p, x', d, y);
    HornerPeel(p, x', y', e);
    Dist(p, x' * e, d * y);
    CongruentMultiple(p, x * y, x' * y', x' * e + d * y);
  }

  lemma CongruentAdd(p: nat, x: int, x': int, y: int, y': int)
    requires p > 0 && Congruent(p, x, x') && Congruent(p, y, y')
    ensures Congruent(p, x + y, x' + y')
  {
    var d := CongruentDiff(p, x, x');
    var e := CongruentDiff(p, y, y');
    Dist(p, d, e);
    CongruentMultiple(p, x + y, x' + y', d + e);
  }

  lemma CongruentTrans(p: nat, x: int, y: int, z: int)
    requires p > 0 && Congruent(p, x, y) && Congruent(p, y, z)
    ensures Congruent(p, x, z) && Congruent(p, z, x)
  {
  }

  lemma CongruentRefl(p: nat, x: int)
    requires p > 0
    ensures Congruent(p, x, x)
  {
  }

  lemma CongruentMod(p: nat, x: int)
    requires p > 0
    ensures Congruent(p, x % p, x)
  {
    CongruentMultiple(p, x, x % p, x / p);
    DivModUnique(x % p, p, 0, x % p);
  }

  /** The folded product is congruent to the product modulo b^5 - c. */
  lemma ProductCongruent(b: int, c: int, f: Limbs5, g: Limbs5)
    requires Pow5(b) > c
    ensures Congruent(Pow5(b) - c, Eval(b, Product(c, f, g)), Eval(b, f) * Eval(b, g))
  {
    var e := ProductExact(b, c, f, g);
    CongruentMultiple(Pow5(b) - c, Eval(b, f) * Eval(b, g), Eval(b, Product(c, f, g)), e);
  }
}
