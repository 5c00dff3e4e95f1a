/**
 Primality by certificate (Pocklington's criterion): if q is a prime factor of n - 1 that is
 large enough, 2^(n-1) = 1 modulo n, and 2^((n-1)/q) - 1 has an inverse modulo n, then n is
 prime.
 */
module Primes {
  import opened Words
  import opened Limbs
  import opened Fermat

  // ---------- Powers ----------

  lemma {:induction false} PowMul(z: int, m: nat, n: nat)
    ensures Pow(z, m * n) == Pow(Pow(z, m), n)
  {
    if n > 0 {
      PowMul(z, m, n - 1);
      assert m * n == m + m * (n - 1);
      PowAdd(z, m, m * (n - 1));
    }
  }

  lemma {:induction false} OnePow(n: nat)
    ensures Pow(1, n) == 1
  {
    if n > 0 { OnePow(n - 1); }
  }

  lemma {:induction false} PowCongruent(p: nat, x: int, y: int, e: nat)
    requires p > 0 && Congruent(p, x, y)
    ensures Congruent(p, Pow(x, e), Pow(y, e))
  {
    hide Congruent;
    if e == 0 {
      CongruentRefl(p, 1);
    } else {
      PowCongruent(p, x, y, e - 1);
      CongruentMul(p, x, y, Pow(x, e - 1), Pow(y, e - 1));
    }
  }

  /** Whatever holds modulo a number holds modulo its factors. */
  lemma CongruentFactor(p: nat, c: nat, x: int, y: int)
    requires p > 0 && c > 0 && p * c > 0 && Congruent(p * c, x, y)
    ensures Congruent(p, x, y)
  {
    var e := CongruentDiff(p * c, x, y);
    assert (p * c) * e == p * (c * e);
    CongruentMultiple(p, x, y, c * e);
  }

  lemma DividesIsCongruent(p: nat, x: int, y: int)
    requires p > 0
    ensures Divides(p, x - y) <==> Congruent(p, x, y)
  {
    if Divides(p, x - y) {
      var q: int :| x - y == q * p;
      CongruentMultiple(p, x, y, q);
    }
    if Congruent(p, x, y) {
      var e := CongruentDiff(p, x, y);
      assert x - y == e * p;
    }
  }

  // ---------- Bezout ----------

  lemma {:induction false} Bezout(a: nat, b: nat) returns (g: nat, x: int, y: int)
    requires a > 0 || b > 0
    ensures g > 0 && a * x + b * y == g && a % g == 0 && b % g == 0
    decreases b
  {
    if b == 0 {
      g, x, y := a, 1, 0;
      DivModUnique(a, a, 1, 0);
      DivModUnique(0, a, 0, 0);
    } else {
      var x', y';
      g, x', y' := Bezout(b, a % b);
      BezoutStep(a, b, x', y');
      FactorOfSum(a, b, g);
      x, y := y', x' - (a / b) * y';
    }
  }

  lemma BezoutStep(a: nat, b: nat, x: int, y: int)
    requires b > 0
    ensures a * y + b * (x - (a / b) * y) == b * x + (a % b) * y
  {
    var q, r := a / b, a % b;
    assert a == q * b + r;
    Distribute(q * b, r, y);
    assert b * (x - q * y) == b * x - b * (q * y) && b * (q * y) == q * b * y;
  }

  lemma FactorOfSum(a: nat, b: nat, g: nat)
    requires b > 0 && g > 0 && b % g == 0 && (a % b) % g == 0
    ensures a % g == 0
  {
    FactorOfTerms(b, a / b, a % b, g);
    assert a == b * (a / b) + a % b;
  }

  lemma FactorOfTerms(b: nat, q: nat, r: nat, g: nat)
    requires g > 0 && b % g == 0 && r % g == 0
    ensures (b * q + r) % g == 0
  {
    hide Divides;
    DividesMod(g, b);
    DividesMod(g, r);
    DividesMul(g, b, q);
    DividesSum(g, b * q, r);
    DividesMod(g, b * q + r);
  }

  /** A prime that does not divide t has an inverse modulo t. */
  lemma InverseOfPrime(q: nat, t: nat) returns (u: nat, v: nat)
    requires IsPrime(q) && t > 0 && t % q != 0
    ensures q * u == 1 + t * v
  {
    var g, x, y := Bezout(q, t);
    PrimeFactor(q, g);
    var k := Abs(x) + Abs(y);
    Above(x, k, t);
    Above(-y, k, q);
    u, v := x + k * t, k * q - y;
    Shifted(q, t, x, y, k);
  }

  lemma Shifted(q: int, t: int, x: int, y: int, k: int)
    ensures q * (x + k * t) - t * (k * q - y) == q * x + t * y
  {
    Dist(q, x, k * t);
    Dist(t, k * q, -y);
    assert q * (k * t) == t * (k * q);
  }

  lemma PrimeFactor(q: nat, g: nat)
    requires IsPrime(q) && g > 0 && q % g == 0
    ensures g == 1 || g == q
  {
    if g > q { LargeDivisor(q, g); }
  }

  lemma LargeDivisor(q: nat, g: nat)
    requires 0 < q < g
    ensures q % g == q
  {
    DivModUnique(q, g, 0, q);
  }

  function Abs(x: int): nat { if x < 0 then -x else x }

  lemma Above(x: int, k: nat, t: nat)
    requires Abs(x) <= k && t > 0
    ensures x + k * t >= 0
  {
    assert k * t >= k;
  }

  // ---------- The criterion ----------

  /** 2^e leaves v modulo n. */
  ghost predicate Residue(n: nat, e: nat, v: int) { n > 0 && Congruent(n, Pow(2, e), v) }

  /** 2^(p-1) = 1 modulo an odd prime. */
  lemma FermatTwo(p: nat)
    requires IsPrime(p) && p > 2
    ensures Congruent(p, Pow(2, p - 1), 1)
  {
    LittleTheorem(2, p);
    assert Pow(2, p) == 2 * Pow(2, p - 1);
    hide Pow, Divides, IsPrime;
    Euclid(p, 2, Pow(2, p - 1) - 1);
    DividesIsCongruent(p, Pow(2, p - 1), 1);
  }

  /** If q does not divide p - 1, then 2^m = 1 modulo p already. */
  lemma OrderArgument(p: nat, q: nat, m: nat)
    requires IsPrime(p) && p > 2 && IsPrime(q) && (p - 1) % q != 0 && Congruent(p, Pow(2, q * m), 1)
    ensures Congruent(p, Pow(2, m), 1)
  {
    hide Pow, Congruent, IsPrime;
    var u, v := InverseOfPrime(q, p - 1);
    FermatTwo(p);
    PowCongruent(p, Pow(2, q * m), 1, u);
    PowCongruent(p, Pow(2, p - 1), 1, m * v);
    OnePow(u);
    OnePow(m * v);
    PowMul(2, q * m, u);
    PowMul(2, p - 1, m * v);
    ExponentSplit(p, q, m, u, v);
    PowAdd(2, m, (p - 1) * (m * v));
    CongruentRefl(p, Pow(2, m));
    CongruentMul(p, Pow(2, m), Pow(2, m), Pow(2, (p - 1) * (m * v)), 1);
    CongruentTrans(p, 1, Pow(2, q * m * u), 1) by { CongruentSym(p, Pow(2, q * m * u), 1); }
    CongruentSym(p, Pow(2, q * m * u), Pow(2, m));
    CongruentTrans(p, Pow(2, m), Pow(2, q * m * u), 1);
  }

  lemma CongruentSym(p: nat, x: int, y: int)
    requires p > 0 && Congruent(p, x, y)
    ensures Congruent(p, y, x)
  {
  }

  lemma ExponentSplit(p: nat, q: nat, m: nat, u: nat, v: nat)
    requires p > 0 && q * u == 1 + (p - 1) * v
    ensures q * m * u == m + (p - 1) * (m * v)
  {
    assert q * m * u == m * (q * u);
    assert m * (1 + (p - 1) * v) == m + m * ((p - 1) * v);
    assert m * ((p - 1) * v) == (p - 1) * (m * v);
  }

  /** Every odd prime factor of n is 1 modulo q. */
  lemma FactorIsOne(n: nat, q: nat, m: nat, x: int, inverse: int, p: nat, c: nat)
    requires IsPrime(p) && p > 2 && c > 0 && n == p * c && IsPrime(q) && n - 1 == q * m
    requires Residue(n, n - 1, 1) && Residue(n, m, x) && Congruent(n, (x - 1) * inverse, 1)
    ensures (p - 1) % q == 0
  {
    hide Pow, Congruent, IsPrime;
    PrimePositive(q);
    CongruentFactor(p, c, Pow(2, n - 1), 1);
    CongruentFactor(p, c, Pow(2, m), x);
    CongruentFactor(p, c, (x - 1) * inverse, 1);
    if (p - 1) % q != 0 {
      OrderArgument(p, q, m);
      NoInverseOfZero(p, Pow(2, m), x, inverse);
    }
  }

  lemma NoInverseOfZero(p: nat, y: int, x: int, inverse: int)
    requires p > 2 && Congruent(p, y, 1) && Congruent(p, y, x)
    ensures !Congruent(p, (x - 1) * inverse, 1)
  {
    CongruentTrans(p, 1, y, x);
    CongruentRefl(p, -1);
    CongruentAdd(p, x, 1, -1, -1);
    CongruentRefl(p, inverse);
    CongruentMul(p, x - 1, 0, inverse, inverse);
    ZeroIsNotOne(p);
  }

  lemma ZeroIsNotOne(p: nat)
    requires p > 2
    ensures !Congruent(p, 0, 1)
  {
  }

  /** A number that is not prime has a least factor, which is prime. */
  lemma LeastFactor(n: nat, d: nat) returns (p: nat, c: nat)
    requires 2 <= d < n && n % d == 0
    ensures IsPrime(p) && n == p * c && 1 < c && p < n
    decreases d
  {
    if IsPrime(d) {
      p, c := d, n / d;
      assert n == d * c;
    } else {
      var e :| 2 <= e < d && d % e == 0;
      hide IsPrime;
      FactorOfFactor(n, d, e);
      p, c := LeastFactor(n, e);
    }
  }

  lemma FactorOfFactor(n: nat, d: nat, e: nat)
    requires d > 0 && e > 0 && n % d == 0 && d % e == 0
    ensures n % e == 0
  {
    assert n == d * (n / d) && d == e * (d / e);
    assert n == e * ((d / e) * (n / d));
    DivModUnique(n, e, (d / e) * (n / d), 0);
  }

  /** No two positive numbers have m % q for their sum and m / q for their product. */
  predicate TooFew(q: nat, m: nat)
    requires q > 0
  {
    m % q > m / q + 1 || (m % q) * (m % q) < 4 * (m / q)
  }

  /** Two factors that are both 1 modulo q are too large. */
  lemma NoTwoFactors(n: nat, q: nat, m: nat, j: nat, l: nat)
    requires q > 1 && n - 1 == q * m && n == (1 + j * q) * (1 + l * q) && j >= 1 && l >= 1
    ensures m >= q * q || !TooFew(q, m)
  {
    FactorSum(n, q, m, j, l);
    ProductAboveSum(j, l);
    if j + l < q {
      DivModUnique(m, q, j * l, j + l);
    } else {
      TimesAbove(j * l, q - 1, q);
      Distribute(q, 1, q);
    }
  }

  lemma ProductAboveSum(j: nat, l: nat)
    requires j >= 1 && l >= 1
    ensures j * l >= j + l - 1 && (j + l) * (j + l) >= 4 * (j * l)
  {
    Distribute(j, 1, l - 1);
    TimesAbove(j - 1, 0, l - 1);
    Dist(j, l, -1);
    SumSquared(j, l);
  }

  lemma SumSquared(j: int, l: int)
    ensures (j + l) * (j + l) >= 4 * (j * l)
  {
    Distribute(j, l, j + l);
    Dist(j, j, l);
    Dist(l, j, l);
    Distribute(j, l, j - l);
    Dist(j, j, -l);
    Dist(l, j, -l);
    SquareIsPositive(j - l);
    assert j * -l == -(j * l) && l * -l == -(l * l) && l * j == j * l;
  }

  lemma SquareIsPositive(x: int)
    ensures x * x >= 0
  {
  }

  lemma TimesAbove(x: int, y: int, q: int)
    requires x >= y && q >= 0
    ensures x * q >= y * q
  {
  }

  lemma FactorSum(n: nat, q: nat, m: nat, j: nat, l: nat)
    requires q > 1 && n - 1 == q * m && n == (1 + j * q) * (1 + l * q)
    ensures m == (j * l) * q + (j + l)
  {
    assert (1 + j * q) * (1 + l * q) == 1 + q * (j + l + (j * l) * q);
    assert q * m == q * (j + l + (j * l) * q);
  }

  lemma NotEven(n: nat, c: nat)
    requires n == 2 * c && n >= 2
    ensures !Residue(n, n - 1, 1)
  {
    assert Pow(2, n - 1) == 2 * Pow(2, n - 2);
    hide Pow;
    if Congruent(n, Pow(2, n - 1), 1) { CongruentFactor(2, c, Pow(2, n - 1), 1); }
  }

  /** The other factor is 1 modulo q as well. */
  lemma Cofactor(n: nat, q: nat, m: nat, p: nat, c: nat)
    requires q > 1 && n - 1 == q * m && n == p * c && p > 1 && c > 1 && (p - 1) % q == 0
    ensures (c - 1) % q == 0
  {
    var j := (p - 1) / q;
    assert p == 1 + j * q;
    assert p * c == c + (j * c) * q by { Distribute(1, j * q, c); }
    assert c - 1 == (m - j * c) * q by { Distribute(m, j * c, q); }
    DivModUnique(c - 1, q, m - j * c, 0);
  }

  /** A prime factor and its cofactor cannot both be small enough. */
  lemma FactorsTooLarge(n: nat, q: nat, m: nat, p: nat, c: nat)
    requires q > 1 && n - 1 == q * m && n == p * c && p > 1 && c > 1 && (p - 1) % q == 0
    ensures m >= q * q || !TooFew(q, m)
  {
    Cofactor(n, q, m, p, c);
    var j, l := (p - 1) / q, (c - 1) / q;
    assert p == 1 + j * q && c == 1 + l * q;
    NoTwoFactors(n, q, m, j, l);
  }

  /** Pocklington's criterion, for base 2. */
  lemma Pocklington(n: nat, q: nat, m: nat, x: int, inverse: int)
    requires n >= 2 && IsPrime(q) && n - 1 == q * m && m < q * q && TooFew(q, m)
    requires Residue(n, n - 1, 1) && Residue(n, m, x) && Congruent(n, (x - 1) * inverse, 1)
    ensures IsPrime(n)
  {
    if !IsPrime(n) {
      var d :| 2 <= d < n && n % d == 0;
      PrimePositive(q);
      hide IsPrime, Residue, Congruent;
      var p, c := LeastFactor(n, d);
      PrimePositive(p);
      NotEvenFactor(n, p, c);
      FactorIsOne(n, q, m, x, inverse, p, c);
      FactorsTooLarge(n, q, m, p, c);
    }
  }

  lemma NotEvenFactor(n: nat, p: nat, c: nat)
    requires n >= 2 && n == p * c && Residue(n, n - 1, 1)
    ensures p != 2
  {
    hide Residue;
    if p == 2 { NotEven(n, c); }
  }

  // ---------- Checking a power in steps ----------

  ghost predicate IsTwo(d: nat, t: nat) { t == Pow(2, d) }

  lemma Twos()
    ensures IsTwo(0, 1) && IsTwo(1, 2) && IsTwo(2, 4) && IsTwo(3, 8)
    ensures IsTwo(4, 16) && IsTwo(5, 32) && IsTwo(6, 64) && IsTwo(7, 128)
  {
    assert Pow(2, 4) == 16;
  }

  lemma Eighth(v: int)
    ensures Pow(v, 8) == v * v * v * v * v * v * v * v
  {
    var s := v * v;
    assert Pow(v, 1) == v && Pow(v, 2) == s;
    PowAdd(v, 2, 2);
    PowAdd(v, 4, 4);
    hide Pow;
    assert s * s == v * v * v * v;
    assert (s * s) * (s * s) == v * v * v * v * (v * v * v * v);
  }

  /** Three binary digits of the exponent at a time. */
  lemma Window(n: nat, e: nat, v: nat, d: nat, t: nat, w: nat) returns (e': nat, v': nat)
    requires n > 1 && Residue(n, e, v) && IsTwo(d, t) && (v * v * v * v * v * v * v * v * t) % n == w
    ensures Residue(n, e', v') && e' == 8 * e + d && v' == w
  {
    e', v' := 8 * e + d, w;
    PowAdd(2, e * 8, d);
    PowMul(2, e, 8);
    Eighth(v);
    hide Pow, Congruent;
    PowCongruent(n, Pow(2, e), v, 8);
    CongruentRefl(n, t);
    CongruentMul(n, Pow(Pow(2, e), 8), Pow(v, 8), t, t);
    CongruentMod(n, Pow(v, 8) * t);
    CongruentSym(n, w, Pow(v, 8) * t);
    CongruentTrans(n, Pow(2, e'), Pow(v, 8) * t, w);
  }

  lemma First(n: nat)
    requires n > 1
    ensures Residue(n, 0, 1)
  {
  }
}
