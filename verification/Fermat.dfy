/** Fermat's little theorem, which is why raising to the power p - 2 inverts modulo a prime p. */
module Fermat {
  import opened Words

  lemma {:induction false} PowAdd(z: int, m: nat, n: nat)
    ensures Pow(z, m + n) == Pow(z, m) * Pow(z, n)
  {
    if m > 0 {
      PowAdd(z, m - 1, n);
      assert z * (Pow(z, m - 1) * Pow(z, n)) == z * Pow(z, m - 1) * Pow(z, n);
    }
  }

  ghost predicate IsPrime(p: int) { p >= 2 && forall d :: 2 <= d < p ==> p % d != 0 }

  /** p divides x. */
  ghost predicate Divides(p: int, x: int)
    requires p > 0
  {
    exists q: int :: x == q * p
  }

  lemma DividesMod(p: int, x: int)
    requires p > 0
    ensures Divides(p, x) <==> x % p == 0
  {
    if x % p == 0 {
      assert x == (x / p) * p;
    }
    if Divides(p, x) {
      var q: int :| x == q * p;
      DivModUnique(x, p, q, 0);
    }
  }

  lemma DividesMul(p: int, x: int, c: int)
    requires p > 0 && Divides(p, x)
    ensures Divides(p, x * c)
  {
    var q: int :| x == q * p;
    MulSwap(q, p, c);
    assert x * c == (q * c) * p;
  }

  lemma MulSwap(a: int, b: int, c: int)
    ensures (a * b) * c == (a * c) * b
  {
  }

  lemma DividesSum(p: int, x: int, y: int)
    requires p > 0 && Divides(p, x) && Divides(p, y)
    ensures Divides(p, x + y) && Divides(p, x - y)
  {
    var q: int :| x == q * p;
    var r: int :| y == r * p;
    Distribute(q, r, p);
    assert x + y == (q + r) * p && x - y == (q - r) * p;
  }

  lemma Distribute(a: int, b: int, c: int)
    ensures (a + b) * c == a * c + b * c && (a - b) * c == a * c - b * c
  {
  }

  /** A prime that divides a product with a smaller factor divides the other one. */
  lemma {:induction false} Euclid(p: int, k: int, c: int)
    requires IsPrime(p) && 0 < k < p && Divides(p, k * c)
    ensures Divides(p, c)
    decreases k
  {
    hide IsPrime, Divides;
    if k == 1 {
      assert k * c == c;
    } else {
      var q, r := p / k, p % k;
      SmallerRemainder(p, k);
      assert p == q * k + r;
      DividesMul(p, k * c, q);
      Itself(p, c);
      RemainderTimes(p, k, q, r, c);
      DividesSum(p, p * c, (k * c) * q);
      Euclid(p, r, c);
    }
  }

  lemma SmallerRemainder(p: int, k: int)
    requires IsPrime(p) && 2 <= k < p
    ensures 0 < p % k < k
  {
  }

  lemma Itself(p: int, c: int)
    requires p > 0
    ensures Divides(p, p * c)
  {
    assert p * c == c * p;
  }

  lemma RemainderTimes(p: int, k: int, q: int, r: int, c: int)
    requires p == q * k + r
    ensures p * c - (k * c) * q == r * c
  {
    Distribute(q * k, r, c);
    assert (q * k) * c == (k * c) * q;
  }

  // ---------- Binomials ----------

  function Binom(n: nat, k: nat): nat {
    if k == 0 then 1 else if n == 0 then 0 else Binom(n - 1, k - 1) + Binom(n - 1, k)
  }

  lemma {:induction false} BinomEnds(n: nat, k: nat)
    requires k >= n
    ensures Binom(n, k) == if k == n then 1 else 0
  {
    if n > 0 {
      BinomEnds(n - 1, k - 1);
      BinomEnds(n - 1, k);
    }
  }

  /** k choose(n, k) = n choose(n - 1, k - 1) */
  lemma {:induction false} Absorption(n: nat, k: nat)
    requires 0 < k && 0 < n
    ensures k * Binom(n, k) == n * Binom(n - 1, k - 1)
  {
    if n == 1 {
      BinomEnds(1, k);
      BinomEnds(0, k - 1);
    } else if k == 1 {
      BinomOne(n);
    } else {
      Absorption(n - 1, k);
      Absorption(n - 1, k - 1);
      AbsorptionSum(n, k, Binom(n - 1, k - 1), Binom(n - 1, k), Binom(n - 2, k - 1), Binom(n - 2, k - 2));
    }
  }

  lemma {:induction false} BinomOne(n: nat)
    ensures Binom(n, 1) == n
  {
    if n > 0 { BinomOne(n - 1); }
  }

  lemma AbsorptionSum(n: int, k: int, a: int, b: int, c: int, d: int)
    requires k * b == (n - 1) * c && (k - 1) * a == (n - 1) * d && a == d + c
    ensures k * (a + b) == n * a
  {
    Distribute(k - 1, 1, a);
    Distribute(n - 1, 1, a);
    assert (n - 1) * a == (n - 1) * d + (n - 1) * c;
    assert k * (a + b) == k * a + k * b;
  }

  /** The inner binomials of a prime are its multiples. */
  lemma PrimeDividesBinom(p: int, k: int)
    requires IsPrime(p) && 0 < k < p
    ensures Divides(p, Binom(p, k))
  {
    hide IsPrime, Divides, Binom;
    assert p > 0 by { PrimePositive(p); }
    Absorption(p, k);
    Itself(p, Binom(p - 1, k - 1));
    Euclid(p, k, Binom(p, k));
  }

  lemma PrimePositive(p: int)
    requires IsPrime(p)
    ensures p >= 2
  {
  }

  // ---------- The binomial theorem ----------

  /** The terms of (a + 1)^n below power m. */
  ghost function Terms(a: int, n: nat, m: nat): int {
    if m == 0 then 0 else Terms(a, n, m - 1) + Binom(n, m - 1) * Pow(a, m - 1)
  }

  lemma FirstTerm(a: int, n: nat)
    ensures Terms(a, n, 0) == 0 && Terms(a, n, 1) == 1
  {
    assert Terms(a, n, 0) == 0 && Binom(n, 0) == 1 && Pow(a, 0) == 1;
  }

  /** Pascal's rule, term by term. */
  lemma {:induction false} TermsStep(a: int, n: nat, m: nat)
    requires n > 0
    ensures Terms(a, n, m + 1) == Terms(a, n - 1, m + 1) + a * Terms(a, n - 1, m)
  {
    if m == 0 {
      FirstTerm(a, n);
      FirstTerm(a, n - 1);
    } else {
      TermsStep(a, n, m - 1);
      PascalTerm(a, Binom(n - 1, m - 1), Binom(n - 1, m), Pow(a, m - 1), Terms(a, n - 1, m - 1));
    }
  }

  lemma PascalTerm(a: int, c: int, d: int, x: int, t: int)
    ensures (c + d) * (a * x) + a * t == d * (a * x) + a * (t + c * x)
  {
    Distribute(c, d, a * x);
    assert a * (t + c * x) == a * t + a * (c * x);
    assert a * (c * x) == c * (a * x);
  }

  lemma TermsPastEnd(a: int, n: nat)
    ensures Terms(a, n, n + 2) == Terms(a, n, n + 1)
  {
    BinomEnds(n, n + 1);
  }

  lemma {:induction false} BinomialTheorem(a: int, n: nat)
    ensures Pow(a + 1, n) == Terms(a, n, n + 1)
  {
    if n == 0 {
      FirstTerm(a, 0);
    } else {
      BinomialTheorem(a, n - 1);
      TermsStep(a, n, n);
      TermsPastEnd(a, n - 1);
      Distribute(a, 1, Pow(a + 1, n - 1));
    }
  }

  /** Modulo a prime only the first of the terms below p survives. */
  lemma {:induction false} InnerTermsVanish(a: int, p: int, m: nat)
    requires IsPrime(p) && 0 < m <= p
    ensures p > 0 && Divides(p, Terms(a, p, m) - 1)
  {
    PrimePositive(p);
    hide IsPrime, Divides;
    if m == 1 {
      FirstTerm(a, p);
      Itself(p, 0);
    } else {
      InnerTermsVanish(a, p, m - 1);
      PrimeDividesBinom(p, m - 1);
      DividesMul(p, Binom(p, m - 1), Pow(a, m - 1));
      hide Binom, Pow;
      DividesSum(p, Terms(a, p, m - 1) - 1, Binom(p, m - 1) * Pow(a, m - 1));
    }
  }

  lemma FreshmansDream(a: int, p: int)
    requires IsPrime(p)
    ensures p > 0 && Divides(p, Pow(a + 1, p) - Pow(a, p) - 1)
  {
    PrimePositive(p);
    hide IsPrime, Divides, Pow;
    BinomialTheorem(a, p);
    BinomEnds(p, p);
    InnerTermsVanish(a, p, p);
  }

  /** a^p = a modulo p. */
  lemma {:induction false} LittleTheorem(a: nat, p: int)
    requires IsPrime(p)
    ensures p > 0 && Divides(p, Pow(a, p) - a)
  {
    PrimePositive(p);
    hide IsPrime, Divides;
    if a == 0 {
      assert Pow(0, p) == 0;
      Itself(p, 0);
    } else {
      hide Pow;
      LittleTheorem(a - 1, p);
      FreshmansDream(a - 1, p);
      DividesSum(p, Pow(a, p) - Pow(a - 1, p) - 1, Pow(a - 1, p) - (a - 1));
    }
  }

  lemma {:induction false} PowMod(x: int, y: int, p: int, e: nat)
    requires p > 0 && Divides(p, x - y)
    ensures Divides(p, Pow(x, e) - Pow(y, e))
  {
    hide Divides;
    if e == 0 {
      Itself(p, 0);
    } else {
      PowMod(x, y, p, e - 1);
      var u, v := Pow(x, e - 1), Pow(y, e - 1);
      DividesMul(p, u - v, x);
      DividesMul(p, x - y, v);
      DividesSum(p, (u - v) * x, (x - y) * v);
      assert (u - v) * x + (x - y) * v == x * u - y * v by {
        Distribute(u, v, x);
        Distribute(x, y, v);
      }
    }
  }

  /** Raising to the power p - 2 inverts everything that has an inverse. */
  lemma InverseModPrime(z: int, p: int)
    requires IsPrime(p) && z % p != 0
    ensures (z * Pow(z, p - 2)) % p == 1
  {
    PrimePositive(p);
    var k := z % p;
    assert z - k == (z / p) * p;
    assert Divides(p, z - k);
    LittleTheorem(k, p);
    assert Pow(k, p) == k * Pow(k, p - 1);
    assert Pow(z, p - 1) == z * Pow(z, p - 2);
    PowMod(z, k, p, p - 1);
    hide Pow, IsPrime, Divides;
    assert k * (Pow(k, p - 1) - 1) == k * Pow(k, p - 1) - k;
    Euclid(p, k, Pow(k, p - 1) - 1);
    DividesSum(p, Pow(z, p - 1) - Pow(k, p - 1), Pow(k, p - 1) - 1);
    DividesMod(p, Pow(z, p - 1) - 1);
    OneMore(Pow(z, p - 1), p);
  }

  lemma OneMore(x: int, p: int)
    requires p >= 2 && (x - 1) % p == 0
    ensures x % p == 1
  {
    DivModUnique(x, p, (x - 1) / p, 1);
  }
}
