/**
 Machine words as bounded integers, and the C bit operators on them.

 Fixed-width unsigned arithmetic is written out as arithmetic modulo a power of two;
 `And`, `Or` and `Xor` are defined bit by bit, so that their relation to division and
 remainder is something to prove and not something to assume.
 */
module Words {

  type Byte = b: int | 0 <= b < 0x100
  type Word32 = w: int | 0 <= w < 0x1_0000_0000
  type Word64 = w: int | 0 <= w < 0x1_0000_0000_0000_0000

  datatype Option<+T> = None | Some(value: T)

  /** Truncation of a mathematical value to an unsigned 32-bit word. */
  function W32(x: int): Word32 { x % 0x1_0000_0000 }

  /** Truncation of a mathematical value to an unsigned 64-bit word. */
  function W64(x: int): Word64 { x % 0x1_0000_0000_0000_0000 }

  /** Truncation of a mathematical value to an unsigned 128-bit word. */
  function W128(x: int): nat { x % 0x1_0000_0000_0000_0000_0000_0000_0000_0000 }

  /** A mathematical value as a signed 32-bit int, with the wrap-around of two's complement. */
  function Signed32(x: int): (r: int)
    ensures -0x8000_0000 <= r < 0x8000_0000
    ensures -0x8000_0000 <= x < 0x8000_0000 ==> r == x
  {
    (x + 0x8000_0000) % 0x1_0000_0000 - 0x8000_0000
  }

  lemma W32Id(x: int)
    requires 0 <= x < 0x1_0000_0000
    ensures W32(x) == x
  {
  }

  lemma W64Id(x: int)
    requires 0 <= x < 0x1_0000_0000_0000_0000
    ensures W64(x) == x
  {
  }

  lemma W128Id(x: int)
    requires 0 <= x < 0x1_0000_0000_0000_0000_0000_0000_0000_0000
    ensures W128(x) == x
  {
  }

  function Pow2(k: nat): (r: nat)
    ensures r > 0
  {
    if k == 0 then 1 else 2 * Pow2(k - 1)
  }

  function Pow(z: int, e: nat): (r: int)
    ensures z >= 0 ==> r >= 0
  {
    if e == 0 then 1 else z * Pow(z, e - 1)
  }

  function And(x: nat, y: nat): (r: nat)
    ensures r <= x && r <= y
  {
    if x == 0 || y == 0 then 0
    else (if x % 2 == 1 && y % 2 == 1 then 1 else 0) + 2 * And(x / 2, y / 2)
  }

  function Or(x: nat, y: nat): nat
    decreases x + y
  {
    if x == 0 then y else if y == 0 then x
    else (if x % 2 == 1 || y % 2 == 1 then 1 else 0) + 2 * Or(x / 2, y / 2)
  }

  function Xor(x: nat, y: nat): nat
    decreases x + y
  {
    if x == 0 then y else if y == 0 then x
    else (if x % 2 == y % 2 then 0 else 1) + 2 * Xor(x / 2, y / 2)
  }

  function Shr(x: nat, k: nat): nat {
    DivNonNegative(x, Pow2(k));
    x / Pow2(k)
  }

  function Shl32(x: nat, k: nat): Word32 { W32(x * Pow2(k)) }

  function Shl64(x: nat, k: nat): Word64 { W64(x * Pow2(k)) }

  // ---------- Arithmetic helpers ----------

  lemma Pow2Add(a: nat, b: nat)
    ensures Pow2(a + b) == Pow2(a) * Pow2(b)
  {
    if a > 0 { Pow2Add(a - 1, b); assert Pow2(a + b) == 2 * Pow2(a - 1 + b); }
  }

  lemma Pow2Square(k: nat, m: nat)
    requires m == 2 * k
    ensures Pow2(m) == Pow2(k) * Pow2(k)
  {
    Pow2Add(k, k);
  }

  lemma Pow2Small()
    ensures Pow2(0) == 1 && Pow2(1) == 2 && Pow2(3) == 8 && Pow2(8) == 0x100
  {
  }

  lemma Pow2Consts()
    ensures Pow2(8) == 0x100 && Pow2(16) == 0x1_0000 && Pow2(26) == 0x400_0000
    ensures Pow2(32) == 0x1_0000_0000 && Pow2(51) == 0x8_0000_0000_0000
    ensures Pow2(64) == 0x1_0000_0000_0000_0000
    ensures Pow2(128) == 0x1_0000_0000_0000_0000_0000_0000_0000_0000
  {
    hide Pow2;
    Pow2Small();
    Pow2Square(8, 16);
    Pow2Square(16, 32);
    Pow2Square(32, 64);
    Pow2Square(64, 128);
    Pow2Add(16, 3);
    Pow2Add(32, 19);
    Pow2Add(16, 10);
    Pow2Ten();
  }

  lemma Pow2Ten()
    ensures Pow2(10) == 0x400
  {
  }

  /** Euclidean division is the only way to write x as q * d + r. */
  lemma DivModUnique(x: int, d: int, q: int, r: int)
    requires 0 <= r < d && x == q * d + r
    ensures x / d == q && x % d == r
  {
    var q', r' := x / d, x % d;
    assert x == q' * d + r';
    assert (q - q') * d == r' - r by { assert (q - q') * d == q * d - q' * d; }
    assert (q - q') * d == -((q' - q) * d);
    if q > q' { MulMono(1, q - q', d); }
    if q < q' { MulMono(1, q' - q, d); }
  }

  lemma DivNonNegative(x: nat, d: nat)
    requires d > 0
    ensures x / d >= 0
  {
    var q := x / d;
    assert x == q * d + x % d;
    if q < 0 { MulMono(q, -1, d); }
  }

  lemma MulMono(a: int, b: int, c: int)
    requires a <= b && 0 <= c
    ensures a * c <= b * c
  {
    assert 0 <= (b - a) * c;
    assert (b - a) * c == b * c - a * c;
  }

  /** x mod (d * e) splits into a low digit in base d and a high digit mod e. */
  lemma ModSplit(x: nat, d: nat, e: nat)
    requires d > 0 && e > 0
    ensures d * e > 0
    ensures x % (d * e) == x % d + d * (x / d % e)
  {
    var q := x / d;
    assert q == q / e * e + q % e;
    assert x == q * d + x % d;
    var r := x % d + d * (q % e);
    assert d * (q % e) <= d * (e - 1) by { MulMono(q % e, e - 1, d); }
    assert d * (e - 1) == d * e - d;
    assert (q / e * e + q % e) * d == q / e * (d * e) + d * (q % e) by {
      assert (q / e * e + q % e) * d == (q / e * e) * d + (q % e) * d;
      assert (q / e * e) * d == q / e * (e * d);
    }
    DivModUnique(x, d * e, q / e, r);
  }

  // ---------- Bit operators against arithmetic ----------

  lemma {:induction false} AndMask(x: nat, k: nat)
    ensures And(x, Pow2(k) - 1) == x % Pow2(k)
  {
    hide And;
    if k == 0 {
      AndZero(x);
    } else {
      AndMask(x / 2, k - 1);
      AndMaskStep(x, Pow2(k - 1));
    }
  }

  lemma AndMaskStep(x: nat, p: nat)
    requires p > 0 && And(x / 2, p - 1) == x / 2 % p
    ensures And(x, 2 * p - 1) == x % (2 * p)
  {
    hide And;
    ModSplit(x, 2, p);
    OddHalf(p);
    AndUnfold(x, 2 * p - 1);
  }

  lemma OddHalf(p: nat)
    requires p > 0
    ensures (2 * p - 1) / 2 == p - 1 && (2 * p - 1) % 2 == 1
  {
  }

  /** A mask below 2^k only sees the low k bits. */
  lemma {:induction false} AndLow(x: nat, m: nat, k: nat)
    requires m < Pow2(k)
    ensures And(x, m) == And(x % Pow2(k), m)
  {
    hide And;
    if k == 0 {
      AndZero(x);
    } else {
      AndLow(x / 2, m / 2, k - 1);
      AndLowStep(x, m, Pow2(k - 1));
    }
  }

  lemma AndLowStep(x: nat, m: nat, p: nat)
    requires p > 0 && And(x / 2, m / 2) == And(x / 2 % p, m / 2)
    ensures And(x, m) == And(x % (2 * p), m)
  {
    hide And;
    ModSplit(x, 2, p);
    var y := x % (2 * p);
    assert y % 2 == x % 2 && y / 2 == x / 2 % p;
    AndUnfold(x, m);
    AndUnfold(y, m);
  }

  /** And acts on the low k bits and on the rest independently. */
  lemma {:induction false} AndSplit(k: nat, a: nat, b: nat, m: nat, n: nat)
    requires a < Pow2(k) && m < Pow2(k)
    ensures And(a + Pow2(k) * b, m + Pow2(k) * n) == And(a, m) + Pow2(k) * And(b, n)
  {
    hide And;
    if k == 0 { AndZero(0); }
    if k > 0 {
      var p := Pow2(k - 1);
      AndSplit(k - 1, a / 2, b, m / 2, n);
      AndSplitStep(a, m, p, b, n, And(b, n));
    }
  }

  lemma AndSplitStep(a: nat, m: nat, p: nat, b: nat, n: nat, c: nat)
    requires And(a / 2 + p * b, m / 2 + p * n) == And(a / 2, m / 2) + p * c
    ensures And(a + (2 * p) * b, m + (2 * p) * n) == And(a, m) + (2 * p) * c
  {
    hide And;
    Halve(a, p, b);
    Halve(m, p, n);
    Mul3(2, p, c);
    AndUnfold(a + (2 * p) * b, m + (2 * p) * n);
    AndUnfold(a, m);
  }

  lemma AndZero(x: nat)
    ensures And(x, 0) == 0 && And(0, x) == 0
  {
  }

  lemma AndUnfold(x: nat, y: nat)
    ensures And(x, y) == (if x % 2 == 1 && y % 2 == 1 then 1 else 0) + 2 * And(x / 2, y / 2)
  {
  }

  lemma Halve(a: nat, p: nat, b: nat)
    ensures (2 * p) * b == 2 * (p * b) && p * b >= 0
    ensures (a + (2 * p) * b) / 2 == a / 2 + p * b && (a + (2 * p) * b) % 2 == a % 2
  {
    Mul3(2, p, b);
    HalveSum(a, p * b);
  }

  lemma Mul3(a: int, b: int, c: int)
    ensures (a * b) * c == a * (b * c)
  {
  }

  lemma HalveSum(a: nat, u: nat)
    ensures (a + 2 * u) / 2 == a / 2 + u && (a + 2 * u) % 2 == a % 2
  {
  }

  lemma OrDisjoint(k: nat, a: nat, b: nat)
    requires a < Pow2(k)
    ensures Or(a, Pow2(k) * b) == a + Pow2(k) * b
  {
    if k > 0 {
      var p := Pow2(k - 1);
      OrDisjoint(k - 1, a / 2, b);
      Halve(0, p, b);
    }
  }

  lemma XorZero(x: nat)
    ensures Xor(x, 0) == x && Xor(0, x) == x && Xor(x, x) == 0
  {
    if x > 0 { XorZero(x / 2); }
  }

  lemma XorUnfold(x: nat, y: nat)
    ensures Xor(x, y) == (if x % 2 == y % 2 then 0 else 1) + 2 * Xor(x / 2, y / 2)
  {
    XorZero(x / 2);
    XorZero(y / 2);
  }

  /** Xor-ing the same key twice gives the input back. */
  lemma {:induction false} XorCancel(x: nat, y: nat)
    ensures Xor(Xor(x, y), y) == x
    decreases x + y
  {
    if x == 0 && y == 0 {
    } else {
      hide Xor;
      XorCancel(x / 2, y / 2);
      XorUnfold(x, y);
      var z := Xor(x, y);
      assert z / 2 == Xor(x / 2, y / 2) && (z % 2 == 0 <==> x % 2 == y % 2);
      XorUnfold(z, y);
    }
  }

  lemma XorBound(x: nat, y: nat, k: nat)
    requires x < Pow2(k) && y < Pow2(k)
    ensures Xor(x, y) < Pow2(k)
  {
    if k > 0 { XorBound(x / 2, y / 2, k - 1); XorUnfold(x, y); } else { XorZero(0); }
  }

  lemma XorEqZero(x: nat, y: nat)
    ensures Xor(x, y) == 0 <==> x == y
  {
    XorZero(y);
    XorCancel(x, y);
  }

  lemma OrZero(x: nat, y: nat)
    ensures Or(x, y) == 0 <==> x == 0 && y == 0
    decreases x + y
  {
    if x > 0 && y > 0 { OrZero(x / 2, y / 2); }
  }

  lemma OrBound(x: nat, y: nat, k: nat)
    requires x < Pow2(k) && y < Pow2(k)
    ensures Or(x, y) < Pow2(k)
  {
    if k > 0 && x > 0 && y > 0 { OrBound(x / 2, y / 2, k - 1); }
  }

  /** (x * c) mod (d * c) == (x mod d) * c. */
  lemma ModScale(x: nat, d: nat, c: nat)
    requires d > 0 && c > 0
    ensures d * c > 0 && (x * c) % (d * c) == (x % d) * c
  {
    var q := x / d;
    assert x == q * d + x % d;
    assert x * c == q * (d * c) + (x % d) * c by {
      assert (q * d + x % d) * c == (q * d) * c + (x % d) * c;
      assert (q * d) * c == q * (d * c);
    }
    MulMono(x % d, d - 1, c);
    assert (d - 1) * c == d * c - c;
    DivModUnique(x * c, d * c, q, (x % d) * c);
  }

  /** A quotient by 2^k of a w-bit word has w - k bits. */
  lemma ShrBound(w: nat, k: nat, x: nat)
    requires k <= w && x < Pow2(w)
    ensures Shr(x, k) < Pow2(w - k)
  {
    hide Pow2;
    Pow2Add(k, w - k);
    QuotientBound(x, Pow2(k), Pow2(w - k));
  }

  lemma QuotientBound(x: nat, d: nat, c: nat)
    requires d > 0 && x < d * c
    ensures x / d < c
  {
    var q := x / d;
    assert x == q * d + x % d;
    if q >= c { MulMono(c, q, d); }
  }

  /** A j-bit value joined, in a w-bit word, with another value shifted above it. */
  lemma OrShifted(w: nat, j: nat, a: nat, b: nat)
    requires j <= w && a < Pow2(j)
    ensures Or(a, (b * Pow2(j)) % Pow2(w)) == a + Pow2(j) * (b % Pow2(w - j)) < Pow2(w)
  {
    hide Pow2, Or;
    var c, d := Pow2(j), Pow2(w - j);
    Pow2Add(w - j, j);
    ModScale(b, d, c);
    var h := b % d;
    MulComm(h, c);
    OrDisjoint(j, a, h);
    JoinBound(a, h, c, d);
  }

  /**
   Joining two adjacent w-bit words: the top w - k bits of `lo` followed by the
   bottom k bits of `hi`.
   */
  lemma StraddleWord(w: nat, k: nat, lo: nat, hi: nat)
    requires k <= w && lo < Pow2(w)
    ensures Or(Shr(lo, k), (hi * Pow2(w - k)) % Pow2(w))
         == lo / Pow2(k) + Pow2(w - k) * (hi % Pow2(k)) < Pow2(w)
  {
    hide Pow2, Or;
    ShrBound(w, k, lo);
    OrShifted(w, w - k, Shr(lo, k), hi);
  }

  lemma OrComm(x: nat, y: nat)
    ensures Or(x, y) == Or(y, x)
    decreases x + y
  {
    if x > 0 && y > 0 { OrComm(x / 2, y / 2); }
  }

  /** Rotation of a 32-bit word by n places to the right: the low n bits come out on top. */
  function Ror32(x: Word32, n: nat): Word32
    requires n <= 32
  {
    RotateIsOr(x, n);
    x / Pow2(n) + Pow2(32 - n) * (x % Pow2(n))
  }

  /** The two shifts and the or that C programs write for it. */
  lemma RotateIsOr(x: Word32, n: nat)
    requires n <= 32
    ensures Or(Shr(x, n), Shl32(x, 32 - n)) == x / Pow2(n) + Pow2(32 - n) * (x % Pow2(n)) < 0x1_0000_0000
    ensures Or(Shl32(x, 32 - n), Shr(x, n)) == x / Pow2(n) + Pow2(32 - n) * (x % Pow2(n))
  {
    Pow2Consts();
    hide Pow2, Or;
    StraddleWord(32, n, x, x);
    OrComm(Shr(x, n), Shl32(x, 32 - n));
  }

  lemma MulComm(a: int, b: int)
    ensures a * b == b * a
  {
  }

  lemma JoinBound(a: nat, h: nat, c: nat, d: nat)
    requires a < c && h < d
    ensures a + c * h < d * c
  {
    MulComm(h, c);
    MulMono(h, d - 1, c);
    assert (d - 1) * c == d * c - c;
  }

  /** The low m bits of such a joined word. */
  lemma Straddle(w: nat, k: nat, m: nat, lo: nat, hi: nat)
    requires k <= w && w - k <= m <= w
    requires lo < Pow2(w)
    ensures Or(Shr(lo, k), (hi * Pow2(w - k)) % Pow2(w)) % Pow2(m)
         == lo / Pow2(k) + Pow2(w - k) * (hi % Pow2(m - (w - k)))
  {
    hide Pow2, Or;
    var j := w - k;
    var a, c, h := Shr(lo, k), Pow2(j), hi % Pow2(k);
    StraddleWord(w, k, lo, hi);
    ShrBound(w, k, lo);
    Pow2Add(j, m - j);
    var v := a + c * h;
    MulComm(h, c);
    DivModUnique(v, c, h, a);
    ModSplit(v, c, Pow2(m - j));
    ModMod(hi, m - j, k);
  }

  lemma ModMod(x: nat, a: nat, b: nat)
    requires a <= b
    ensures x % Pow2(b) % Pow2(a) == x % Pow2(a)
  {
    Pow2Add(a, b - a);
    var d, e := Pow2(a), Pow2(b - a);
    ModSplit(x, d, e);
    DivModUnique(x % (d * e), d, x / d % e, x % d);
  }

  // ---------- Little-endian numbers ----------

  /** The number a byte string denotes, least significant byte first. */
  function Le(s: seq<Byte>): nat
  {
    if s == [] then 0 else s[0] as int + 0x100 * Le(s[1..])
  }

  /** The n-byte little-endian representation of v modulo 256^n. */
  function PutLe(v: nat, n: nat): (s: seq<Byte>)
    ensures |s| == n
  {
    if n == 0 then [] else [v % 0x100] + PutLe(v / 0x100, n - 1)
  }

  lemma LeBound(s: seq<Byte>)
    ensures Le(s) < Pow2(8 * |s|)
  {
    if s != [] {
      LeBound(s[1..]);
      Pow2Add(8, 8 * (|s| - 1));
      assert Pow2(8) == 0x100;
    }
  }

  lemma {:induction false} LeConcat(a: seq<Byte>, b: seq<Byte>)
    ensures Le(a + b) == Le(a) + Pow2(8 * |a|) * Le(b)
  {
    if a == [] {
      assert a + b == b;
    } else {
      hide Pow2, Le;
      LeConcat(a[1..], b);
      LeConcatStep(a, b, Pow2(8 * (|a| - 1)) * Le(b));
      ByteShift(8 * (|a| - 1), Le(b));
    }
  }

  lemma LeConcatStep(a: seq<Byte>, b: seq<Byte>, t: int)
    requires a != [] && Le(a[1..] + b) == Le(a[1..]) + t
    ensures Le(a + b) == Le(a) + 0x100 * t
  {
    assert (a + b)[1..] == a[1..] + b;
  }

  lemma ByteShift(k: nat, x: int)
    ensures 0x100 * (Pow2(k) * x) == Pow2(k + 8) * x
  {
    hide Pow2;
    Pow2Add(8, k);
    Pow2Small();
    Mul3(0x100, Pow2(k), x);
  }

  lemma LePut(v: nat, n: nat)
    ensures Le(PutLe(v, n)) == v % Pow2(8 * n)
  {
    if n > 0 {
      LePut(v / 0x100, n - 1);
      Pow2Add(8, 8 * (n - 1));
      assert Pow2(8) == 0x100;
      ModSplit(v, 0x100, Pow2(8 * (n - 1)));
      assert PutLe(v, n)[1..] == PutLe(v / 0x100, n - 1);
    }
  }

  lemma DivDiv(x: nat, a: nat, b: nat)
    requires a > 0 && b > 0
    ensures a * b > 0 && x / a / b == x / (a * b)
  {
    var q, r := x / a, x % a;
    var p, s := q / b, q % b;
    assert q == p * b + s;
    assert x == q * a + r;
    Mul3(p, b, a);
    MulComm(a, b);
    MulMono(s, b - 1, a);
    assert (b - 1) * a == b * a - a;
    assert (p * b + s) * a == (p * b) * a + s * a;
    DivModUnique(x, a * b, p, s * a + r);
  }

  /** Byte n of a little-endian number. */
  lemma {:induction false} PutLeAppend(v: nat, n: nat)
    ensures PutLe(v, n + 1) == PutLe(v, n) + [v / Pow2(8 * n) % 0x100]
  {
    if n == 0 {
    } else {
      PutLeAppend(v / 0x100, n - 1);
      ByteOfQuotient(v, n);
      hide Pow2;
      assert PutLe(v, n + 1) == [v % 0x100] + PutLe(v / 0x100, n);
      assert PutLe(v, n) == [v % 0x100] + PutLe(v / 0x100, n - 1);
    }
  }

  lemma ByteOfQuotient(v: nat, n: nat)
    requires n > 0
    ensures v / 0x100 / Pow2(8 * (n - 1)) == v / Pow2(8 * n)
  {
    hide Pow2;
    Pow2Add(8, 8 * (n - 1));
    Pow2Small();
    DivDiv(v, 0x100, Pow2(8 * (n - 1)));
  }

  /** Byte strings of the same length are equal when they denote the same number. */
  lemma LeInjective(a: seq<Byte>, b: seq<Byte>)
    requires |a| == |b| && Le(a) == Le(b)
    ensures a == b
  {
    if a != [] {
      assert a[0] == b[0] && Le(a[1..]) == Le(b[1..]);
      LeInjective(a[1..], b[1..]);
      assert a == [a[0]] + a[1..] && b == [b[0]] + b[1..];
    }
  }

  /** le32: four bytes, least significant first. */
  function Le32(s: seq<Byte>): (w: Word32)
    requires |s| >= 4
    ensures w == Le(s[..4])
  {
    LeUnfold4(s[..4]);
    s[0] as int + 0x100 * s[1] as int + 0x1_0000 * s[2] as int + 0x100_0000 * s[3] as int
  }

  lemma LeUnfold4(s: seq<Byte>)
    requires |s| == 4
    ensures Le(s) == s[0] as int + 0x100 * s[1] as int + 0x1_0000 * s[2] as int + 0x100_0000 * s[3] as int
  {
    var s1 := s[1..];
    var s2 := s1[1..];
    var s3 := s2[1..];
    assert s1[0] == s[1] && s2[0] == s[2] && s3[0] == s[3] && s3[1..] == [];
    assert Le(s3) == s3[0] as int;
    assert Le(s2) == s2[0] as int + 0x100 * Le(s3);
    assert Le(s1) == s1[0] as int + 0x100 * Le(s2);
  }

  // ---------- Big-endian words ----------

  /** A 32-bit word, most significant byte first. */
  function PutBe32(v: Word32): (s: seq<Byte>)
    ensures |s| == 4
  {
    [v / 0x100_0000, v / 0x1_0000 % 0x100, v / 0x100 % 0x100, v % 0x100]
  }

  /** The word at the front of a byte string. */
  function GetBe32(s: seq<Byte>): Word32
    requires |s| >= 4
  {
    s[0] as int * 0x100_0000 + s[1] as int * 0x1_0000 + s[2] as int * 0x100 + s[3] as int
  }

  lemma Be32RoundTrip(v: Word32, rest: seq<Byte>)
    ensures GetBe32(PutBe32(v) + rest) == v
  {
    var a := v / 0x100;
    var b := a / 0x100;
    DivDiv(v, 0x100, 0x100);
    DivDiv(v, 0x1_0000, 0x100);
    assert v == 0x100 * a + v % 0x100 && a == 0x100 * b + a % 0x100 && b == 0x100 * (b / 0x100) + b % 0x100;
  }

  lemma Be32Prefix(s: seq<Byte>, n: nat)
    requires 4 <= n <= |s|
    ensures GetBe32(s[..n]) == GetBe32(s)
  {
  }

  /** n zero bytes. */
  function Zeros(n: nat): (s: seq<Byte>)
    ensures |s| == n
  {
    seq(n, _ => 0)
  }
}
