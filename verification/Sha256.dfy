/** Streaming SHA-256 against the padded message of section 5.1.1 of FIPS 180-4. */
module Sha256 {
  import opened Words

  type Hash8 = h: seq<Word32> | |h| == 8 witness seq(8, _ => 0)
  type Block64 = b: seq<Byte> | |b| == 64 witness seq(64, _ => 0)

  // ---------- The compression function ----------

  function KRow(r: nat): (s: seq<Word32>)
    requires r < 8
    ensures |s| == 8
  {
    if r == 0 then [0x428a2f98, 0x71374491, 0xb5c0fbcf, 0xe9b5dba5, 0x3956c25b, 0x59f111f1, 0x923f82a4, 0xab1c5ed5]
    else if r == 1 then
      [0xd807aa98, 0x12835b01, 0x243185be, 0x550c7dc3, 0x72be5d74, 0x80deb1fe, 0x9bdc06a7, 0xc19bf174]
    else if r == 2 then
      [0xe49b69c1, 0xefbe4786, 0x0fc19dc6, 0x240ca1cc, 0x2de92c6f, 0x4a7484aa, 0x5cb0a9dc, 0x76f988da]
    else if r == 3 then
      [0x983e5152, 0xa831c66d, 0xb00327c8, 0xbf597fc7, 0xc6e00bf3, 0xd5a79147, 0x06ca6351, 0x14292967]
    else if r == 4 then
      [0x27b70a85, 0x2e1b2138, 0x4d2c6dfc, 0x53380d13, 0x650a7354, 0x766a0abb, 0x81c2c92e, 0x92722c85]
    else if r == 5 then
      [0xa2bfe8a1, 0xa81a664b, 0xc24b8b70, 0xc76c51a3, 0xd192e819, 0xd6990624, 0xf40e3585, 0x106aa070]
    else if r == 6 then
      [0x19a4c116, 0x1e376c08, 0x2748774c, 0x34b0bcb5, 0x391c0cb3, 0x4ed8aa4a, 0x5b9cca4f, 0x682e6ff3]
    else [0x748f82ee, 0x78a5636f, 0x84c87814, 0x8cc70208, 0x90befffa, 0xa4506ceb, 0xbef9a3f7, 0xc67178f2]
  }

  /** The round constants, eight to a row. */
  function K(i: nat): Word32
    requires i < 64
  {
    KRow(i / 8)[i % 8]
  }

  /** The initial hash value. */
  function IV(): Hash8 {
    [0x6a09e667, 0xbb67ae85, 0x3c6ef372, 0xa54ff53a, 0x510e527f, 0x9b05688c, 0x1f83d9ab, 0x5be0cd19]
  }

  function Not(x: Word32): Word32 { 0xFFFF_FFFF - x }
  function Xor3(x: nat, y: nat, z: nat): nat { Xor(Xor(x, y), z) }
  function Ch(x: Word32, y: Word32, z: Word32): nat { Xor(And(x, y), And(Not(x), z)) }
  function Maj(x: Word32, y: Word32, z: Word32): nat { Xor3(And(x, y), And(x, z), And(y, z)) }
  function Ep0(x: Word32): nat { Xor3(Ror32(x, 2), Ror32(x, 13), Ror32(x, 22)) }
  function Ep1(x: Word32): nat { Xor3(Ror32(x, 6), Ror32(x, 11), Ror32(x, 25)) }
  function Sig0(x: Word32): nat { Xor3(Ror32(x, 7), Ror32(x, 18), Shr(x, 3)) }
  function Sig1(x: Word32): nat { Xor3(Ror32(x, 17), Ror32(x, 19), Shr(x, 10)) }

  function Schedule(block: Block64, n: nat): (w: seq<Word32>)
    requires n <= 64
    ensures |w| == n
    decreases n
  {
    if n == 0 then []
    else
      var w := Schedule(block, n - 1);
      var i := n - 1;
      w + [if i < 16 then GetBe32(block[4 * i..])
           else W32(Sig1(w[i - 2]) + w[i - 7] as int + Sig0(w[i - 15]) + w[i - 16] as int)]
  }

  function Round(v: Hash8, k: Word32, w: Word32): Hash8 {
    var t1 := W32(v[7] as int + Ep1(v[4]) + Ch(v[4], v[5], v[6]) + k as int + w as int);
    var t2 := W32(Ep0(v[0]) + Maj(v[0], v[1], v[2]));
    [W32(t1 as int + t2 as int), v[0], v[1], v[2], W32(v[3] as int + t1 as int), v[4], v[5], v[6]]
  }

  function Rounds(v: Hash8, w: seq<Word32>, n: nat): Hash8
    requires |w| == 64 && n <= 64
    decreases n
  {
    hide Round;
    if n == 0 then v else Round(Rounds(v, w, n - 1), K(n - 1), w[n - 1])
  }

  /** Section 6.2.2 of FIPS 180-4. */
  function Compress(state: Hash8, block: Block64): Hash8 {
    hide Rounds, Schedule;
    Sums(state, Rounds(state, Schedule(block, 64), 64))
  }

  function Sums(u: Hash8, v: Hash8): (s: Hash8)
    ensures forall i :: 0 <= i < 8 ==> s[i] == W32(u[i] as int + v[i] as int)
  {
    seq(8, i requires 0 <= i < 8 => W32(u[i] as int + v[i] as int))
  }

  // ---------- Where the constants come from ----------

  function PrimeRow(r: nat): (s: seq<nat>)
    requires r < 8
    ensures |s| == 8
  {
    if r == 0 then [2, 3, 5, 7, 11, 13, 17, 19]
    else if r == 1 then [23, 29, 31, 37, 41, 43, 47, 53]
    else if r == 2 then [59, 61, 67, 71, 73, 79, 83, 89]
    else if r == 3 then [97, 101, 103, 107, 109, 113, 127, 131]
    else if r == 4 then [137, 139, 149, 151, 157, 163, 167, 173]
    else if r == 5 then [179, 181, 191, 193, 197, 199, 211, 223]
    else if r == 6 then [227, 229, 233, 239, 241, 251, 257, 263]
    else [269, 271, 277, 281, 283, 293, 307, 311]
  }

  /** The first 64 primes. */
  function Prime(i: nat): nat
    requires i < 64
  {
    PrimeRow(i / 8)[i % 8]
  }

  /** k is the first 32 bits of the fraction of a square root of p; q is its integer part. */
  predicate SquareRoot(p: nat, q: nat, k: Word32) {
    var c := 0x1_0000_0000 * q + k;
    c * c <= p * 0x1_0000_0000_0000_0000 < (c + 1) * (c + 1)
  }

  /** The same for a cube root. */
  predicate CubeRoot(p: nat, q: nat, k: Word32) {
    var c := 0x1_0000_0000 * q + k;
    c * c * c <= p * 0x1_0000_0000_0000_0000_0000_0000 < (c + 1) * (c + 1) * (c + 1)
  }

  ghost predicate IsRoot2(i: nat)
    requires i < 8
  {
    exists q: nat :: SquareRoot(Prime(i), q, IV()[i])
  }

  ghost predicate IsRoot3(i: nat)
    requires i < 64
  {
    exists q: nat :: CubeRoot(Prime(i), q, K(i))
  }

  lemma Squares()
    ensures SquareRoot(2, 1, 0x6a09e667)
    ensures SquareRoot(3, 1, 0xbb67ae85)
    ensures SquareRoot(5, 2, 0x3c6ef372)
    ensures SquareRoot(7, 2, 0xa54ff53a)
    ensures SquareRoot(11, 3, 0x510e527f)
    ensures SquareRoot(13, 3, 0x9b05688c)
    ensures SquareRoot(17, 4, 0x1f83d9ab)
    ensures SquareRoot(19, 4, 0x5be0cd19)
  {
  }

  /** The initial hash value comes from the square roots of the first eight primes (section 5.3.3). */
  lemma IVFromRoots(i: nat)
    requires i < 8
    ensures exists q: nat :: SquareRoot(Prime(i), q, IV()[i])
  {
    Squares();
    hide SquareRoot;
    assert SquareRoot(Prime(0), 1, IV()[0]);
    assert SquareRoot(Prime(1), 1, IV()[1]);
    assert SquareRoot(Prime(2), 2, IV()[2]);
    assert SquareRoot(Prime(3), 2, IV()[3]);
    assert SquareRoot(Prime(4), 3, IV()[4]);
    assert SquareRoot(Prime(5), 3, IV()[5]);
    assert SquareRoot(Prime(6), 4, IV()[6]);
    assert SquareRoot(Prime(7), 4, IV()[7]);
    assert IsRoot2(i);
  }

  lemma Cubes0()
    ensures CubeRoot(2, 1, 0x428a2f98)
    ensures CubeRoot(3, 1, 0x71374491)
    ensures CubeRoot(5, 1, 0xb5c0fbcf)
    ensures CubeRoot(7, 1, 0xe9b5dba5)
    ensures CubeRoot(11, 2, 0x3956c25b)
    ensures CubeRoot(13, 2, 0x59f111f1)
    ensures CubeRoot(17, 2, 0x923f82a4)
    ensures CubeRoot(19, 2, 0xab1c5ed5)
  {
  }

  lemma KFromRoots0()
    ensures forall i :: 0 <= i < 8 ==> IsRoot3(i)
  {
    Cubes0();
    hide CubeRoot;
    assert CubeRoot(Prime(0), 1, K(0));
    assert CubeRoot(Prime(1), 1, K(1));
    assert CubeRoot(Prime(2), 1, K(2));
    assert CubeRoot(Prime(3), 1, K(3));
    assert CubeRoot(Prime(4), 2, K(4));
    assert CubeRoot(Prime(5), 2, K(5));
    assert CubeRoot(Prime(6), 2, K(6));
    assert CubeRoot(Prime(7), 2, K(7));
  }

  lemma Cubes1()
    ensures CubeRoot(23, 2, 0xd807aa98)
    ensures CubeRoot(29, 3, 0x12835b01)
    ensures CubeRoot(31, 3, 0x243185be)
    ensures CubeRoot(37, 3, 0x550c7dc3)
    ensures CubeRoot(41, 3, 0x72be5d74)
    ensures CubeRoot(43, 3, 0x80deb1fe)
    ensures CubeRoot(47, 3, 0x9bdc06a7)
    ensures CubeRoot(53, 3, 0xc19bf174)
  {
  }

  lemma KFromRoots1()
    ensures forall i :: 8 <= i < 16 ==> IsRoot3(i)
  {
    Cubes1();
    hide CubeRoot;
    assert CubeRoot(Prime(8), 2, K(8));
    assert CubeRoot(Prime(9), 3, K(9));
    assert CubeRoot(Prime(10), 3, K(10));
    assert CubeRoot(Prime(11), 3, K(11));
    assert CubeRoot(Prime(12), 3, K(12));
    assert CubeRoot(Prime(13), 3, K(13));
    assert CubeRoot(Prime(14), 3, K(14));
    assert CubeRoot(Prime(15), 3, K(15));
  }

  lemma Cubes2()
    ensures CubeRoot(59, 3, 0xe49b69c1)
    ensures CubeRoot(61, 3, 0xefbe4786)
    ensures CubeRoot(67, 4, 0x0fc19dc6)
    ensures CubeRoot(71, 4, 0x240ca1cc)
    ensures CubeRoot(73, 4, 0x2de92c6f)
    ensures CubeRoot(79, 4, 0x4a7484aa)
    ensures CubeRoot(83, 4, 0x5cb0a9dc)
    ensures CubeRoot(89, 4, 0x76f988da)
  {
  }

  lemma KFromRoots2()
    ensures forall i :: 16 <= i < 24 ==> IsRoot3(i)
  {
    Cubes2();
    hide CubeRoot;
    assert CubeRoot(Prime(16), 3, K(16));
    assert CubeRoot(Prime(17), 3, K(17));
    assert CubeRoot(Prime(18), 4, K(18));
    assert CubeRoot(Prime(19), 4, K(19));
    assert CubeRoot(Prime(20), 4, K(20));
    assert CubeRoot(Prime(21), 4, K(21));
    assert CubeRoot(Prime(22), 4, K(22));
    assert CubeRoot(Prime(23), 4, K(23));
  }

  lemma Cubes3()
    ensures CubeRoot(97, 4, 0x983e5152)
    ensures CubeRoot(101, 4, 0xa831c66d)
    ensures CubeRoot(103, 4, 0xb00327c8)
    ensures CubeRoot(107, 4, 0xbf597fc7)
    ensures CubeRoot(109, 4, 0xc6e00bf3)
    ensures CubeRoot(113, 4, 0xd5a79147)
    ensures CubeRoot(127, 5, 0x06ca6351)
    ensures CubeRoot(131, 5, 0x14292967)
  {
  }

  lemma KFromRoots3()
    ensures forall i :: 24 <= i < 32 ==> IsRoot3(i)
  {
    Cubes3();
    hide CubeRoot;
    assert CubeRoot(Prime(24), 4, K(24));
    assert CubeRoot(Prime(25), 4, K(25));
    assert CubeRoot(Prime(26), 4, K(26));
    assert CubeRoot(Prime(27), 4, K(27));
    assert CubeRoot(Prime(28), 4, K(28));
    assert CubeRoot(Prime(29), 4, K(29));
    assert CubeRoot(Prime(30), 5, K(30));
    assert CubeRoot(Prime(31), 5, K(31));
  }

  lemma Cubes4()
    ensures CubeRoot(137, 5, 0x27b70a85)
    ensures CubeRoot(139, 5, 0x2e1b2138)
    ensures CubeRoot(149, 5, 0x4d2c6dfc)
    ensures CubeRoot(151, 5, 0x53380d13)
    ensures CubeRoot(157, 5, 0x650a7354)
    ensures CubeRoot(163, 5, 0x766a0abb)
    ensures CubeRoot(167, 5, 0x81c2c92e)
    ensures CubeRoot(173, 5, 0x92722c85)
  {
  }

  lemma KFromRoots4()
    ensures forall i :: 32 <= i < 40 ==> IsRoot3(i)
  {
    Cubes4();
    hide CubeRoot;
    assert CubeRoot(Prime(32), 5, K(32));
    assert CubeRoot(Prime(33), 5, K(33));
    assert CubeRoot(Prime(34), 5, K(34));
    assert CubeRoot(Prime(35), 5, K(35));
    assert CubeRoot(Prime(36), 5, K(36));
    assert CubeRoot(Prime(37), 5, K(37));
    assert CubeRoot(Prime(38), 5, K(38));
    assert CubeRoot(Prime(39), 5, K(39));
  }

  lemma Cubes5()
    ensures CubeRoot(179, 5, 0xa2bfe8a1)
    ensures CubeRoot(181, 5, 0xa81a664b)
    ensures CubeRoot(191, 5, 0xc24b8b70)
    ensures CubeRoot(193, 5, 0xc76c51a3)
    ensures CubeRoot(197, 5, 0xd192e819)
    ensures CubeRoot(199, 5, 0xd6990624)
    ensures CubeRoot(211, 5, 0xf40e3585)
    ensures CubeRoot(223, 6, 0x106aa070)
  {
  }

  lemma KFromRoots5()
    ensures forall i :: 40 <= i < 48 ==> IsRoot3(i)
  {
    Cubes5();
    hide CubeRoot;
    assert CubeRoot(Prime(40), 5, K(40));
    assert CubeRoot(Prime(41), 5, K(41));
    assert CubeRoot(Prime(42), 5, K(42));
    assert CubeRoot(Prime(43), 5, K(43));
    assert CubeRoot(Prime(44), 5, K(44));
    assert CubeRoot(Prime(45), 5, K(45));
    assert CubeRoot(Prime(46), 5, K(46));
    assert CubeRoot(Prime(47), 6, K(47));
  }

  lemma Cubes6()
    ensures CubeRoot(227, 6, 0x19a4c116)
    ensures CubeRoot(229, 6, 0x1e376c08)
    ensures CubeRoot(233, 6, 0x2748774c)
    ensures CubeRoot(239, 6, 0x34b0bcb5)
    ensures CubeRoot(241, 6, 0x391c0cb3)
    ensures CubeRoot(251, 6, 0x4ed8aa4a)
    ensures CubeRoot(257, 6, 0x5b9cca4f)
    ensures CubeRoot(263, 6, 0x682e6ff3)
  {
  }

  lemma KFromRoots6()
    ensures forall i :: 48 <= i < 56 ==> IsRoot3(i)
  {
    Cubes6();
    hide CubeRoot;
    assert CubeRoot(Prime(48), 6, K(48));
    assert CubeRoot(Prime(49), 6, K(49));
    assert CubeRoot(Prime(50), 6, K(50));
    assert CubeRoot(Prime(51), 6, K(51));
    assert CubeRoot(Prime(52), 6, K(52));
    assert CubeRoot(Prime(53), 6, K(53));
    assert CubeRoot(Prime(54), 6, K(54));
    assert CubeRoot(Prime(55), 6, K(55));
  }

  lemma Cubes7()
    ensures CubeRoot(269, 6, 0x748f82ee)
    ensures CubeRoot(271, 6, 0x78a5636f)
    ensures CubeRoot(277, 6, 0x84c87814)
    ensures CubeRoot(281, 6, 0x8cc70208)
    ensures CubeRoot(283, 6, 0x90befffa)
    ensures CubeRoot(293, 6, 0xa4506ceb)
    ensures CubeRoot(307, 6, 0xbef9a3f7)
    ensures CubeRoot(311, 6, 0xc67178f2)
  {
  }

  lemma KFromRoots7()
    ensures forall i :: 56 <= i < 64 ==> IsRoot3(i)
  {
    Cubes7();
    hide CubeRoot;
    assert CubeRoot(Prime(56), 6, K(56));
    assert CubeRoot(Prime(57), 6, K(57));
    assert CubeRoot(Prime(58), 6, K(58));
    assert CubeRoot(Prime(59), 6, K(59));
    assert CubeRoot(Prime(60), 6, K(60));
    assert CubeRoot(Prime(61), 6, K(61));
    assert CubeRoot(Prime(62), 6, K(62));
    assert CubeRoot(Prime(63), 6, K(63));
  }

  /** The round constants come from the cube roots of the first 64 primes (section 4.2.2). */
  lemma KFromRoots(i: nat)
    requires i < 64
    ensures exists q: nat :: CubeRoot(Prime(i), q, K(i))
  {
    KFromRoots0();
    KFromRoots1();
    KFromRoots2();
    KFromRoots3();
    KFromRoots4();
    KFromRoots5();
    KFromRoots6();
    KFromRoots7();
    assert IsRoot3(i);
  }

  // ---------- The compression function as written ----------

  /** ROR32 */
  method RotateRight(x: Word32, n: nat) returns (r: Word32)
    requires n <= 32
    ensures r == Ror32(x, n)
  {
    hide Or, Shr, Shl32, Pow2;
    RotateIsOr(x, n);
    r := Or(Shr(x, n), Shl32(x, 32 - n));
  }

  /** EP0, EP1: three rotations. */
  method MixThree(x: Word32, i: nat, j: nat, k: nat) returns (r: nat)
    requires i <= 32 && j <= 32 && k <= 32
    ensures r == Xor3(Ror32(x, i), Ror32(x, j), Ror32(x, k))
  {
    hide Xor, Ror32;
    var a := RotateRight(x, i);
    var b := RotateRight(x, j);
    var c := RotateRight(x, k);
    r := Xor(Xor(a, b), c);
  }

  /** SIG0, SIG1: two rotations and a shift. */
  method MixTwo(x: Word32, i: nat, j: nat, k: nat) returns (r: nat)
    requires i <= 32 && j <= 32
    ensures r == Xor3(Ror32(x, i), Ror32(x, j), Shr(x, k))
  {
    hide Xor, Ror32, Shr;
    var a := RotateRight(x, i);
    var b := RotateRight(x, j);
    r := Xor(Xor(a, b), Shr(x, k));
  }

  /** The message schedule: w[0..64]. */
  method Expand(block: Block64, w: array<Word32>)
    requires w.Length == 64
    modifies w
    ensures w[..] == Schedule(block, 64)
  {
    hide Ror32, Xor3, Shr, Schedule;
    ScheduleStep(block, 0);
    for i := 0 to 16
      invariant w[..i] == Schedule(block, i)
    {
      ScheduleStep(block, i);
      w[i] := GetBe32(block[4 * i..]);
      assert w[..i + 1] == w[..i] + [w[i]];
    }
    for i := 16 to 64
      invariant w[..i] == Schedule(block, i)
    {
      ScheduleStep(block, i);
      assert w[i - 2] == w[..i][i - 2] && w[i - 7] == w[..i][i - 7];
      assert w[i - 15] == w[..i][i - 15] && w[i - 16] == w[..i][i - 16];
      var s1 := MixTwo(w[i - 2], 17, 19, 10);
      var s0 := MixTwo(w[i - 15], 7, 18, 3);
      w[i] := W32(s1 + w[i - 7] as int + s0 + w[i - 16] as int);
      assert w[..i + 1] == w[..i] + [w[i]];
    }
    assert w[..64] == w[..];
  }

  lemma ScheduleStep(block: Block64, i: nat)
    requires i < 64
    ensures Schedule(block, 0) == []
    ensures var w := Schedule(block, i);
      Schedule(block, i + 1)
      == w + [if i < 16 then GetBe32(block[4 * i..])
              else W32(Sig1(w[i - 2]) + w[i - 7] as int + Sig0(w[i - 15]) + w[i - 16] as int)]
  {
    hide Sig0, Sig1;
  }

  lemma RoundsStep(v: Hash8, w: seq<Word32>, i: nat)
    requires |w| == 64 && i < 64
    ensures Rounds(v, w, 0) == v && Rounds(v, w, i + 1) == Round(Rounds(v, w, i), K(i), w[i])
  {
    hide Round;
  }

  /** One turn of the round loop. */
  method OneRound(a: Word32, b: Word32, c: Word32, d: Word32, e: Word32, f: Word32, g: Word32, h: Word32,
                  k: Word32, w: Word32)
    returns (a': Word32, e': Word32)
    ensures [a', a, b, c, e', e, f, g] == Round([a, b, c, d, e, f, g, h], k, w)
  {
    hide Ror32, Xor, And, Not;
    var ep1 := MixThree(e, 6, 11, 25);
    var ch := Xor(And(e, f), And(0xFFFF_FFFF - e, g));
    NotIs(e);
    var t1 := W32(h as int + ep1 + ch + k as int + w as int);
    var ep0 := MixThree(a, 2, 13, 22);
    var maj := Xor(Xor(And(a, b), And(a, c)), And(b, c));
    var t2 := W32(ep0 + maj);
    e' := W32(d as int + t1 as int);
    a' := W32(t1 as int + t2 as int);
  }

  /** The complement of a 32-bit word. */
  lemma NotIs(x: Word32)
    ensures Not(x) == 0xFFFF_FFFF - x
  {
  }

  /** sha256_transform */
  method Transform(state: Hash8, block: Block64) returns (out: Hash8)
    ensures out == Compress(state, block)
  {
    hide Schedule, Round, Rounds, W32;
    var w := new Word32[64](_ => 0);
    Expand(block, w);
    var a, b, c, d := state[0], state[1], state[2], state[3];
    var e, f, g, h := state[4], state[5], state[6], state[7];
    RoundsStep(state, w[..], 0);
    assert [a, b, c, d, e, f, g, h] == state;
    for i := 0 to 64
      invariant w[..] == Schedule(block, 64)
      invariant [a, b, c, d, e, f, g, h] == Rounds(state, w[..], i)
    {
      RoundsStep(state, w[..], i);
      var a', e' := OneRound(a, b, c, d, e, f, g, h, K(i), w[i]);
      h, g, f, e, d, c, b, a := g, f, e, e', c, b, a, a';
    }
    out := [W32(state[0] as int + a as int), W32(state[1] as int + b as int),
            W32(state[2] as int + c as int), W32(state[3] as int + d as int),
            W32(state[4] as int + e as int), W32(state[5] as int + f as int),
            W32(state[6] as int + g as int), W32(state[7] as int + h as int)];
    ghost var v: Hash8 := [a, b, c, d, e, f, g, h];
    assert out == Sums(state, v);
  }

  // ---------- The hash of a message ----------

  /** The chaining value after all whole 64-byte blocks of `data`. */
  function Absorb(state: Hash8, data: seq<Byte>): Hash8
    decreases |data|
  {
    hide Compress;
    if |data| < 64 then state else Absorb(Compress(state, data[..64]), data[64..])
  }

  /** Eight bytes, most significant first. */
  function PutBe64(v: nat): (s: seq<Byte>)
    ensures |s| == 8
  {
    seq(8, i requires 0 <= i < 8 => v / Pow2(8 * (7 - i)) % 0x100)
  }

  /** The padding of an n-byte message: 0x80, zeros up to 56 modulo 64, and the length in bits. */
  function Padding(n: nat): (p: seq<Byte>)
    ensures (n + |p|) % 64 == 0 && 9 <= |p| <= 72
  {
    hide PutBe64;
    PaddingFits(n);
    [0x80] + Zeros((119 - n % 64) % 64) + PutBe64(W64(n * 8))
  }

  lemma PaddingFits(n: nat)
    ensures (n + 1 + (119 - n % 64) % 64 + 8) % 64 == 0
  {
    var r := n % 64;
    assert n == 64 * (n / 64) + r;
    assert (r + 1 + (119 - r) % 64 + 8) % 64 == 0;
  }

  function Output(state: Hash8): (s: seq<Byte>)
    ensures |s| == 32
  {
    PutBe32(state[0]) + PutBe32(state[1]) + PutBe32(state[2]) + PutBe32(state[3])
    + PutBe32(state[4]) + PutBe32(state[5]) + PutBe32(state[6]) + PutBe32(state[7])
  }

  function Hash(msg: seq<Byte>): (h: seq<Byte>)
    ensures |h| == 32
  {
    hide Absorb;
    Output(Absorb(IV(), msg + Padding(|msg|)))
  }

  lemma {:induction false} AbsorbConcat(state: Hash8, a: seq<Byte>, b: seq<Byte>)
    requires |a| % 64 == 0
    ensures Absorb(state, a + b) == Absorb(Absorb(state, a), b)
    decreases |a|
  {
    hide Compress;
    if a == [] {
      assert a + b == b;
    } else {
      assert (a + b)[..64] == a[..64] && (a + b)[64..] == a[64..] + b;
      AbsorbConcat(Compress(state, a[..64]), a[64..], b);
    }
  }

  lemma AbsorbBlock(state: Hash8, block: Block64)
    ensures Absorb(state, block) == Compress(state, block)
  {
    hide Compress;
    assert block[..64] == block && block[64..] == [];
  }

  lemma AbsorbShort(state: Hash8, data: seq<Byte>)
    requires |data| < 64
    ensures Absorb(state, data) == state
  {
  }

  // ---------- The context ----------

  /** sha256_ctx, with the message absorbed so far as history. */
  class Context {
    var state: Hash8
    var count: Word64
    const buf: array<Byte>
    ghost var message: seq<Byte>

    /** The buffer holds the tail of the message, the state the whole blocks before it. */
    ghost predicate Valid()
      reads this, buf
    {
      && buf.Length == 64
      && count == W64(|message|)
      && Holds(state, buf[..], message)
    }

    constructor ()
      ensures Valid() && message == [] && fresh(buf)
    {
      hide Holds, W64;
      EmptyCount();
      state := [0x6a09e667, 0xbb67ae85, 0x3c6ef372, 0xa54ff53a, 0x510e527f, 0x9b05688c, 0x1f83d9ab, 0x5be0cd19];
      count := 0;
      buf := new Byte[64];
      message := [];
      new;
      EmptyHolds(buf[..]);
    }

    /** sha256_update: byte by byte, compressing whenever the buffer is full. */
    method Update(data: seq<Byte>)
      requires Valid()
      modifies this, buf
      ensures Valid() && message == old(message) + data
    {
      hide Holds, Compress, W64;
      var idx := count % 64;
      CountMod(|message|);
      count := W64(count as int + |data|);
      for i := 0 to |data|
        invariant message == old(message) + data[..i]
        invariant idx == |message| % 64 && buf.Length == 64
        invariant Holds(state, buf[..], message)
        invariant count == W64(old(count) as int + |data|)
      {
        ghost var before := buf[..];
        buf[idx] := data[i];
        NextIndex(|message|);
        idx := idx + 1;
        assert buf[..] == before[idx - 1 := data[i]];
        AppendByte(state, before, buf[..], message, data[i]);
        if idx == 64 {
          state := Transform(state, buf[..]);
          idx := 0;
        }
        message := message + [data[i]];
        assert data[..i + 1] == data[..i] + [data[i]];
      }
      CountAdd(|old(message)|, |data|);
      assert data[..|data|] == data;
    }

    /** Zero bytes from..to of the buffer, leaving the bytes before them alone. */
    method Zero(from: nat, to: nat)
      requires from <= to <= buf.Length == 64
      modifies buf
      ensures buf[..from] == old(buf[..from]) && buf[from..to] == Zeros(to - from)
    {
      var idx := from;
      while idx < to
        invariant from <= idx <= to
        invariant buf[..from] == old(buf[..from]) && forall k :: from <= k < idx ==> buf[k] == 0
      {
        buf[idx] := 0;
        idx := idx + 1;
      }
    }

    /** The length of the message in bits, most significant byte first, in the last eight bytes. */
    method StoreLength(bits: Word64)
      requires buf.Length == 64
      modifies buf
      ensures buf[..56] == old(buf[..56]) && buf[56..] == PutBe64(bits)
    {
      hide PutBe64, Shr, Pow2;
      for i := 0 to 8
        invariant buf[..56] == old(buf[..56])
        invariant forall k :: 0 <= k < i ==> buf[56 + k] == PutBe64(bits)[k]
      {
        LengthByte(bits, i);
        buf[56 + i] := Shr(bits, 8 * (7 - i)) % 0x100;
      }
    }

    /** sha256_final: the digest of everything absorbed. */
    method Final() returns (hash: seq<Byte>)
      requires Valid()
      modifies this`state, buf
      ensures hash == Hash(message)
    {
      hide Compress, Absorb, Output, PutBe64, Pow2, Holds, W64, Hash, Shr;
      var bits := W64(count as int * 8);
      BitsMod(|message|);
      var idx := count % 64;
      CountMod(|message|);
      ghost var tail := buf[..idx];
      ghost var state0 := state;
      HoldsSplit(state, buf[..], message);
      buf[idx] := 0x80;
      idx := idx + 1;
      if idx > 56 {
        assert buf[..idx] == tail + [0x80];
        Zero(idx, 64);
        assert buf[..] == buf[..idx] + buf[idx..64];
        state := Transform(state, buf[..]);
        idx := 0;
      }
      ghost var head := buf[..idx];
      Zero(idx, 56);
      assert buf[..56] == head + Zeros(56 - idx);
      StoreLength(bits);
      assert buf[..] == buf[..56] + buf[56..];
      FinalBlocks(state0, tail, message, bits, state, head, buf[..]);
      state := Transform(state, buf[..]);
      hash := WriteOut(state);
    }
  }

  /** The state, most significant byte first. */
  method WriteOut(state: Hash8) returns (hash: seq<Byte>)
    ensures hash == Output(state)
  {
    hide PutBe32;
    hash := [];
    for i := 0 to 8
      invariant |hash| == 4 * i
      invariant forall k :: 0 <= k < i ==> hash[4 * k..4 * k + 4] == PutBe32(state[k])
    {
      ghost var before := hash;
      hash := hash + PutBe32(state[i]);
      assert forall k :: 0 <= k < i ==> hash[4 * k..4 * k + 4] == before[4 * k..4 * k + 4];
      assert hash[4 * i..4 * i + 4] == PutBe32(state[i]);
    }
    EightWords(hash);
  }

  lemma EightWords(s: seq<Byte>)
    requires |s| == 32
    ensures s == s[0..4] + s[4..8] + s[8..12] + s[12..16] + s[16..20] + s[20..24] + s[24..28] + s[28..32]
  {
  }

  ghost predicate Holds(state: Hash8, buf: seq<Byte>, message: seq<Byte>) {
    && |buf| == 64
    && var n := |message| % 64;
    buf[..n] == message[|message| - n..] && state == Absorb(IV(), message[..|message| - n])
  }

  lemma HoldsSplit(state: Hash8, buf: seq<Byte>, message: seq<Byte>)
    requires Holds(state, buf, message)
    ensures var n := |message| % 64;
            message == message[..|message| - n] + buf[..n] && state == Absorb(IV(), message[..|message| - n])
  {
    hide Absorb;
  }

  lemma NextIndex(n: nat)
    ensures (n + 1) % 64 == if n % 64 == 63 then 0 else n % 64 + 1
  {
  }

  lemma EmptyHolds(buf: seq<Byte>)
    requires |buf| == 64
    ensures Holds(IV(), buf, [])
  {
    AbsorbShort(IV(), []);
  }

  lemma EmptyCount()
    ensures W64(0) == 0
  {
  }

  lemma CountMod(n: nat)
    ensures W64(n) % 64 == n % 64
  {
  }

  lemma CountAdd(a: nat, b: nat)
    ensures W64(W64(a) as int + b) == W64(a + b)
  {
  }

  lemma BitsMod(n: nat)
    ensures W64(W64(n) as int * 8) == W64(n * 8)
  {
  }

  /** Storing one byte at the end of the buffer appends it to the message. */
  lemma AppendByte(state: Hash8, buf: seq<Byte>, buf': seq<Byte>, message: seq<Byte>, b: Byte)
    requires Holds(state, buf, message) && buf' == buf[|message| % 64 := b]
    ensures |message| % 64 + 1 < 64 ==> Holds(state, buf', message + [b])
    ensures |message| % 64 + 1 == 64 ==> Holds(Compress(state, buf'), buf', message + [b])
  {
    hide Compress, Absorb;
    var n := |message| % 64;
    var front := message[..|message| - n];
    NextIndex(|message|);
    assert message == front + buf[..n];
    assert buf'[..n + 1] == buf[..n] + [b];
    assert message + [b] == front + buf'[..n + 1];
    if n + 1 == 64 {
      assert buf'[..64] == buf';
      AbsorbConcat(IV(), front, buf');
      AbsorbBlock(state, buf');
      HoldsIntro(Compress(state, buf'), buf', front + buf', []);
      assert front + buf' + [] == message + [b];
    } else {
      HoldsIntro(state, buf', front, buf'[..n + 1]);
    }
  }

  lemma TailLength(front: nat, tail: nat)
    requires front % 64 == 0 && tail < 64
    ensures (front + tail) % 64 == tail
  {
  }

  lemma HoldsIntro(state: Hash8, buf: seq<Byte>, front: seq<Byte>, tail: seq<Byte>)
    requires |buf| == 64 && |front| % 64 == 0 && |tail| < 64 && buf[..|tail|] == tail && state == Absorb(IV(), front)
    ensures Holds(state, buf, front + tail)
  {
    hide Absorb;
    var m := front + tail;
    TailLength(|front|, |tail|);
    assert m[..|m| - |tail|] == front && m[|m| - |tail|..] == tail;
  }

  lemma LengthByte(bits: nat, i: nat)
    requires i < 8
    ensures Shr(bits, 8 * (7 - i)) % 0x100 == PutBe64(bits)[i]
  {
  }

  /** Two whole blocks in a row. */
  lemma AbsorbTwo(state: Hash8, a: Block64, b: Block64)
    ensures Absorb(state, a + b) == Compress(Compress(state, a), b)
  {
    hide Compress, Absorb;
    AbsorbConcat(state, a, b);
    AbsorbBlock(state, a);
    AbsorbBlock(Compress(state, a), b);
  }

  /** The one or two blocks that Final compresses are the rest of the padded message. */
  lemma FinalBlocks(state0: Hash8, tail: seq<Byte>, message: seq<Byte>, bits: Word64,
                    state: Hash8, head: seq<Byte>, block: seq<Byte>)
    requires |tail| == |message| % 64 && bits == W64(|message| * 8)
    requires message == message[..|message| - |tail|] + tail && state0 == Absorb(IV(), message[..|message| - |tail|])
    requires |head| <= 56 && block == head + Zeros(56 - |head|) + PutBe64(bits)
    requires if |tail| < 56 then state == state0 && head == tail + [0x80]
             else head == [] && state == Compress(state0, tail + [0x80] + Zeros(63 - |tail|))
    ensures Output(Compress(state, block)) == Hash(message)
  {
    hide Compress, Absorb, Output, PutBe64;
    var n := |tail|;
    var front := message[..|message| - n];
    var padding := Padding(|message|);
    if n < 56 {
      assert tail + padding == block;
      AbsorbBlock(state, block);
    } else {
      var first := tail + [0x80] + Zeros(63 - n);
      assert tail + padding == first + block;
      AbsorbTwo(state0, first, block);
    }
    assert message + padding == front + (tail + padding);
    AbsorbConcat(IV(), front, tail + padding);
  }

  // ---------- Any partition of the message ----------

  function Concat(chunks: seq<seq<Byte>>): seq<Byte> {
    if chunks == [] then [] else chunks[0] + Concat(chunks[1..])
  }

  lemma {:induction false} ConcatAppend(chunks: seq<seq<Byte>>, chunk: seq<Byte>)
    ensures Concat(chunks + [chunk]) == Concat(chunks) + chunk
  {
    if chunks == [] {
      assert chunks + [chunk] == [chunk];
    } else {
      assert (chunks + [chunk])[1..] == chunks[1..] + [chunk];
      ConcatAppend(chunks[1..], chunk);
    }
  }

  /** However a message is cut into updates, the digest is the hash of the whole message. */
  method HashChunks(chunks: seq<seq<Byte>>) returns (hash: seq<Byte>)
    ensures hash == Hash(Concat(chunks))
  {
    hide Hash, Holds;
    var ctx := new Context();
    for i := 0 to |chunks|
      invariant ctx.Valid() && fresh(ctx) && fresh(ctx.buf)
      invariant ctx.message == Concat(chunks[..i])
    {
      ctx.Update(chunks[i]);
      ConcatAppend(chunks[..i], chunks[i]);
      assert chunks[..i + 1] == chunks[..i] + [chunks[i]];
    }
    assert chunks[..|chunks|] == chunks;
    hash := ctx.Final();
  }
}
