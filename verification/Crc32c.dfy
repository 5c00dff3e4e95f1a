/**
 CRC-32C as the SCTP echo server computes it with a table, against the reflected
 bit-at-a-time register of Appendix B of RFC 4960, and what the checksum detects.
 */
module Crc32c {
  type Word = bv32

  const POLY: Word := 0x82F6_3B78
  const ONES: Word := 0xFFFF_FFFF

  // ---------- Specification: one bit at a time ----------

  function Xor(x: Word, y: Word): Word { x ^ y }

  /** The register moves one place down; a 1 that falls out adds the polynomial. */
  function Shift(x: Word): Word { if x & 1 == 1 then (x >> 1) ^ POLY else x >> 1 }

  function Bit(b: bool): Word { if b then 1 else 0 }

  /** The register after the message bits, in transmission order. */
  function Feed(r: Word, bits: seq<bool>): Word
    decreases |bits|
  {
    if bits == [] then r else Feed(Shift(Xor(r, Bit(bits[0]))), bits[1..])
  }

  /** A byte is transmitted low bit first. */
  function ByteBits(b: bv8): (s: seq<bool>)
    ensures |s| == 8
  {
    [b & 1 != 0, b & 2 != 0, b & 4 != 0, b & 8 != 0, b & 16 != 0, b & 32 != 0, b & 64 != 0, b & 128 != 0]
  }

  function Bits(s: seq<bv8>): (bits: seq<bool>)
    ensures |bits| == 8 * |s|
  {
    if s == [] then [] else ByteBits(s[0]) + Bits(s[1..])
  }

  function Crc(bits: seq<bool>): Word { Xor(Feed(ONES, bits), ONES) }

  // ---------- Facts about words ----------

  /** A new low bit. */
  function Push(y: Word, b: bool): Word { (y << 1) | Bit(b) }

  predicate Short(y: Word) { y < 0x8000_0000 }

  predicate Below(y: Word, m: Word) { y < m }

  function Half(m: Word): Word { m >> 1 }

  function Double(y: Word): Word { y << 1 }

  lemma PushIsXor(r: Word, y: Word, b: bool)
    ensures Xor(r, Push(y, b)) == Xor(Xor(r, Bit(b)), Double(y))
  {
  }

  predicate Odd(x: Word) { x & 1 == 1 }

  lemma ShiftCases(x: Word)
    ensures Shift(x) == if Odd(x) then Xor(Half(x), POLY) else Half(x)
  {
  }

  lemma DoubleIsEven(x: Word, y: Word)
    ensures Odd(Xor(x, Double(y))) <==> Odd(x)
  {
  }

  lemma HalfOfDouble(x: Word, y: Word)
    requires Short(y)
    ensures Half(Xor(x, Double(y))) == Xor(Half(x), y)
  {
  }

  lemma XorPoly(x: Word, y: Word)
    ensures Xor(Xor(x, y), POLY) == Xor(Xor(x, POLY), y)
  {
  }

  /** The shift is linear, and a word with its low bit clear only moves down. */
  lemma ShiftXor(x: Word, y: Word)
    requires Short(y)
    ensures Shift(Xor(x, Double(y))) == Xor(Shift(x), y)
  {
    hide Shift, Xor, Double, Half, Odd, Short;
    ShiftCases(x);
    ShiftCases(Xor(x, Double(y)));
    DoubleIsEven(x, y);
    HalfOfDouble(x, y);
    XorPoly(Half(x), y);
  }

  /** The shift loses nothing: the polynomial's top bit records what fell out. */
  lemma ShiftInjective(x: Word, y: Word)
    requires Shift(x) == Shift(y)
    ensures x == y
  {
  }

  lemma XorCancel(x: Word, y: Word, z: Word)
    requires Xor(x, z) == Xor(y, z)
    ensures x == y
  {
  }

  lemma XorComm(x: Word, y: Word)
    ensures Xor(x, y) == Xor(y, x)
  {
  }

  lemma XorZero(x: Word)
    ensures Xor(x, 0) == x
  {
  }

  lemma PushBelow(m: Word, y: Word, b: bool)
    requires Below(y, Half(m))
    ensures Below(Push(y, b), m)
  {
  }

  lemma PushInjective(y: Word, b: bool, y': Word, b': bool)
    requires Short(y) && Short(y') && Push(y, b) == Push(y', b')
    ensures y == y' && b == b'
  {
  }

  // ---------- Algebra of the register ----------

  /** n places down. */
  function Shifts(n: nat, x: Word): Word { if n == 0 then x else Shifts(n - 1, Shift(x)) }

  lemma {:induction false} ShiftsInjective(n: nat, x: Word, y: Word)
    requires Shifts(n, x) == Shifts(n, y)
    ensures x == y
  {
    hide Shift;
    if n > 0 {
      ShiftsInjective(n - 1, Shift(x), Shift(y));
      ShiftInjective(x, y);
    }
  }

  /** Up to 32 bits as a word, first bit lowest. */
  function Pack(bits: seq<bool>): Word {
    if bits == [] then 0 else Push(Pack(bits[1..]), bits[0])
  }

  /** The top bit moved k places down. */
  function Top(k: nat): Word { if k == 0 then 0x8000_0000 else Half(Top(k - 1)) }

  lemma TopFour(k: nat)
    ensures Top(k + 4) == Half(Half(Half(Half(Top(k)))))
  {
    hide Half;
    assert Top(k + 2) == Half(Top(k + 1));
    assert Top(k + 3) == Half(Top(k + 2));
    assert Top(k + 4) == Half(Top(k + 3));
  }

  lemma TopLast()
    ensures Top(31) == 1
  {
    assert Top(3) == 0x1000_0000;
    TopFour(3); TopFour(7); TopFour(11); TopFour(15); TopFour(19); TopFour(23); TopFour(27);
  }

  lemma HalfShort(m: Word, y: Word)
    ensures Below(y, Half(m)) ==> Short(y)
  {
  }

  /** Fewer than 32 bits leave the top bit free. */
  lemma {:induction false} PackBound(bits: seq<bool>)
    requires |bits| <= 31
    ensures Below(Pack(bits), Top(31 - |bits|)) && Short(Pack(bits))
  {
    if bits == [] {
      TopLast();
    } else {
      hide Below, Half, Push, Short, Top;
      PackBound(bits[1..]);
      TopUnfold(31 - |bits|);
      PushBelow(Top(31 - |bits|), Pack(bits[1..]), bits[0]);
      TopShort(31 - |bits|, Pack(bits));
    }
  }

  lemma TopUnfold(k: nat)
    ensures Top(k + 1) == Half(Top(k))
  {
    hide Half;
  }

  lemma TopShort(k: nat, y: Word)
    requires Below(y, Top(k))
    ensures Short(y)
  {
    if k == 0 {
    } else {
      hide Below, Short, Half;
      HalfShort(Top(k - 1), y);
    }
  }

  /** Up to 32 bits act on the register as one word. */
  lemma {:induction false} FeedIsShifts(r: Word, bits: seq<bool>)
    requires |bits| <= 32
    ensures Feed(r, bits) == Shifts(|bits|, Xor(r, Pack(bits)))
    decreases |bits|
  {
    hide Shift, Bit, Xor, Push, Short, Double;
    if bits == [] {
      XorZero(r);
    } else {
      PackBound(bits[1..]);
      FeedIsShifts(Shift(Xor(r, Bit(bits[0]))), bits[1..]);
      PushIsXor(r, Pack(bits[1..]), bits[0]);
      ShiftXor(Xor(r, Bit(bits[0])), Pack(bits[1..]));
    }
  }

  lemma {:induction false} PackInjective(s: seq<bool>, t: seq<bool>)
    requires |s| == |t| <= 32 && Pack(s) == Pack(t)
    ensures s == t
  {
    hide Push, Short;
    if s != [] {
      PackBound(s[1..]);
      PackBound(t[1..]);
      PushInjective(Pack(s[1..]), s[0], Pack(t[1..]), t[0]);
      PackInjective(s[1..], t[1..]);
      assert s == [s[0]] + s[1..] && t == [t[0]] + t[1..];
    }
  }

  lemma {:induction false} FeedConcat(r: Word, s: seq<bool>, t: seq<bool>)
    ensures Feed(r, s + t) == Feed(Feed(r, s), t)
    decreases |s|
  {
    hide Shift, Bit, Xor;
    if s == [] {
      assert s + t == t;
    } else {
      assert (s + t)[1..] == s[1..] + t;
      FeedConcat(Shift(Xor(r, Bit(s[0]))), s[1..], t);
    }
  }

  /** Feeding the same bits keeps different registers different. */
  lemma {:induction false} FeedInjective(r: Word, r': Word, s: seq<bool>)
    requires Feed(r, s) == Feed(r', s)
    ensures r == r'
    decreases |s|
  {
    hide Shift, Bit, Xor;
    if s != [] {
      var b := Bit(s[0]);
      FeedInjective(Shift(Xor(r, b)), Shift(Xor(r', b)), s[1..]);
      ShiftInjective(Xor(r, b), Xor(r', b));
      XorCancel(r, r', b);
    }
  }

  // ---------- What the CRC detects ----------

  /**
   Every change confined to 32 consecutive bits changes the CRC, whatever the length of the
   message and wherever the change lies.
   */
  lemma BurstDetected(prefix: seq<bool>, s: seq<bool>, t: seq<bool>, suffix: seq<bool>)
    requires |s| == |t| <= 32
    ensures Crc(prefix + s + suffix) == Crc(prefix + t + suffix) <==> s == t
  {
    hide Feed, Pack, Shifts, Xor;
    var r := Feed(ONES, prefix);
    FeedConcat(ONES, prefix + s, suffix);
    FeedConcat(ONES, prefix + t, suffix);
    FeedConcat(ONES, prefix, s);
    FeedConcat(ONES, prefix, t);
    if Crc(prefix + s + suffix) == Crc(prefix + t + suffix) {
      XorCancel(Feed(Feed(r, s), suffix), Feed(Feed(r, t), suffix), ONES);
      FeedInjective(Feed(r, s), Feed(r, t), suffix);
      FeedIsShifts(r, s);
      FeedIsShifts(r, t);
      ShiftsInjective(|s|, Xor(r, Pack(s)), Xor(r, Pack(t)));
      XorComm(r, Pack(s));
      XorComm(r, Pack(t));
      XorCancel(Pack(s), Pack(t), r);
      PackInjective(s, t);
    }
  }

  // ---------- The table ----------

  function Low(x: Word): Word { x & 0xFF }

  function High(x: Word): Word { x >> 8 }

  function Wide(b: bv8): Word { b as Word }

  /** The table index in a register: its low byte. */
  function Index(x: Word): (i: nat)
    ensures i < 256
  {
    (x & 0xFF) as nat
  }

  function OfIndex(i: nat): Word
    requires i < 256
  {
    i as Word
  }

  lemma IndexOf(x: Word)
    ensures OfIndex(Index(x)) == Low(x)
  {
    ThereAndBack(x & 0xFF);
  }

  lemma ThereAndBack(x: bv32)
    ensures (x as int) as bv32 == x
  {
  }

  lemma PackByte(b: bv8)
    ensures Pack(ByteBits(b)) == Wide(b)
  {
    var s := ByteBits(b);
    hide ByteBits, Push;
    assert s[7..] == [s[7]] && s[6..][1..] == s[7..] && s[5..][1..] == s[6..] && s[4..][1..] == s[5..];
    assert s[3..][1..] == s[4..] && s[2..][1..] == s[3..] && s[1..][1..] == s[2..] && s[0..] == s;
    assert Pack(s[7..]) == Push(0, s[7]);
    assert Pack(s[6..]) == Push(Pack(s[7..]), s[6]);
    assert Pack(s[5..]) == Push(Pack(s[6..]), s[5]);
    assert Pack(s[4..]) == Push(Pack(s[5..]), s[4]);
    assert Pack(s[3..]) == Push(Pack(s[4..]), s[3]);
    assert Pack(s[2..]) == Push(Pack(s[3..]), s[2]);
    assert Pack(s[1..]) == Push(Pack(s[2..]), s[1]);
    assert Pack(s) == Push(Pack(s[1..]), s[0]);
    PushByte(b);
  }

  lemma PushByte(b: bv8)
    ensures var s := ByteBits(b);
      Push(Push(Push(Push(Push(Push(Push(Push(0, s[7]), s[6]), s[5]), s[4]), s[3]), s[2]), s[1]), s[0]) == Wide(b)
  {
  }

  /** A byte at a time: the low byte decides what is added, the rest only moves down. */
  lemma EightShifts(x: Word)
    ensures Shifts(8, x) == Xor(Shifts(8, Low(x)), High(x))
  {
    SplitByte(x);
    var h := High(x);
    var d1 := Double(h);
    var d2 := Double(d1);
    var d3 := Double(d2);
    var d4 := Double(d3);
    var d5 := Double(d4);
    var d6 := Double(d5);
    var d7 := Double(d6);
    hide Shift, Xor, Double, Low, High, Short;
    var s0 := Low(x);
    var s1 := Shift(s0);
    var s2 := Shift(s1);
    var s3 := Shift(s2);
    var s4 := Shift(s3);
    var s5 := Shift(s4);
    var s6 := Shift(s5);
    var s7 := Shift(s6);
    ShiftXor(s0, d7);
    ShiftXor(s1, d6);
    ShiftXor(s2, d5);
    ShiftXor(s3, d4);
    ShiftXor(s4, d3);
    ShiftXor(s5, d2);
    ShiftXor(s6, d1);
    ShiftXor(s7, h);
    ShiftsUnfold(s0);
    ShiftsUnfold(x);
  }

  lemma ShiftsUnfold(x: Word)
    ensures Shifts(8, x) == Shift(Shift(Shift(Shift(Shift(Shift(Shift(Shift(x))))))))
  {
    hide Shift;
    ShiftsFour(4, x);
    ShiftsFour(0, Shift(Shift(Shift(Shift(x)))));
  }

  lemma ShiftsFour(n: nat, x: Word)
    ensures Shifts(n + 4, x) == Shifts(n, Shift(Shift(Shift(Shift(x)))))
    ensures n == 0 ==> Shifts(4, x) == Shift(Shift(Shift(Shift(x))))
  {
    hide Shift, Shifts;
    ShiftsOne(n + 3, x);
    ShiftsOne(n + 2, Shift(x));
    ShiftsOne(n + 1, Shift(Shift(x)));
    ShiftsOne(n, Shift(Shift(Shift(x))));
  }

  lemma ShiftsOne(n: nat, x: Word)
    ensures Shifts(n + 1, x) == Shifts(n, Shift(x)) && Shifts(0, x) == x
    ensures n == 0 ==> Shifts(n, Shift(x)) == Shift(x)
  {
    hide Shift;
  }

  lemma SplitByte(x: Word)
    ensures var h := High(x);
      var d1 := Double(h); var d2 := Double(d1); var d3 := Double(d2); var d4 := Double(d3);
      var d5 := Double(d4); var d6 := Double(d5); var d7 := Double(d6);
      && Short(h) && Short(d1) && Short(d2) && Short(d3) && Short(d4) && Short(d5) && Short(d6) && Short(d7)
      && x == Xor(Low(x), Double(d7))
  {
  }

  lemma HighXor(r: Word, b: bv8)
    ensures High(Xor(r, Wide(b))) == High(r)
  {
  }

  /** One table step consumes the eight bits of a byte. */
  lemma ByteStep(r: Word, b: bv8)
    ensures Feed(r, ByteBits(b)) == Xor(Shifts(8, Low(Xor(r, Wide(b)))), High(r))
  {
    hide Feed, Shifts, Xor, Low, High, Wide, Pack, ByteBits;
    FeedIsShifts(r, ByteBits(b));
    PackByte(b);
    EightShifts(Xor(r, Wide(b)));
    HighXor(r, b);
  }

  ghost predicate IsTable(t: array<Word>)
    reads t
  {
    t.Length == 256 && forall i :: 0 <= i < 256 ==> t[i] == Shifts(8, OfIndex(i))
  }

  /** crc32c_init */
  method Init(t: array<Word>)
    requires t.Length == 256
    modifies t
    ensures IsTable(t)
  {
    hide OfIndex, Shift;
    for i := 0 to 256
      invariant forall k :: 0 <= k < i ==> t[k] == Shifts(8, OfIndex(k))
    {
      var crc := OfIndex(i);
      for j := 0 to 8
        invariant Shifts(8 - j, crc) == Shifts(8, OfIndex(i))
      {
        crc := Shift(crc);
      }
      t[i] := crc;
    }
  }

  /** The register after one more byte. */
  method Step(t: array<Word>, r: Word, b: bv8) returns (r': Word)
    requires IsTable(t)
    ensures r' == Feed(r, ByteBits(b))
  {
    hide Xor, Index, OfIndex, High, Low, Wide, Shifts, Feed, ByteBits;
    var x := Xor(r, Wide(b));
    r' := Xor(t[Index(x)], High(r));
    IndexOf(x);
    ByteStep(r, b);
  }

  lemma {:induction false} BitsConcat(s: seq<bv8>, u: seq<bv8>)
    ensures Bits(s + u) == Bits(s) + Bits(u)
  {
    hide ByteBits;
    if s == [] {
      assert s + u == u;
    } else {
      assert (s + u)[1..] == s[1..] + u;
      BitsConcat(s[1..], u);
    }
  }

  lemma FeedByte(r: Word, s: seq<bv8>, i: nat)
    requires i < |s|
    ensures Feed(r, Bits(s[..i + 1])) == Feed(Feed(r, Bits(s[..i])), ByteBits(s[i]))
  {
    hide ByteBits, Feed;
    assert s[..i + 1] == s[..i] + [s[i]];
    BitsConcat(s[..i], [s[i]]);
    var one := [s[i]];
    assert one[1..] == [] && Bits(one) == ByteBits(s[i]) + [] == ByteBits(s[i]);
    assert Bits(s[..i + 1]) == Bits(s[..i]) + ByteBits(s[i]);
    FeedConcat(r, Bits(s[..i]), ByteBits(s[i]));
  }

  /** crc32c: the table-driven CRC is the bitwise one, for every byte string. */
  method Compute(t: array<Word>, data: seq<bv8>) returns (c: Word)
    requires IsTable(t)
    ensures c == Crc(Bits(data))
  {
    hide IsTable, Feed, Bits, Xor;
    var crc := ONES;
    FeedNothing(ONES, data);
    for i := 0 to |data|
      invariant crc == Feed(ONES, Bits(data[..i]))
    {
      crc := Step(t, crc, data[i]);
      FeedByte(ONES, data, i);
    }
    assert data[..|data|] == data;
    c := Xor(crc, ONES);
  }

  lemma FeedNothing(r: Word, data: seq<bv8>)
    ensures Feed(r, Bits(data[..0])) == r
  {
    assert data[..0] == [];
  }

  // ---------- Packets ----------

  /** The packet with its checksum field zeroed. */
  function Masked(p: seq<bv8>): (m: seq<bv8>)
    ensures |m| == |p|
  {
    seq(|p|, i requires 0 <= i < |p| => if 8 <= i < 12 then 0 else p[i])
  }

  /** The checksum field. */
  function Wire(p: seq<bv8>): Word
    requires |p| >= 12
  {
    Join(p[8], p[9], p[10], p[11])
  }

  function Join(a: bv8, b: bv8, c: bv8, d: bv8): Word {
    (a as Word) | ((b as Word) << 8) | ((c as Word) << 16) | ((d as Word) << 24)
  }

  function ByteAt(x: Word, k: nat): bv8
    requires k < 4
  {
    if k == 0 then (x & 0xFF) as bv8 else if k == 1 then ((x >> 8) & 0xFF) as bv8
    else if k == 2 then ((x >> 16) & 0xFF) as bv8 else ((x >> 24) & 0xFF) as bv8
  }

  lemma JoinBytes(x: Word)
    ensures Join(ByteAt(x, 0), ByteAt(x, 1), ByteAt(x, 2), ByteAt(x, 3)) == x
  {
  }

  lemma JoinInjective(a: bv8, b: bv8, c: bv8, d: bv8, a': bv8, b': bv8, c': bv8, d': bv8)
    requires Join(a, b, c, d) == Join(a', b', c', d')
    ensures a == a' && b == b' && c == c' && d == d'
  {
  }

  ghost predicate Verifies(p: seq<bv8>) { |p| >= 12 && Wire(p) == Crc(Bits(Masked(p))) }

  /** sctp_checksum */
  method Checksum(t: array<Word>, p: seq<bv8>) returns (c: Word)
    requires IsTable(t)
    ensures c == Crc(Bits(Masked(p)))
  {
    hide IsTable, Feed, Bits, Xor;
    var crc := ONES;
    ghost var m := Masked(p);
    FeedNothing(ONES, m);
    for i := 0 to |p|
      invariant crc == Feed(ONES, Bits(m[..i]))
    {
      var b: bv8 := if i >= 8 && i < 12 then 0 else p[i];
      crc := Step(t, crc, b);
      FeedByte(ONES, m, i);
    }
    assert m[..|p|] == m;
    c := Xor(crc, ONES);
  }

  /** stamp_checksum: the packet verifies, and only its checksum field has changed. */
  method Stamp(t: array<Word>, p: array<bv8>)
    requires IsTable(t) && p.Length >= 12
    modifies p
    ensures Verifies(p[..])
    ensures p[..8] == old(p[..8]) && p[12..] == old(p[12..])
  {
    hide IsTable, Crc, Bits, Join, ByteAt;
    ghost var before := Masked(p[..]);
    var c := Checksum(t, p[..]);
    p[8] := ByteAt(c, 0);
    p[9] := ByteAt(c, 1);
    p[10] := ByteAt(c, 2);
    p[11] := ByteAt(c, 3);
    JoinBytes(c);
    assert Masked(p[..]) == before;
  }

  /** The test a receiver makes on every packet of at least 12 bytes. */
  method Verify(t: array<Word>, p: seq<bv8>) returns (ok: bool)
    requires IsTable(t) && |p| >= 12
    ensures ok <==> Verifies(p)
  {
    hide IsTable, Crc, Bits, Join;
    var expected := Checksum(t, p);
    ok := Wire(p) == expected;
  }

  // ---------- What a receiver detects ----------

  lemma {:induction false} BitAt(s: seq<bv8>, j: nat)
    requires j < 8 * |s|
    ensures Bits(s)[j] == ByteBits(s[j / 8])[j % 8]
  {
    hide ByteBits;
    if j >= 8 {
      BitAt(s[1..], j - 8);
      assert (j - 8) / 8 == j / 8 - 1 && (j - 8) % 8 == j % 8;
    }
  }

  lemma ByteBitsInjective(a: bv8, b: bv8)
    requires ByteBits(a) == ByteBits(b)
    ensures a == b
  {
  }

  /** Equal bits mean equal bytes. */
  lemma SameByte(p: seq<bv8>, q: seq<bv8>, i: nat)
    requires |p| == |q| && i < |p|
    requires forall j :: 8 * i <= j < 8 * i + 8 ==> Bits(p)[j] == Bits(q)[j]
    ensures p[i] == q[i]
  {
    hide ByteBits, Bits;
    forall k | 0 <= k < 8
      ensures ByteBits(p[i])[k] == ByteBits(q[i])[k]
    {
      var j := 8 * i + k;
      assert j / 8 == i && j % 8 == k;
      BitAt(p, j);
      BitAt(q, j);
      assert Bits(p)[j] == Bits(q)[j];
    }
    assert ByteBits(p[i]) == ByteBits(q[i]);
    ByteBitsInjective(p[i], q[i]);
  }

  lemma {:induction false} SomeBitDiffers(p: seq<bv8>, q: seq<bv8>) returns (j: nat)
    requires |p| == |q| && p != q
    ensures j < 8 * |p| && Bits(p)[j] != Bits(q)[j]
  {
    hide ByteBits, Bits;
    if forall k :: 0 <= k < 8 * |p| ==> Bits(p)[k] == Bits(q)[k] {
      forall i | 0 <= i < |p|
        ensures p[i] == q[i]
      {
        SameByte(p, q, i);
      }
      assert false;
    } else {
      j :| 0 <= j < 8 * |p| && Bits(p)[j] != Bits(q)[j];
    }
  }

  lemma MaskedBit(p: seq<bv8>, j: nat)
    requires j < 8 * |p|
    ensures Bits(Masked(p))[j] == (if 64 <= j < 96 then false else Bits(p)[j])
  {
    hide ByteBits, Bits;
    BitAt(p, j);
    BitAt(Masked(p), j);
    ZeroBits(j % 8);
    assert 8 <= j / 8 < 12 <==> 64 <= j < 96;
  }

  lemma ZeroBits(k: nat)
    requires k < 8
    ensures !ByteBits(0)[k]
  {
  }

  /** p and q agree on all bits but those from k to k + n. */
  ghost predicate AgreeOutside(p: seq<bool>, q: seq<bool>, k: nat, n: nat) {
    && |p| == |q| && k + n <= |p|
    && forall j :: 0 <= j < |p| && !(k <= j < k + n) ==> p[j] == q[j]
  }

  /** BurstDetected, with the window given by position. */
  lemma WindowDetected(p: seq<bool>, q: seq<bool>, k: nat, n: nat)
    requires AgreeOutside(p, q, k, n) && n <= 32 && Crc(p) == Crc(q)
    ensures p == q
  {
    hide Crc;
    var pre, s, t, post := p[..k], p[k..k + n], q[k..k + n], p[k + n..];
    assert p == pre + s + post;
    assert q == pre + t + post;
    BurstDetected(pre, s, t, post);
  }

  lemma MaskedAgree(p: seq<bv8>, q: seq<bv8>, k: nat, n: nat)
    requires AgreeOutside(Bits(p), Bits(q), k, n)
    ensures AgreeOutside(Bits(Masked(p)), Bits(Masked(q)), k, n)
  {
    hide Bits, Masked;
    forall j | 0 <= j < 8 * |p| && !(k <= j < k + n)
      ensures Bits(Masked(p))[j] == Bits(Masked(q))[j]
    {
      MaskedBit(p, j);
      MaskedBit(q, j);
    }
  }

  /** A change within the checksum field leaves the rest of the packet alone, so the sum cannot follow it. */
  lemma FieldBurstDetected(p: seq<bv8>, q: seq<bv8>, k: nat, n: nat)
    requires |p| == |q| && p != q
    requires AgreeOutside(Bits(p), Bits(q), k, n) && 64 <= k && k + n <= 96
    requires Verifies(p)
    ensures !Verifies(q)
  {
    hide Bits, Crc;
    forall i | 0 <= i < |p| && !(8 <= i < 12)
      ensures p[i] == q[i]
    {
      SameByte(p, q, i);
    }
    assert Masked(p) == Masked(q);
    hide Join, Masked;
    if Wire(p) == Wire(q) {
      JoinInjective(p[8], p[9], p[10], p[11], q[8], q[9], q[10], q[11]);
      assert forall i :: 0 <= i < |p| ==> p[i] == q[i];
    }
  }

  /**
   A receiver detects every error burst of up to 32 consecutive bits that lies outside the
   checksum field or within it: two different packets that differ only there cannot both verify.
   */
  lemma PacketBurstDetected(p: seq<bv8>, q: seq<bv8>, k: nat, n: nat)
    requires |p| == |q| && p != q && n <= 32
    requires AgreeOutside(Bits(p), Bits(q), k, n) && (k + n <= 64 || 96 <= k || (64 <= k && k + n <= 96))
    requires Verifies(p)
    ensures !Verifies(q)
  {
    hide Bits, Masked, Crc, Join;
    if 64 <= k && k + n <= 96 {
      FieldBurstDetected(p, q, k, n);
    } else {
      OuterBurstDetected(p, q, k, n);
    }
  }

  lemma OuterBurstDetected(p: seq<bv8>, q: seq<bv8>, k: nat, n: nat)
    requires |p| == |q| && p != q && n <= 32
    requires AgreeOutside(Bits(p), Bits(q), k, n) && (k + n <= 64 || 96 <= k)
    requires Verifies(p)
    ensures !Verifies(q)
  {
    hide Bits, Masked, Crc, Join;
    SameByte(p, q, 8);
    SameByte(p, q, 9);
    SameByte(p, q, 10);
    SameByte(p, q, 11);
    if Crc(Bits(Masked(p))) == Crc(Bits(Masked(q))) {
      MaskedAgree(p, q, k, n);
      WindowDetected(Bits(Masked(p)), Bits(Masked(q)), k, n);
      var j := SomeBitDiffers(p, q);
      MaskedBit(p, j);
      MaskedBit(q, j);
    }
  }

  lemma OneByteAgrees(p: seq<bv8>, i: nat, v: bv8)
    requires i < |p|
    ensures AgreeOutside(Bits(p), Bits(p[i := v]), 8 * i, 8)
  {
    hide Bits, ByteBits;
    var q := p[i := v];
    forall j | 0 <= j < 8 * |p| && !(8 * i <= j < 8 * i + 8)
      ensures Bits(p)[j] == Bits(q)[j]
    {
      BitAt(p, j);
      BitAt(q, j);
      assert j / 8 != i;
    }
  }

  /** Changing any one byte of a packet that verifies, checksum field or not, is detected. */
  lemma OneByteDetected(p: seq<bv8>, i: nat, v: bv8)
    requires Verifies(p) && i < |p| && v != p[i]
    ensures !Verifies(p[i := v])
  {
    hide Bits, Crc;
    OneByteAgrees(p, i, v);
    PacketBurstDetected(p, p[i := v], 8 * i, 8);
  }

  // ---------- Exactly which errors escape ----------

  /** Bits added without carry. */
  function Mix(s: seq<bool>, t: seq<bool>): (u: seq<bool>)
    requires |s| == |t|
    ensures |u| == |s| && forall i :: 0 <= i < |s| ==> u[i] == (s[i] != t[i])
  {
    seq(|s|, i requires 0 <= i < |s| => s[i] != t[i])
  }

  /** The packet with an error added to it. */
  function Plus(p: seq<bv8>, e: seq<bv8>): (q: seq<bv8>)
    requires |p| == |e|
    ensures |q| == |p| && forall i :: 0 <= i < |p| ==> q[i] == Add8(p[i], e[i])
  {
    seq(|p|, i requires 0 <= i < |p| => Add8(p[i], e[i]))
  }

  lemma XorAssoc(x: Word, y: Word, z: Word)
    ensures Xor(Xor(x, y), z) == Xor(x, Xor(y, z))
  {
  }

  lemma XorSelf(x: Word)
    ensures Xor(x, x) == 0
  {
  }

  /** The middle two of four change places. */
  lemma XorSwap(x: Word, y: Word, a: Word, b: Word)
    ensures Xor(Xor(x, y), Xor(a, b)) == Xor(Xor(x, a), Xor(y, b))
  {
    hide Xor;
    XorAssoc(x, y, Xor(a, b));
    XorAssoc(y, a, b);
    XorComm(y, a);
    XorAssoc(a, y, b);
    XorAssoc(x, a, Xor(y, b));
  }

  lemma HalfXor(x: Word, y: Word)
    ensures Half(Xor(x, y)) == Xor(Half(x), Half(y))
  {
  }

  lemma OddXor(x: Word, y: Word)
    ensures Odd(Xor(x, y)) <==> Odd(x) != Odd(y)
  {
  }

  /** The polynomial if a bit falls out. */
  function Fallout(x: Word): Word { if Odd(x) then POLY else 0 }

  lemma ShiftIsHalf(x: Word)
    ensures Shift(x) == Xor(Half(x), Fallout(x))
  {
    hide Shift, Xor, Half, Odd;
    ShiftCases(x);
    XorZero(Half(x));
  }

  lemma FalloutXor(x: Word, y: Word)
    ensures Fallout(Xor(x, y)) == Xor(Fallout(x), Fallout(y))
  {
    hide Xor, Odd;
    OddXor(x, y);
    XorSelf(POLY);
    XorZero(POLY);
    XorComm(POLY, 0);
    XorZero(0);
  }

  lemma ShiftIsLinear(x: Word, y: Word)
    ensures Shift(Xor(x, y)) == Xor(Shift(x), Shift(y))
  {
    hide *;
    ShiftIsHalf(x);
    ShiftIsHalf(y);
    ShiftIsHalf(Xor(x, y));
    HalfXor(x, y);
    FalloutXor(x, y);
    XorSwap(Half(x), Half(y), Fallout(x), Fallout(y));
  }

  lemma BitXor(a: bool, b: bool)
    ensures Bit(a != b) == Xor(Bit(a), Bit(b))
  {
  }

  lemma XorBit(x: Word, y: Word, a: bool, b: bool)
    ensures Xor(Xor(x, y), Bit(a != b)) == Xor(Xor(x, Bit(a)), Xor(y, Bit(b)))
  {
    hide *;
    BitXor(a, b);
    XorSwap(x, y, Bit(a), Bit(b));
  }

  lemma {:induction false} FeedIsLinear(x: Word, y: Word, s: seq<bool>, t: seq<bool>)
    requires |s| == |t|
    ensures Feed(Xor(x, y), Mix(s, t)) == Xor(Feed(x, s), Feed(y, t))
    decreases |s|
  {
    hide Shift, Xor, Bit;
    if s != [] {
      assert Mix(s, t)[1..] == Mix(s[1..], t[1..]);
      var x', y' := Xor(x, Bit(s[0])), Xor(y, Bit(t[0]));
      XorBit(x, y, s[0], t[0]);
      ShiftIsLinear(x', y');
      FeedIsLinear(Shift(x'), Shift(y'), s[1..], t[1..]);
    }
  }

  function Add8(a: bv8, b: bv8): bv8 { a ^ b }

  predicate Has(a: bv8, m: bv8) { a & m != 0 }

  lemma HasAdd(a: bv8, b: bv8)
    ensures Has(Add8(a, b), 1) <==> Has(a, 1) != Has(b, 1)
    ensures Has(Add8(a, b), 2) <==> Has(a, 2) != Has(b, 2)
    ensures Has(Add8(a, b), 4) <==> Has(a, 4) != Has(b, 4)
    ensures Has(Add8(a, b), 8) <==> Has(a, 8) != Has(b, 8)
    ensures Has(Add8(a, b), 16) <==> Has(a, 16) != Has(b, 16)
    ensures Has(Add8(a, b), 32) <==> Has(a, 32) != Has(b, 32)
    ensures Has(Add8(a, b), 64) <==> Has(a, 64) != Has(b, 64)
    ensures Has(Add8(a, b), 128) <==> Has(a, 128) != Has(b, 128)
  {
  }

  lemma BitsAre(a: bv8)
    ensures var s := ByteBits(a);
      && s[0] == Has(a, 1) && s[1] == Has(a, 2) && s[2] == Has(a, 4) && s[3] == Has(a, 8)
      && s[4] == Has(a, 16) && s[5] == Has(a, 32) && s[6] == Has(a, 64) && s[7] == Has(a, 128)
  {
  }

  lemma MixEight(s: seq<bool>, t: seq<bool>, u: seq<bool>)
    requires |s| == |t| == |u| == 8
    requires u[0] == (s[0] != t[0]) && u[1] == (s[1] != t[1]) && u[2] == (s[2] != t[2]) && u[3] == (s[3] != t[3])
    requires u[4] == (s[4] != t[4]) && u[5] == (s[5] != t[5]) && u[6] == (s[6] != t[6]) && u[7] == (s[7] != t[7])
    ensures u == Mix(s, t)
  {
  }

  lemma ByteBitsPlus(a: bv8, b: bv8)
    ensures ByteBits(Add8(a, b)) == Mix(ByteBits(a), ByteBits(b))
  {
    hide *;
    BitsAre(a);
    BitsAre(b);
    BitsAre(Add8(a, b));
    HasAdd(a, b);
    MixEight(ByteBits(a), ByteBits(b), ByteBits(Add8(a, b)));
  }

  lemma {:induction false} BitsPlus(p: seq<bv8>, e: seq<bv8>)
    requires |p| == |e|
    ensures Bits(Plus(p, e)) == Mix(Bits(p), Bits(e))
  {
    hide ByteBits, Add8;
    if p != [] {
      assert Plus(p, e)[1..] == Plus(p[1..], e[1..]);
      ByteBitsPlus(p[0], e[0]);
      BitsPlus(p[1..], e[1..]);
      MixConcat(ByteBits(p[0]), Bits(p[1..]), ByteBits(e[0]), Bits(e[1..]));
    }
  }

  lemma MixConcat(s: seq<bool>, s': seq<bool>, t: seq<bool>, t': seq<bool>)
    requires |s| == |t| && |s'| == |t'|
    ensures Mix(s + s', t + t') == Mix(s, t) + Mix(s', t')
  {
  }

  lemma JoinPlus(a: bv8, b: bv8, c: bv8, d: bv8, a': bv8, b': bv8, c': bv8, d': bv8)
    ensures Join(Add8(a, a'), Add8(b, b'), Add8(c, c'), Add8(d, d')) == Xor(Join(a, b, c, d), Join(a', b', c', d'))
  {
  }

  lemma MaskedPlus(p: seq<bv8>, e: seq<bv8>)
    requires |p| == |e|
    ensures Masked(Plus(p, e)) == Plus(Masked(p), Masked(e))
  {
    assert Add8(0, 0) == 0;
    hide Add8;
  }

  /** What an error does to the sum of any packet. */
  function Syndrome(e: seq<bv8>): Word { Feed(0, Bits(Masked(e))) }

  lemma CrcOfPlus(p: seq<bv8>, e: seq<bv8>)
    requires |p| == |e|
    ensures Crc(Bits(Masked(Plus(p, e)))) == Xor(Crc(Bits(Masked(p))), Syndrome(e))
  {
    hide Feed, Bits, Masked, Plus, Mix, Xor;
    MaskedPlus(p, e);
    var s, t := Bits(Masked(p)), Bits(Masked(e));
    BitsPlus(Masked(p), Masked(e));
    FeedIsLinear(ONES, 0, s, t);
    XorZero(ONES);
    XorZero(ONES);
    XorSwap(Feed(ONES, s), Feed(0, t), ONES, 0);
    XorZero(Feed(0, t));
  }

  /**
   Whatever the packet, an error escapes the receiver if and only if what it does to the field
   is what it does to the sum: it depends on the error alone.
   */
  lemma EscapesExactly(p: seq<bv8>, e: seq<bv8>)
    requires Verifies(p) && |e| == |p|
    ensures Verifies(Plus(p, e)) <==> Wire(e) == Syndrome(e)
  {
    hide Feed, Bits, Masked, Join, Crc, Syndrome, Xor, Add8;
    CrcOfPlus(p, e);
    JoinPlus(p[8], p[9], p[10], p[11], e[8], e[9], e[10], e[11]);
    XorComm(Wire(p), Wire(e));
    XorComm(Crc(Bits(Masked(p))), Syndrome(e));
    if Verifies(Plus(p, e)) {
      XorCancel(Wire(e), Syndrome(e), Wire(p));
    }
  }

  // ---------- A burst across the edge of the field ----------

  /** Bits 35 to 66, the last three of them in the checksum field. */
  const EDGE: seq<bv8> := [0, 0, 0, 0, 48, 157, 85, 83, 7, 0, 0, 0]

  lemma ByteShifts(r: Word, b: bv8)
    ensures Feed(r, ByteBits(b)) == Shift(Shift(Shift(Shift(Shift(Shift(Shift(Shift(Xor(r, Wide(b))))))))))
  {
    hide Feed, Shifts, Shift, Xor, Wide, Pack, ByteBits;
    FeedIsShifts(r, ByteBits(b));
    PackByte(b);
    ShiftsUnfold(Xor(r, Wide(b)));
  }

  lemma EdgeSteps()
    ensures Feed(0, ByteBits(0)) == 0
    ensures Feed(0, ByteBits(48)) == 0x30E3_49B1
    ensures Feed(0x30E3_49B1, ByteBits(157)) == 0x6DCE_A247
    ensures Feed(0x6DCE_A247, ByteBits(85)) == 0xF108_793A
    ensures Feed(0xF108_793A, ByteBits(83)) == 0x1985_40D7
    ensures Feed(0x1985_40D7, ByteBits(0)) == 0x0700_0000
    ensures Feed(0x0700_0000, ByteBits(0)) == 0x0007_0000
    ensures Feed(0x0007_0000, ByteBits(0)) == 0x700
    ensures Feed(0x700, ByteBits(0)) == 7
  {
    hide Feed, ByteBits;
    ByteShifts(0, 0);
    ByteShifts(0, 48);
    ByteShifts(0x30E3_49B1, 157);
    ByteShifts(0x6DCE_A247, 85);
    ByteShifts(0xF108_793A, 83);
    ByteShifts(0x1985_40D7, 0);
    ByteShifts(0x0700_0000, 0);
    ByteShifts(0x0007_0000, 0);
    ByteShifts(0x700, 0);
  }

  const EDGE_MASKED: seq<bv8> := [0, 0, 0, 0, 48, 157, 85, 83, 0, 0, 0, 0]

  lemma EdgeMasked()
    ensures Masked(EDGE) == EDGE_MASKED && Wire(EDGE) == 7
  {
    assert Join(7, 0, 0, 0) == 7;
    hide Join;
  }

  lemma FeedNext(r0: Word, s: seq<bv8>, i: nat, r: Word, r': Word)
    requires i < |s| && Feed(r0, Bits(s[..i])) == r && Feed(r, ByteBits(s[i])) == r'
    ensures Feed(r0, Bits(s[..i + 1])) == r'
  {
    hide Feed, Bits, ByteBits;
    FeedByte(r0, s, i);
  }

  lemma EdgeFirst()
    ensures Feed(0, Bits(EDGE_MASKED[..4])) == 0
  {
    hide Bits, ByteBits, Feed;
    EdgeSteps();
    FeedNothing(0, EDGE_MASKED);
    FeedNext(0, EDGE_MASKED, 0, 0, 0);
    FeedNext(0, EDGE_MASKED, 1, 0, 0);
    FeedNext(0, EDGE_MASKED, 2, 0, 0);
    FeedNext(0, EDGE_MASKED, 3, 0, 0);
  }

  lemma EdgeMiddle()
    ensures Feed(0, Bits(EDGE_MASKED[..8])) == 0x1985_40D7
  {
    hide Bits, ByteBits, Feed;
    EdgeFirst();
    EdgeSteps();
    FeedNext(0, EDGE_MASKED, 4, 0, 0x30E3_49B1);
    FeedNext(0, EDGE_MASKED, 5, 0x30E3_49B1, 0x6DCE_A247);
    FeedNext(0, EDGE_MASKED, 6, 0x6DCE_A247, 0xF108_793A);
    FeedNext(0, EDGE_MASKED, 7, 0xF108_793A, 0x1985_40D7);
  }

  lemma EdgeSyndrome()
    ensures Syndrome(EDGE) == 7
  {
    hide Masked, Bits, ByteBits, Feed;
    EdgeMasked();
    EdgeMiddle();
    EdgeSteps();
    FeedNext(0, EDGE_MASKED, 8, 0x1985_40D7, 0x0700_0000);
    FeedNext(0, EDGE_MASKED, 9, 0x0700_0000, 0x0007_0000);
    FeedNext(0, EDGE_MASKED, 10, 0x0007_0000, 0x700);
    FeedNext(0, EDGE_MASKED, 11, 0x700, 7);
    assert EDGE_MASKED[..12] == EDGE_MASKED;
  }

  lemma EdgeBits(j: nat)
    requires j < 96 && !(35 <= j < 67)
    ensures !Bits(EDGE)[j]
  {
    hide Bits;
    BitAt(EDGE, j);
    assert j / 8 < 4 || j / 8 == 4 || j / 8 >= 8;
  }

  /** Added to any packet of 12 bytes that verifies, it gives another that does. */
  lemma EdgeBurstEscapes(p: seq<bv8>)
    requires Verifies(p) && |p| == 12
    ensures var q := Plus(p, EDGE); q != p && Verifies(q) && AgreeOutside(Bits(p), Bits(q), 35, 32)
  {
    hide Bits, Masked, Syndrome, Wire, Crc;
    EdgeSyndrome();
    EdgeMasked();
    EscapesExactly(p, EDGE);
    BitsPlus(p, EDGE);
    forall j: nat | j < 96 && !(35 <= j < 67)
      ensures Bits(p)[j] == Bits(Plus(p, EDGE))[j]
    {
      EdgeBits(j);
    }
    assert Add8(p[8], 7) != p[8];
  }

  // ---------- The check value ----------

  /** The text "123456789". */
  const DIGITS: seq<bv8> := [49, 50, 51, 52, 53, 54, 55, 56, 57]

  lemma DigitSteps()
    ensures Feed(0xFFFF_FFFF, ByteBits(49)) == 0x6F0A_661C
    ensures Feed(0x6F0A_661C, ByteBits(50)) == 0x8CAA_3B9F
    ensures Feed(0x8CAA_3B9F, ByteBits(51)) == 0xEF84_D04D
    ensures Feed(0xEF84_D04D, ByteBits(52)) == 0x09C5_0B11
    ensures Feed(0x09C5_0B11, ByteBits(53)) == 0xE72E_DCCA
    ensures Feed(0xE72E_DCCA, ByteBits(54)) == 0xBECA_8E79
    ensures Feed(0xBECA_8E79, ByteBits(55)) == 0xEDBD_6815
    ensures Feed(0xEDBD_6815, ByteBits(56)) == 0x9F78_7F65
    ensures Feed(0x9F78_7F65, ByteBits(57)) == 0x1CF9_6D7C
  {
    hide Feed, ByteBits;
    ByteShifts(0xFFFF_FFFF, 49);
    ByteShifts(0x6F0A_661C, 50);
    ByteShifts(0x8CAA_3B9F, 51);
    ByteShifts(0xEF84_D04D, 52);
    ByteShifts(0x09C5_0B11, 53);
    ByteShifts(0xE72E_DCCA, 54);
    ByteShifts(0xBECA_8E79, 55);
    ByteShifts(0xEDBD_6815, 56);
    ByteShifts(0x9F78_7F65, 57);
  }

  lemma FirstDigits()
    ensures Feed(ONES, Bits(DIGITS[..5])) == 0xE72E_DCCA
  {
    hide Bits, ByteBits, Feed;
    DigitSteps();
    FeedNothing(ONES, DIGITS);
    FeedNext(ONES, DIGITS, 0, 0xFFFF_FFFF, 0x6F0A_661C);
    FeedNext(ONES, DIGITS, 1, 0x6F0A_661C, 0x8CAA_3B9F);
    FeedNext(ONES, DIGITS, 2, 0x8CAA_3B9F, 0xEF84_D04D);
    FeedNext(ONES, DIGITS, 3, 0xEF84_D04D, 0x09C5_0B11);
    FeedNext(ONES, DIGITS, 4, 0x09C5_0B11, 0xE72E_DCCA);
  }

  /** The CRC-32C of the text "123456789", by which implementations are told apart. */
  lemma CheckValue()
    ensures Crc(Bits(DIGITS)) == 0xE306_9283
  {
    hide Bits, ByteBits, Feed;
    FirstDigits();
    DigitSteps();
    FeedNext(ONES, DIGITS, 5, 0xE72E_DCCA, 0xBECA_8E79);
    FeedNext(ONES, DIGITS, 6, 0xBECA_8E79, 0xEDBD_6815);
    FeedNext(ONES, DIGITS, 7, 0xEDBD_6815, 0x9F78_7F65);
    FeedNext(ONES, DIGITS, 8, 0x9F78_7F65, 0x1CF9_6D7C);
    assert DIGITS[..9] == DIGITS;
    assert Xor(0x1CF9_6D7C, ONES) == 0xE306_9283;
  }

  lemma ZeroStep()
    ensures Feed(ONES, ByteBits(0)) == 0xAD82_ACAE
  {
    hide Feed, ByteBits;
    ByteShifts(ONES, 0);
  }

  /** What the initial register is for: a zero byte in front of any message changes its CRC. */
  lemma LeadingZeroIsSeen(s: seq<bv8>)
    ensures Crc(Bits([0] + s)) != Crc(Bits(s))
  {
    hide Bits, ByteBits, Feed, Xor;
    ZeroStep();
    OneByteFirst(0, s);
    FeedConcat(ONES, ByteBits(0), Bits(s));
    if Crc(Bits([0] + s)) == Crc(Bits(s)) {
      XorCancel(Feed(ONES, Bits([0] + s)), Feed(ONES, Bits(s)), ONES);
      FeedInjective(Feed(ONES, ByteBits(0)), ONES, Bits(s));
    }
  }

  lemma OneByteFirst(b: bv8, s: seq<bv8>)
    ensures Bits([b] + s) == ByteBits(b) + Bits(s)
  {
    hide ByteBits;
    assert ([b] + s)[1..] == s;
  }
}
