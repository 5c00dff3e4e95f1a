/** Key derivation (section 7.2 of RFC 4253) and the mpint encoding of the shared secret (section 5 of RFC 4251). */
module SshKeys {
  import opened Words
  import Sha256

  // ---------- Key derivation ----------

  /** K1 || K2 || ... || Kn: the first from the letter and the session id, each next from all before it. */
  function KeyBlocks(secret: seq<Byte>, h: seq<Byte>, letter: Byte, sessionId: seq<Byte>, n: nat): (k: seq<Byte>)
    ensures |k| == 32 * n
  {
    if n == 0 then []
    else if n == 1 then Sha256.Hash(secret + h + [letter] + sessionId)
    else
      var k := KeyBlocks(secret, h, letter, sessionId, n - 1);
      k + Sha256.Hash(secret + h + k)
  }

  /** One hash over the secret, the exchange hash and two more parts, by four updates. */
  method HashParts(secret: seq<Byte>, h: seq<Byte>, a: seq<Byte>, b: seq<Byte>) returns (hash: seq<Byte>)
    ensures hash == Sha256.Hash(secret + h + a + b)
  {
    hide Sha256.Hash, Sha256.Holds;
    var ctx := new Sha256.Context();
    ctx.Update(secret);
    ctx.Update(h);
    ctx.Update(a);
    ctx.Update(b);
    assert [] + secret + h + a + b == secret + h + a + b;
    hash := ctx.Final();
  }

  /** derive_key: the first outLen bytes of that sequence, for every length. */
  method DeriveKey(outLen: nat, secret: seq<Byte>, h: seq<Byte>, letter: Byte, sessionId: seq<Byte>)
      returns (out: seq<Byte>)
    ensures out == KeyBlocks(secret, h, letter, sessionId, (outLen + 31) / 32)[..outLen]
  {
    hide Sha256.Hash, KeyBlocks;
    var hash := HashParts(secret, h, [letter], sessionId);
    FirstBlock(secret, h, letter, sessionId);
    NoBlock(secret, h, letter, sessionId);
    out := hash[..if 32 < outLen then 32 else outLen];
    ghost var n := 1;
    while |out| < outLen
      invariant n >= 1 && (n == 1 || 32 * (n - 1) < outLen) && |out| == if 32 * n < outLen then 32 * n else outLen
      invariant out == KeyBlocks(secret, h, letter, sessionId, n)[..|out|]
      decreases outLen - |out|
    {
      hash := HashParts(secret, h, out, []);
      assert secret + h + out + [] == secret + h + out;
      NextBlock(secret, h, letter, sessionId, n);
      assert out == KeyBlocks(secret, h, letter, sessionId, n);
      var chunk := if 32 < outLen - |out| then 32 else outLen - |out|;
      assert KeyBlocks(secret, h, letter, sessionId, n + 1)[..|out| + chunk] == out + hash[..chunk];
      out := out + hash[..chunk];
      n := n + 1;
    }
    if outLen > 0 { assert (outLen + 31) / 32 == n; }
  }

  lemma NoBlock(secret: seq<Byte>, h: seq<Byte>, letter: Byte, sessionId: seq<Byte>)
    ensures KeyBlocks(secret, h, letter, sessionId, 0) == []
  {
  }

  lemma FirstBlock(secret: seq<Byte>, h: seq<Byte>, letter: Byte, sessionId: seq<Byte>)
    ensures KeyBlocks(secret, h, letter, sessionId, 1) == Sha256.Hash(secret + h + [letter] + sessionId)
  {
    hide Sha256.Hash;
  }

  lemma NextBlock(secret: seq<Byte>, h: seq<Byte>, letter: Byte, sessionId: seq<Byte>, n: nat)
    requires n >= 1
    ensures var k := KeyBlocks(secret, h, letter, sessionId, n);
            KeyBlocks(secret, h, letter, sessionId, n + 1) == k + Sha256.Hash(secret + h + k)
  {
    hide Sha256.Hash;
  }

  /** A longer derivation begins with every shorter one. */
  lemma {:induction false} KeyPrefix(secret: seq<Byte>, h: seq<Byte>, letter: Byte, sessionId: seq<Byte>,
                                     m: nat, n: nat)
    requires m <= n
    ensures KeyBlocks(secret, h, letter, sessionId, m) <= KeyBlocks(secret, h, letter, sessionId, n)
  {
    hide Sha256.Hash;
    if m == n {
    } else if m == 0 {
      NoBlock(secret, h, letter, sessionId);
    } else {
      KeyPrefix(secret, h, letter, sessionId, m, n - 1);
      NextBlock(secret, h, letter, sessionId, n - 1);
    }
  }

  // ---------- mpint ----------

  /** The number a byte string denotes, most significant byte first. */
  function Be(s: seq<Byte>): nat {
    if s == [] then 0 else 0x100 * Be(s[..|s| - 1]) + s[|s| - 1] as int
  }

  lemma {:induction false} BeLeadingZero(s: seq<Byte>)
    ensures Be([0] + s) == Be(s)
  {
    if s == [] {
      assert [0] + s == [0];
    } else {
      assert ([0] + s)[..|s|] == [0] + s[..|s| - 1];
      BeLeadingZero(s[..|s| - 1]);
    }
  }

  /** The body of an mpint: a non-negative number with no unnecessary leading byte; zero is the empty string. */
  predicate Canonical(body: seq<Byte>) {
    body == [] || 0 < body[0] < 0x80 || (body[0] == 0 && |body| > 1 && body[1] >= 0x80)
  }

  /** Read as two's complement, the body is not negative. */
  predicate NonNegative(body: seq<Byte>) { body == [] || body[0] < 0x80 }

  /** No non-negative body of the same value is shorter. */
  ghost predicate Shortest(body: seq<Byte>) {
    NonNegative(body) && forall other :: NonNegative(other) && Be(other) == Be(body) ==> |body| <= |other|
  }

  function Base(n: nat): nat { if n == 0 then 1 else 0x100 * Base(n - 1) }

  lemma {:induction false} BaseMono(m: nat, n: nat)
    requires m <= n
    ensures 1 <= Base(m) <= Base(n)
    decreases n
  {
    if m < n { BaseMono(m, n - 1); } else if n > 0 { BaseMono(m - 1, n - 1); }
  }

  /** The first byte decides the value up to a multiple of its place. */
  lemma {:induction false} BeBounds(s: seq<Byte>)
    requires s != []
    ensures s[0] as int * Base(|s| - 1) <= Be(s) < (s[0] as int + 1) * Base(|s| - 1)
  {
    if |s| == 1 {
      assert s[..0] == [];
    } else {
      var t := s[..|s| - 1];
      BeBounds(t);
      assert Be(s) == 0x100 * Be(t) + s[|s| - 1] as int && Base(|s| - 1) == 0x100 * Base(|s| - 2);
      hide Be, Base;
      ShiftBounds(s[0] as int, Base(|s| - 2), Be(t), s[|s| - 1] as int);
    }
  }

  lemma ShiftBounds(x: nat, b: nat, v: nat, last: nat)
    requires x * b <= v < (x + 1) * b && last < 0x100
    ensures x * (0x100 * b) <= 0x100 * v + last < (x + 1) * (0x100 * b)
  {
    assert x * (0x100 * b) == 0x100 * (x * b) && (x + 1) * (0x100 * b) == 0x100 * ((x + 1) * b);
  }

  lemma MulMono(x: nat, y: nat, a: nat, b: nat)
    requires x <= y && a <= b
    ensures x * a <= y * b
  {
    assert x * a <= y * a <= y * b;
  }

  /** A value below a power of the base, from its length and sign. */
  lemma BeBelow(other: seq<Byte>, n: nat)
    requires NonNegative(other) && |other| <= n && n > 0
    ensures Be(other) < 0x80 * Base(n - 1)
  {
    BaseMono(0, n - 1);
    if other != [] {
      BeBounds(other);
      BaseMono(|other| - 1, n - 1);
      hide Be, Base;
      MulMono(other[0] as int + 1, 0x80, Base(|other| - 1), Base(n - 1));
    }
  }

  /** A canonical body is too large for any shorter one. */
  lemma CanonicalIsAbove(body: seq<Byte>, n: nat)
    requires Canonical(body) && |body| == n + 1
    ensures 1 <= Be(body) && (n > 0 ==> 0x80 * Base(n - 1) <= Be(body))
  {
    BaseMono(0, n);
    BeBounds(body);
    if body[0] > 0 {
      hide Be;
      MulMono(1, body[0] as int, Base(n), Base(n));
    } else {
      var t := body[1..];
      assert body == [0] + t;
      BeLeadingZero(t);
      BeBounds(t);
      BaseMono(0, n - 1);
      hide Be, Base;
      MulMono(0x80, t[0] as int, Base(n - 1), Base(n - 1));
    }
  }

  lemma ShorterIsSmaller(body: seq<Byte>, other: seq<Byte>)
    requires Canonical(body) && NonNegative(other) && |other| < |body|
    ensures Be(other) < Be(body)
  {
    var n := |body| - 1;
    CanonicalIsAbove(body, n);
    if n > 0 {
      hide Be;
      BeBelow(other, n);
    }
  }

  /** The canonical bodies are exactly the shortest ones. */
  lemma CanonicalIsShortest(body: seq<Byte>)
    ensures Canonical(body) <==> Shortest(body)
  {
    if Canonical(body) {
      forall other | NonNegative(other) && Be(other) == Be(body)
        ensures |body| <= |other|
      {
        if |other| < |body| { ShorterIsSmaller(body, other); }
      }
    } else if NonNegative(body) {
      assert body == [0] + body[1..];
      BeLeadingZero(body[1..]);
      assert NonNegative(body[1..]);
    }
  }

  function StripZeros(s: seq<Byte>): (r: seq<Byte>)
    ensures |r| <= |s| && (r != [] ==> r[0] > 0)
  {
    if s == [] || s[0] != 0 then s else StripZeros(s[1..])
  }

  /** The bytes encode_mpint writes after the length. */
  function MpintBody(val: seq<Byte>): (body: seq<Byte>)
    ensures 1 <= |body| <= |val| + 1
  {
    var s := StripZeros(val);
    if s == [] then [0] else if s[0] >= 0x80 then [0] + s else s
  }

  lemma {:induction false} StripKeeps(s: seq<Byte>)
    ensures Be(StripZeros(s)) == Be(s)
  {
    if s != [] && s[0] == 0 {
      StripKeeps(s[1..]);
      assert s == [0] + s[1..];
      BeLeadingZero(s[1..]);
    }
  }

  /** Every 32-byte value keeps its number and sign; the encoding is the canonical one exactly if it is not zero. */
  lemma MpintMeaning(val: seq<Byte>)
    ensures Be(MpintBody(val)) == Be(val) && MpintBody(val)[0] < 0x80
    ensures Canonical(MpintBody(val)) <==> Be(val) != 0
    ensures Shortest(MpintBody(val)) <==> Be(val) != 0
  {
    CanonicalIsShortest(MpintBody(val));
    hide Shortest;
    hide Be;
    var s := StripZeros(val);
    StripKeeps(val);
    BeZero();
    if s != [] {
      BePositive(s);
      BeLeadingZero(s);
    }
  }

  /** Where the code and section 5 of RFC 4251 part: zero is written as one zero byte, not as the empty string. */
  lemma ZeroIsNotCanonical()
    ensures MpintBody(Zeros(32)) == [0] && !Canonical(MpintBody(Zeros(32)))
  {
    StripAll(32);
  }

  lemma {:induction false} StripAll(n: nat)
    ensures StripZeros(Zeros(n)) == []
  {
    if n > 0 {
      assert Zeros(n)[1..] == Zeros(n - 1);
      StripAll(n - 1);
    }
  }

  /** encode_mpint */
  method EncodeMpint(val: seq<Byte>) returns (out: seq<Byte>)
    requires |val| == 32
    ensures out == PutBe32(|MpintBody(val)|) + MpintBody(val)
  {
    hide PutBe32;
    var start := 0;
    assert val[0..] == val;
    while start < 32 && val[start] == 0
      invariant 0 <= start <= 32 && StripZeros(val[start..]) == StripZeros(val)
    {
      assert val[start..][1..] == val[start + 1..];
      start := start + 1;
    }
    if start == 32 {
      return PutBe32(1) + [0];
    }
    var len := 32 - start;
    var needPad := if And(val[start], 0x80) != 0 then 1 else 0;
    TopBit(val[start]);
    out := PutBe32(len + needPad);
    if needPad == 1 { out := out + [0]; }
    out := out + val[start..];
    assert val[start..][0] == val[start];
  }

  lemma TopBit(b: Byte)
    ensures And(b, 0x80) != 0 <==> b >= 0x80
  {
    hide And, Pow2;
    Pow2Seven();
    AndSplit(7, b % 0x80, b / 0x80, 0, 1);
    AndZero(b % 0x80);
    AndOne(b / 0x80);
  }

  lemma Pow2Seven()
    ensures Pow2(7) == 0x80
  {
  }

  lemma AndOne(x: nat)
    requires x <= 1
    ensures And(x, 1) == x
  {
  }

  lemma BeZero()
    ensures Be([]) == 0 && Be([0]) == 0
  {
    BeLeadingZero([]);
  }

  lemma {:induction false} BePositive(s: seq<Byte>)
    requires s != [] && s[0] > 0
    ensures Be(s) > 0
  {
    if |s| > 1 { BePositive(s[..|s| - 1]); }
  }

  function Reverse(s: seq<Byte>): (r: seq<Byte>)
    ensures |r| == |s|
  {
    seq(|s|, i requires 0 <= i < |s| => s[|s| - 1 - i])
  }

  /** encode_shared_secret: turning the little-endian secret round keeps the number. */
  lemma {:induction false} BeReverse(s: seq<Byte>)
    ensures Be(Reverse(s)) == Le(s)
  {
    if s == [] {
    } else {
      BeReverse(s[1..]);
      var r := Reverse(s);
      assert r[..|r| - 1] == Reverse(s[1..]) && r[|r| - 1] == s[0];
    }
  }
}
