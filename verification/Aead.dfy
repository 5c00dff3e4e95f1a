/** The ChaCha20 block function and stream cipher of the C library (RFC 7539, sections 2.3 and 2.4). */
module ChaCha20 {
  import opened Words

  type Key32 = k: seq<Byte> | |k| == 32 witness seq(32, _ => 0)
  type Nonce = n: seq<Byte> | |n| == 12 witness seq(12, _ => 0)
  type State = s: seq<Word32> | |s| == 16 witness seq(16, _ => 0)

  // ---------- The specification: section 2 of RFC 7539 ----------

  datatype Quad = Quad(a: Word32, b: Word32, c: Word32, d: Word32)

  function Rotl(v: Word32, n: nat): Word32
    requires n <= 32
  {
    Ror32(v, 32 - n)
  }

  function Add(x: Word32, y: Word32): Word32 { W32(x as int + y as int) }

  function XorWord(x: Word32, y: Word32): Word32 {
    Pow2Consts();
    XorBound(x, y, 32);
    Xor(x, y)
  }

  /** Section 2.1: the quarter round. */
  function Quarter(q: Quad): Quad {
    var a1 := Add(q.a, q.b);
    var d1 := Rotl(XorWord(q.d, a1), 16);
    var c1 := Add(q.c, d1);
    var b1 := Rotl(XorWord(q.b, c1), 12);
    var a2 := Add(a1, b1);
    var d2 := Rotl(XorWord(d1, a2), 8);
    var c2 := Add(c1, d2);
    var b2 := Rotl(XorWord(b1, c2), 7);
    Quad(a2, b2, c2, d2)
  }

  /** Section 2.3: a round on the columns of the state as a matrix of four rows. */
  function Columns(w: State): State {
    var q0 := Quarter(Quad(w[0], w[4], w[8], w[12]));
    var q1 := Quarter(Quad(w[1], w[5], w[9], w[13]));
    var q2 := Quarter(Quad(w[2], w[6], w[10], w[14]));
    var q3 := Quarter(Quad(w[3], w[7], w[11], w[15]));
    [q0.a, q1.a, q2.a, q3.a, q0.b, q1.b, q2.b, q3.b, q0.c, q1.c, q2.c, q3.c, q0.d, q1.d, q2.d, q3.d]
  }

  /** Row i moves i places to the left, so that the diagonals become columns. */
  function Skew(w: State): State {
    [w[0], w[1], w[2], w[3], w[5], w[6], w[7], w[4], w[10], w[11], w[8], w[9], w[15], w[12], w[13], w[14]]
  }

  function Unskew(w: State): State {
    [w[0], w[1], w[2], w[3], w[7], w[4], w[5], w[6], w[10], w[11], w[8], w[9], w[13], w[14], w[15], w[12]]
  }

  lemma UnskewSkew(w: State)
    ensures Unskew(Skew(w)) == w && Skew(Unskew(w)) == w
  {
  }

  function DoubleRound(w: State): State { Unskew(Columns(Skew(Columns(w)))) }

  function Rounds(w: State, n: nat): State
    decreases n
  {
    hide DoubleRound;
    if n == 0 then w else DoubleRound(Rounds(w, n - 1))
  }

  function LoadWords(s: seq<Byte>): (w: seq<Word32>)
    requires |s| % 4 == 0
    ensures |w| == |s| / 4
  {
    if s == [] then [] else [Le32(s)] + LoadWords(s[4..])
  }

  function StoreWords(w: seq<Word32>): (s: seq<Byte>)
    ensures |s| == 4 * |w|
  {
    if w == [] then [] else PutLe(w[0], 4) + StoreWords(w[1..])
  }

  function InitialState(key: Key32, counter: Word32, nonce: Nonce): State {
    [0x61707865, 0x3320646e, 0x79622d32, 0x6b206574] + LoadWords(key) + [counter] + LoadWords(nonce)
  }

  /** The constants spell "expand 32-byte k". */
  lemma ConstantsAreText(key: Key32, counter: Word32, nonce: Nonce)
    ensures StoreWords(InitialState(key, counter, nonce)[..4])
         == [101, 120, 112, 97, 110, 100, 32, 51, 50, 45, 98, 121, 116, 101, 32, 107]
  {
    hide LoadWords, StoreWords, PutLe;
    var c: seq<Word32> := [0x61707865] + ([0x3320646e] + ([0x79622d32] + [0x6b206574]));
    assert InitialState(key, counter, nonce)[..4] == c;
    hide InitialState;
    StoreCons(0x61707865, [0x3320646e] + ([0x79622d32] + [0x6b206574]));
    StoreCons(0x3320646e, [0x79622d32] + [0x6b206574]);
    StoreCons(0x79622d32, [0x6b206574]);
    StoreOne(0x6b206574);
    PutWord(0x61707865, 101, 120, 112, 97);
    PutWord(0x3320646e, 110, 100, 32, 51);
    PutWord(0x79622d32, 50, 45, 98, 121);
    PutWord(0x6b206574, 116, 101, 32, 107);
  }

  lemma StoreCons(v: Word32, w: seq<Word32>)
    ensures StoreWords([v] + w) == PutLe(v, 4) + StoreWords(w)
  {
    hide PutLe;
    assert ([v] + w)[1..] == w;
  }

  lemma StoreOne(v: Word32)
    ensures StoreWords([v]) == PutLe(v, 4)
  {
    hide PutLe;
    assert [v][1..] == [];
  }

  lemma StorePrefix(w: seq<Word32>, i: nat)
    requires i < |w|
    ensures StoreWords(w[..i + 1]) == StoreWords(w[..i]) + PutLe(w[i], 4)
  {
    hide PutLe, StoreWords;
    StoreAppend(w[..i], w[i]);
    assert w[..i + 1] == w[..i] + [w[i]];
  }

  lemma PutWord(v: Word32, a: Byte, b: Byte, c: Byte, d: Byte)
    requires v == a + 0x100 * b + 0x1_0000 * c + 0x100_0000 * d
    ensures PutLe(v, 4) == [a, b, c, d]
  {
    DivModUnique(v, 0x100, b + 0x100 * c + 0x1_0000 * d, a);
    DivModUnique(v / 0x100, 0x100, c + 0x100 * d, b);
    DivModUnique(v / 0x100 / 0x100, 0x100, d, c);
    assert PutLe(d, 1) == [d];
    assert PutLe(c + 0x100 * d, 2) == [c] + PutLe(d, 1);
    assert PutLe(b + 0x100 * c + 0x1_0000 * d, 3) == [b] + PutLe(c + 0x100 * d, 2);
  }

  /** Word by word, modulo 2^32. */
  function Sums(w: State, s: State): (t: State)
    ensures forall i :: 0 <= i < 16 ==> t[i] == Add(w[i], s[i])
  {
    seq(16, i requires 0 <= i < 16 => Add(w[i], s[i]))
  }

  /** The key stream: 64 bytes for every counter. */
  function Block(key: Key32, counter: Word32, nonce: Nonce): (s: seq<Byte>)
    ensures |s| == 64
  {
    hide Rounds, InitialState;
    var s := InitialState(key, counter, nonce);
    StoreWords(Sums(Rounds(s, 10), s))
  }

  // ---------- The block function as written ----------

  /** ROTL32 */
  method RotateLeft(v: Word32, n: nat) returns (r: Word32)
    requires n <= 32
    ensures r == Rotl(v, n)
  {
    hide Or, Shr, Shl32, Pow2;
    RotateIsOr(v, 32 - n);
    r := Or(Shl32(v, n), Shr(v, 32 - n));
  }

  /** Four words of the state replaced by their quarter round. */
  function Placed(w: State, a: nat, b: nat, c: nat, d: nat): State
    requires a < 16 && b < 16 && c < 16 && d < 16
  {
    var q := Quarter(Quad(w[a], w[b], w[c], w[d]));
    w[a := q.a][b := q.b][c := q.c][d := q.d]
  }

  /** QR on four words. */
  method Mix(a0: Word32, b0: Word32, c0: Word32, d0: Word32) returns (a: Word32, b: Word32, c: Word32, d: Word32)
    ensures Quad(a, b, c, d) == Quarter(Quad(a0, b0, c0, d0))
  {
    hide Rotl, W32, XorWord;
    a, b, c, d := a0, b0, c0, d0;
    a := W32(a as int + b as int);
    d := XorWord(d, a);
    d := RotateLeft(d, 16);
    c := W32(c as int + d as int);
    b := XorWord(b, c);
    b := RotateLeft(b, 12);
    a := W32(a as int + b as int);
    d := XorWord(d, a);
    d := RotateLeft(d, 8);
    c := W32(c as int + d as int);
    b := XorWord(b, c);
    b := RotateLeft(b, 7);
  }

  /** QR, in place. */
  method QuarterRound(w: array<Word32>, a: nat, b: nat, c: nat, d: nat)
    requires w.Length == 16 && a < 16 && b < 16 && c < 16 && d < 16
    requires a != b && a != c && a != d && b != c && b != d && c != d
    modifies w
    ensures w[..] == Placed(old(w[..]), a, b, c, d)
  {
    hide Quarter;
    w[a], w[b], w[c], w[d] := Mix(w[a], w[b], w[c], w[d]);
  }

  lemma ColumnRound(w: State)
    ensures Placed(Placed(Placed(Placed(w, 0, 4, 8, 12), 1, 5, 9, 13), 2, 6, 10, 14), 3, 7, 11, 15) == Columns(w)
  {
    hide Quarter;
  }

  lemma DiagonalRound(w: State)
    ensures Placed(Placed(Placed(Placed(w, 0, 5, 10, 15), 1, 6, 11, 12), 2, 7, 8, 13), 3, 4, 9, 14)
         == Unskew(Columns(Skew(w)))
  {
    hide Quarter;
  }

  /** One turn of the loop. */
  method TwoRounds(w: array<Word32>)
    requires w.Length == 16
    modifies w
    ensures w[..] == DoubleRound(old(w[..]))
  {
    ColumnRound(w[..]);
    DiagonalRound(Columns(w[..]));
    hide Placed, Columns, Skew, Unskew;
    QuarterRound(w, 0, 4, 8, 12);
    QuarterRound(w, 1, 5, 9, 13);
    QuarterRound(w, 2, 6, 10, 14);
    QuarterRound(w, 3, 7, 11, 15);
    QuarterRound(w, 0, 5, 10, 15);
    QuarterRound(w, 1, 6, 11, 12);
    QuarterRound(w, 2, 7, 8, 13);
    QuarterRound(w, 3, 4, 9, 14);
  }

  lemma {:induction false} LoadedAt(s: seq<Byte>, i: nat)
    requires |s| % 4 == 0 && 4 * i + 4 <= |s|
    ensures LoadWords(s)[i] == Le32(s[4 * i..])
  {
    hide Le32;
    if i > 0 {
      LoadedAt(s[4..], i - 1);
      assert s[4..][4 * (i - 1)..] == s[4 * i..];
    } else {
      assert s[0..] == s;
    }
  }

  lemma {:induction false} StoreAppend(w: seq<Word32>, v: Word32)
    ensures StoreWords(w + [v]) == StoreWords(w) + PutLe(v, 4)
  {
    hide PutLe;
    if w == [] {
      assert w + [v] == [v] && [v][1..] == [];
    } else {
      assert (w + [v])[1..] == w[1..] + [v];
      StoreAppend(w[1..], v);
    }
  }

  /** The input words, set one by one. */
  method SetUp(key: Key32, counter: Word32, nonce: Nonce, s: array<Word32>)
    requires s.Length == 16
    modifies s
    ensures s[..] == InitialState(key, counter, nonce)
  {
    hide Le32, LoadWords;
    s[0], s[1], s[2], s[3] := 0x61707865, 0x3320646e, 0x79622d32, 0x6b206574;
    for i := 0 to 8
      invariant s[..4] == [0x61707865, 0x3320646e, 0x79622d32, 0x6b206574]
      invariant forall k :: 0 <= k < i ==> s[4 + k] == LoadWords(key)[k]
    {
      LoadedAt(key, i);
      s[4 + i] := Le32(key[4 * i..]);
    }
    LoadedAt(nonce, 0);
    LoadedAt(nonce, 1);
    LoadedAt(nonce, 2);
    s[12] := counter;
    s[13], s[14], s[15] := Le32(nonce[0..]), Le32(nonce[4..]), Le32(nonce[8..]);
    assert s[4..12] == LoadWords(key) && s[13..] == LoadWords(nonce);
  }

  /** chacha20_block */
  method ComputeBlock(key: Key32, counter: Word32, nonce: Nonce) returns (out: seq<Byte>)
    ensures out == Block(key, counter, nonce)
  {
    hide DoubleRound, InitialState, StoreWords, Rounds;
    var s := new Word32[16](_ => 0);
    SetUp(key, counter, nonce, s);
    var w := new Word32[16](i requires 0 <= i < 16 reads s => s[i]);
    assert w[..] == s[..];
    RoundsStep(s[..], 0);
    for i := 0 to 10
      invariant s[..] == InitialState(key, counter, nonce) && w[..] == Rounds(s[..], i)
    {
      TwoRounds(w);
      RoundsStep(s[..], i);
    }
    ghost var u, v := w[..], s[..];
    ghost var sums := Sums(u, v);
    hide Sums;
    out := [];
    StoreNothing();
    for i := 0 to 16
      invariant out == StoreWords(sums[..i]) && w[..] == u && s[..] == v
    {
      StorePrefix(sums, i);
      out := out + PutLe(W32(w[i] as int + s[i] as int), 4);
    }
    assert sums[..16] == sums;
  }

  lemma RoundsStep(w: State, n: nat)
    ensures Rounds(w, 0) == w && Rounds(w, n + 1) == DoubleRound(Rounds(w, n))
  {
    hide DoubleRound;
  }

  lemma StoreNothing()
    ensures StoreWords([]) == []
  {
  }

  // ---------- The stream cipher ----------

  /** Byte i of the key stream that starts at a given block counter. */
  function StreamByte(key: Key32, counter: Word32, nonce: Nonce, i: nat): Byte {
    Block(key, W32(counter + i / 64), nonce)[i % 64]
  }

  function XorByte(x: Byte, y: Byte): Byte {
    XorBound(x, y, 8);
    Pow2Small();
    Xor(x, y)
  }

  /** What chacha20_encrypt writes: every byte xor-ed with its key stream byte. */
  function Crypt(key: Key32, counter: Word32, nonce: Nonce, data: seq<Byte>): (out: seq<Byte>)
    ensures |out| == |data|
  {
    seq(|data|, i requires 0 <= i < |data| => XorByte(data[i], StreamByte(key, counter, nonce, i)))
  }

  /** Encrypting twice gives the data back, whatever its length and the starting counter. */
  lemma CryptInvolution(key: Key32, counter: Word32, nonce: Nonce, data: seq<Byte>)
    ensures Crypt(key, counter, nonce, Crypt(key, counter, nonce, data)) == data
  {
    hide Block, Xor;
    var once := Crypt(key, counter, nonce, data);
    var twice := Crypt(key, counter, nonce, once);
    forall i | 0 <= i < |data|
      ensures twice[i] == data[i]
    {
      XorCancel(data[i], StreamByte(key, counter, nonce, i));
    }
  }

  /** chacha20_encrypt: block by block, advancing a 32-bit counter that may wrap. */
  method Encrypt(key: Key32, counter: Word32, nonce: Nonce, input: seq<Byte>, out: array<Byte>)
    requires out.Length >= |input|
    modifies out
    ensures out[..|input|] == Crypt(key, counter, nonce, input)
    ensures out[|input|..] == old(out[|input|..])
  {
    hide Block, Xor;
    var len := |input|;
    var i := 0;
    var ctr := counter;
    while i < len
      invariant 0 <= i && i % 64 == 0
      invariant ctr == W32(counter + i / 64)
      invariant forall k :: 0 <= k < i && k < len ==> out[k] == XorByte(input[k], StreamByte(key, counter, nonce, k))
      invariant forall k :: len <= k < out.Length ==> out[k] == old(out[k])
    {
      var block := ComputeBlock(key, ctr, nonce);
      var chunk := len - i;
      if chunk > 64 { chunk := 64; }
      var j := 0;
      while j < chunk
        invariant 0 <= j <= chunk
        invariant forall k :: 0 <= k < i + j ==> out[k] == XorByte(input[k], StreamByte(key, counter, nonce, k))
        invariant forall k :: len <= k < out.Length ==> out[k] == old(out[k])
      {
        BlockIndex(i, j);
        out[i + j] := XorByte(input[i + j], block[j]);
        j := j + 1;
      }
      CounterStep(counter, i);
      ctr := W32(ctr as int + 1);
      i := i + 64;
    }
  }

  lemma BlockIndex(i: nat, j: nat)
    requires i % 64 == 0 && j < 64
    ensures (i + j) / 64 == i / 64 && (i + j) % 64 == j
  {
  }

  lemma CounterStep(counter: Word32, i: nat)
    requires i % 64 == 0
    ensures W32(W32(counter + i / 64) as int + 1) == W32(counter + (i + 64) / 64)
  {
  }
}

/** ChaCha20-Poly1305 (section 2.8 of RFC 7539) with its tag built block by block. */
module Aead {
  import opened Words
  import opened Limbs
  import opened ChaCha20
  import Poly1305

  function PolyKey(key: Key32, nonce: Nonce): Poly1305.Key {
    hide Block;
    Block(key, 0, nonce)[..32]
  }

  lemma OneTimeKey(key: Key32, nonce: Nonce)
    ensures PolyKey(key, nonce) == Block(key, 0, nonce)[..32]
  {
    hide Block;
  }

  /** Zero bytes up to a multiple of 16. */
  function Pad16(s: seq<Byte>): (p: seq<Byte>)
    ensures |p| % 16 == 0 && |s| <= |p|
  {
    if |s| % 16 == 0 then s else s + seq(16 - |s| % 16, _ => 0)
  }

  /** aad || pad16 || ciphertext || pad16 || le64(|aad|) || le64(|ciphertext|) */
  function MacInput(aad: seq<Byte>, ct: seq<Byte>): seq<Byte> {
    Pad16(aad) + Pad16(ct) + (PutLe(|aad|, 8) + PutLe(|ct|, 8))
  }

  function Tag(key: Key32, nonce: Nonce, aad: seq<Byte>, ct: seq<Byte>): (tag: seq<Byte>)
    ensures |tag| == 16
  {
    Poly1305.Mac(MacInput(aad, ct), PolyKey(key, nonce))
  }

  function Sealed(key: Key32, nonce: Nonce, aad: seq<Byte>, pt: seq<Byte>): (seq<Byte>, seq<Byte>) {
    var ct := Crypt(key, 1, nonce, pt);
    (ct, Tag(key, nonce, aad, ct))
  }

  function Opened(key: Key32, nonce: Nonce, aad: seq<Byte>, ct: seq<Byte>, tag: seq<Byte>): Option<seq<Byte>> {
    if tag == Tag(key, nonce, aad, ct) then Some(Crypt(key, 1, nonce, ct)) else None
  }

  /** Opening what was sealed gives the plaintext; the sealed text opens under no other tag. */
  lemma OpenSeal(key: Key32, nonce: Nonce, aad: seq<Byte>, pt: seq<Byte>, tag: seq<Byte>)
    ensures var s := Sealed(key, nonce, aad, pt);
            Opened(key, nonce, aad, s.0, tag) == if tag == s.1 then Some(pt) else None
  {
    hide Crypt, Tag;
    CryptInvolution(key, 1, nonce, pt);
  }

  /**
   One key stream serves both purposes, and no byte of it twice: its first 32 bytes are the
   one-time key, the rest of its first block is not used, and the text is encrypted from its
   second block on.
   */
  lemma OneKeyStream(key: Key32, nonce: Nonce, aad: seq<Byte>, pt: seq<Byte>)
    ensures var s := Crypt(key, 0, nonce, Zeros(64) + pt);
      s[..32] == PolyKey(key, nonce) && s[64..] == Sealed(key, nonce, aad, pt).0
  {
    hide Block, Xor, Tag;
    var s := Crypt(key, 0, nonce, Zeros(64) + pt);
    forall i | 0 <= i < 32
      ensures s[i] == PolyKey(key, nonce)[i]
    {
      XorZero(StreamByte(key, 0, nonce, i));
      W32Id(0);
    }
    forall i | 0 <= i < |pt|
      ensures s[64 + i] == Crypt(key, 1, nonce, pt)[i]
    {
      assert (64 + i) / 64 == 1 + i / 64 && (64 + i) % 64 == i % 64;
    }
  }

  // ---------- The tag, block by block ----------

  const HIBIT: Word32 := 0x100_0000

  lemma LastPadded(data: seq<Byte>, full: nat)
    requires full == |data| - |data| % 16
    ensures full == |data| ==> Pad16(data) == data[..full]
    ensures full < |data| ==> Pad16(data) == data[..full] + (data[full..] + seq(16 - |data[full..]|, _ => 0))
  {
    assert data == data[..full] + data[full..];
  }

  /** Absorbing a and then b, both in whole blocks, is absorbing a + b. */
  lemma AbsorbTwice(acc0: nat, acc1: nat, acc2: nat, a: seq<Byte>, b: seq<Byte>, r: nat)
    requires |a| % 16 == 0 && |b| % 16 == 0
    requires Congruent(Poly1305.PRIME, acc1, Poly1305.Absorb(acc0, a, r))
    requires Congruent(Poly1305.PRIME, acc2, Poly1305.Absorb(acc1, b, r))
    ensures Congruent(Poly1305.PRIME, acc2, Poly1305.Absorb(acc0, a + b, r))
  {
    hide Poly1305.Absorb;
    Poly1305.AbsorbConcat(acc0, a, b, r);
    Poly1305.AbsorbCongruent(acc1, Poly1305.Absorb(acc0, a, r), b, r);
  }

  lemma AbsorbNothing(acc: nat, r: nat)
    ensures Poly1305.Absorb(acc, [], r) == acc
  {
  }

  /** Whole blocks, then a zero-padded last one if bytes are left: the absorption of Pad16(data). */
  method AbsorbPadded(st: Poly1305.State, data: seq<Byte>)
    requires st.Valid() && |data| < 0x1_0000_0000_0000_0000
    modifies st`h
    ensures st.Valid() && st.R() == old(st.R())
    ensures Congruent(Poly1305.PRIME, st.Acc(), Poly1305.Absorb(old(st.Acc()), Pad16(data), st.R()))
  {
    hide And, Poly1305.AbsorbBlocks, Poly1305.Absorb, Pad16, Poly1305.Value;
    var full := And(|data|, 0xFFFF_FFFF_FFFF_FFF0);
    Poly1305.RoundDown(|data|);
    LastPadded(data, full);
    ghost var acc0, r := st.Acc(), st.R();
    if full > 0 {
      st.Blocks(data[..full], HIBIT);
      Poly1305.AbsorbBlocksFull(acc0, data[..full], r);
    } else {
      AbsorbNothing(acc0, r);
      assert data[..full] == [];
    }
    if |data| > full {
      ghost var acc1 := st.Acc();
      var pad := data[full..] + seq(16 - |data[full..]|, _ => 0);
      st.Blocks(pad, HIBIT);
      Poly1305.AbsorbBlocksFull(acc1, pad, r);
      AbsorbTwice(acc0, acc1, st.Acc(), data[..full], pad, r);
    }
  }

  /** The MAC part shared by encryption and decryption. */
  method ComputeTag(key: Key32, nonce: Nonce, aad: seq<Byte>, ct: seq<Byte>) returns (tag: seq<Byte>)
    requires |aad| < 0x1_0000_0000_0000_0000 && |ct| < 0x1_0000_0000_0000_0000
    ensures tag == Tag(key, nonce, aad, ct)
  {
    hide Poly1305.AbsorbBlocks, Poly1305.Absorb, Poly1305.Value, Poly1305.Mac, Poly1305.ClampedR, Poly1305.Value4;
    hide Pad16, PutLe, Le, PolyKey, Block;
    var block := ComputeBlock(key, 0, nonce);
    var polyKey := block[..32];
    OneTimeKey(key, nonce);
    var st := new Poly1305.State(polyKey);
    ghost var r := st.R();
    AbsorbPadded(st, aad);
    ghost var acc1 := st.Acc();
    AbsorbPadded(st, ct);
    ghost var acc2 := st.Acc();
    var lens := PutLe(|aad|, 8) + PutLe(|ct|, 8);
    st.Blocks(lens, HIBIT);
    Poly1305.AbsorbBlocksFull(acc2, lens, r);
    AbsorbTwice(0, acc1, acc2, Pad16(aad), Pad16(ct), r);
    AbsorbTwice(0, acc2, st.Acc(), Pad16(aad) + Pad16(ct), lens, r);
    Poly1305.TagOf(st.Acc(), MacInput(aad, ct), polyKey);
    tag := st.Finish();
  }

  /** chacha20_poly1305_encrypt. */
  method Seal(key: Key32, nonce: Nonce, aad: seq<Byte>, plaintext: seq<Byte>, ciphertext: array<Byte>)
      returns (tag: seq<Byte>)
    requires |aad| < 0x1_0000_0000_0000_0000 && |plaintext| < 0x1_0000_0000_0000_0000
    requires ciphertext.Length >= |plaintext|
    modifies ciphertext
    ensures (ciphertext[..|plaintext|], tag) == Sealed(key, nonce, aad, plaintext)
  {
    hide Crypt, Tag;
    Encrypt(key, 1, nonce, plaintext, ciphertext);
    tag := ComputeTag(key, nonce, aad, ciphertext[..|plaintext|]);
  }

  /** chacha20_poly1305_decrypt: -1, with the output untouched, exactly when the tag is wrong. */
  method Open(key: Key32, nonce: Nonce, aad: seq<Byte>, ciphertext: seq<Byte>, plaintext: array<Byte>, tag: seq<Byte>)
      returns (rc: int)
    requires |aad| < 0x1_0000_0000_0000_0000 && |ciphertext| < 0x1_0000_0000_0000_0000
    requires plaintext.Length >= |ciphertext| && |tag| == 16
    modifies plaintext
    ensures rc == 0 || rc == -1
    ensures match Opened(key, nonce, aad, ciphertext, tag)
            case Some(pt) => rc == 0 && plaintext[..|ciphertext|] == pt
            case None => rc == -1 && plaintext[..] == old(plaintext[..])
  {
    hide Crypt, Tag;
    var computed := ComputeTag(key, nonce, aad, ciphertext);
    var equal := SameTag(computed, tag);
    if !equal { return -1; }
    Encrypt(key, 1, nonce, ciphertext, plaintext);
    rc := 0;
  }

  /** The constant-time comparison: or together the xors of all byte pairs. */
  method SameTag(a: seq<Byte>, b: seq<Byte>) returns (equal: bool)
    requires |a| == 16 && |b| == 16
    ensures equal <==> a == b
  {
    hide Or, Xor;
    var diff: Byte := 0;
    for i := 0 to 16
      invariant diff == 0 <==> a[..i] == b[..i]
    {
      XorEqZero(a[i], b[i]);
      OrZero(diff, XorByte(a[i], b[i]));
      OrByteBound(diff, XorByte(a[i], b[i]));
      diff := Or(diff, XorByte(a[i], b[i]));
      assert a[..i + 1] == a[..i] + [a[i]] && b[..i + 1] == b[..i] + [b[i]];
    }
    assert a[..16] == a && b[..16] == b;
    equal := diff == 0;
  }

  lemma OrByteBound(x: Byte, y: Byte)
    ensures Or(x, y) < 0x100
  {
    Pow2Small();
    OrBound(x, y, 8);
  }
}
