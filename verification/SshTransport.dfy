/**
 The SSH binary packet layer (section 6 of RFC 4253 and the chacha20-poly1305@openssh.com
 construction) over a TCP connection that may accept and deliver any number of bytes per call.
 */
module SshTransport {
  import opened Words
  import opened ChaCha20
  import Poly1305
  import Aead

  const SSH_MAX_PACKET := 35000
  const SSH_MAX_PAYLOAD := 32768

  lemma CounterAdd(n: Word32, m: nat)
    ensures W32(W32(n as int + 1) as int + m) == W32(n as int + (m + 1))
  {
  }

  // ---------- Packets as byte strings ----------

  /** Padding to a multiple of 8, never less than 4 bytes. */
  function PaddingLen(plen: nat): (p: nat)
    ensures 4 <= p <= 11 && (4 + 1 + plen + p) % 8 == 0
  {
    var p := 8 - (4 + 1 + plen) % 8;
    if p < 4 then p + 8 else p
  }

  function PacketLen(plen: nat): nat { 1 + plen + PaddingLen(plen) }

  type Payload = p: seq<Byte> | |p| <= 32768 witness []

  type KeyPair = k: seq<Byte> | |k| == 64 witness seq(64, _ => 0)

  /** padding_length || payload || padding */
  function Body(p: Payload): (s: seq<Byte>)
    ensures |s| == PacketLen(|p|)
  {
    [PaddingLen(|p|)] + p + Zeros(PaddingLen(|p|))
  }

  function EncodePlain(p: Payload): seq<Byte> { PutBe32(PacketLen(|p|)) + Body(p) }

  /** make_nonce: eight zero bytes and the sequence number. */
  function MakeNonce(n: Word32): Nonce { Zeros(8) + PutBe32(n) }

  function K1(k: KeyPair): Key32 { k[..32] }
  function K2(k: KeyPair): Key32 { k[32..] }

  /** The nonce is the sequence number, so different numbers give different nonces. */
  lemma NonceIsNumber(n: Word32, m: Word32)
    ensures MakeNonce(n)[..8] == Zeros(8) && GetBe32(MakeNonce(n)[8..]) == n
    ensures MakeNonce(n) == MakeNonce(m) <==> n == m
  {
    hide PutBe32, GetBe32;
    assert MakeNonce(n)[8..] == PutBe32(n) + [] && MakeNonce(m)[8..] == PutBe32(m) + [];
    Be32RoundTrip(n, []);
    Be32RoundTrip(m, []);
  }

  /** So no two of the first 2^32 packets of a direction share a nonce, wherever the counter starts. */
  lemma NoncesAreFresh(n: Word32, i: nat, j: nat)
    requires i < j < i + 0x1_0000_0000
    ensures MakeNonce(W32(n as int + i)) != MakeNonce(W32(n as int + j))
  {
    hide MakeNonce;
    NonceIsNumber(W32(n as int + i), W32(n as int + j));
    DistinctWords(n + i, n + j);
  }

  lemma DistinctWords(a: nat, b: nat)
    requires a < b < a + 0x1_0000_0000
    ensures W32(a) != W32(b)
  {
  }

  function PacketMac(k: KeyPair, n: Word32, encLen: seq<Byte>, ct: seq<Byte>): (mac: seq<Byte>)
    ensures |mac| == 16
  {
    Poly1305.Mac(encLen + ct, Aead.PolyKey(K2(k), MakeNonce(n)))
  }

  function EncodeEncrypted(k: KeyPair, n: Word32, p: Payload): seq<Byte> {
    var encLen := Crypt(K1(k), 0, MakeNonce(n), PutBe32(PacketLen(|p|)));
    var ct := Crypt(K2(k), 1, MakeNonce(n), Body(p));
    encLen + (ct + PacketMac(k, n, encLen, ct))
  }

  /**
   The parts of an encrypted packet: the first half of the key hides the length, the second
   half the body from its second block on, and the start of its first block is the key of the
   tag over both.
   */
  lemma EncryptedParts(k: KeyPair, n: Word32, p: Payload)
    ensures var s, len := EncodeEncrypted(k, n, p), PacketLen(|p|);
      && |s| == 4 + len + 16
      && s[..4] == Crypt(k[..32], 0, MakeNonce(n), PutBe32(len))
      && s[4..4 + len] == Crypt(k[32..], 1, MakeNonce(n), Body(p))
      && s[4 + len..] == Poly1305.Mac(s[..4 + len], Block(k[32..], 0, MakeNonce(n))[..32])
  {
    hide PutBe32, Crypt, MakeNonce, Poly1305.Mac, Block, Aead.PolyKey;
    var s, len := EncodeEncrypted(k, n, p), PacketLen(|p|);
    var encLen := Crypt(K1(k), 0, MakeNonce(n), PutBe32(len));
    var ct := Crypt(K2(k), 1, MakeNonce(n), Body(p));
    Aead.OneTimeKey(K2(k), MakeNonce(n));
    assert s[..4 + len] == encLen + ct;
  }

  /** What the n-th packet of a direction looks like on the wire. */
  function Encode(active: bool, k: KeyPair, n: Word32, p: Payload): seq<Byte> {
    if active then EncodeEncrypted(k, n, p) else EncodePlain(p)
  }

  datatype Received = Fail | Got(payload: Payload, rest: seq<Byte>)

  function DecodePlain(s: seq<Byte>): Received {
    if |s| < 5 then Fail else
    var packetLen := GetBe32(s);
    if packetLen < 1 || packetLen > SSH_MAX_PACKET then Fail else
    var payloadLen := packetLen - 1 - s[4];
    if payloadLen < 0 || payloadLen > SSH_MAX_PAYLOAD || |s| < 4 + packetLen then Fail else
    Got(s[5..5 + payloadLen], s[4 + packetLen..])
  }

  function DecodeEncrypted(k: KeyPair, n: Word32, s: seq<Byte>): Received {
    hide Crypt, PacketMac, MakeNonce;
    if |s| < 4 then Fail else
    var encLen := s[..4];
    var packetLen := GetBe32(Crypt(K1(k), 0, MakeNonce(n), encLen));
    if packetLen < 1 || packetLen > SSH_MAX_PACKET || |s| < 4 + packetLen + 16 then Fail else
    var ct := s[4..4 + packetLen];
    if s[4 + packetLen..4 + packetLen + 16] != PacketMac(k, n, encLen, ct) then Fail else
    var pt := Crypt(K2(k), 1, MakeNonce(n), ct);
    var payloadLen := packetLen - 1 - pt[0];
    if payloadLen < 0 || payloadLen > SSH_MAX_PAYLOAD then Fail else
    Got(pt[1..1 + payloadLen], s[4 + packetLen + 16..])
  }

  function Decode(active: bool, k: KeyPair, n: Word32, s: seq<Byte>): Received {
    if active then DecodeEncrypted(k, n, s) else DecodePlain(s)
  }

  // ---------- One packet ----------

  lemma PlainRoundTrip(p: Payload, rest: seq<Byte>)
    ensures DecodePlain(EncodePlain(p) + rest) == Got(p, rest)
  {
    hide PutBe32, GetBe32;
    var s := EncodePlain(p) + rest;
    var n := PacketLen(|p|);
    assert s == PutBe32(n) + (Body(p) + rest);
    Be32RoundTrip(n, Body(p) + rest);
    assert s[4] == Body(p)[0] && s[5..5 + |p|] == p && s[4 + n..] == rest;
  }

  lemma EncryptedRoundTrip(k: KeyPair, n: Word32, p: Payload, rest: seq<Byte>)
    ensures DecodeEncrypted(k, n, EncodeEncrypted(k, n, p) + rest) == Got(p, rest)
  {
    hide PutBe32, GetBe32, Crypt, PacketMac, MakeNonce, K1, K2;
    var s := EncodeEncrypted(k, n, p) + rest;
    var len := PacketLen(|p|);
    var lenBuf := PutBe32(len);
    var encLen := Crypt(K1(k), 0, MakeNonce(n), lenBuf);
    var ct := Crypt(K2(k), 1, MakeNonce(n), Body(p));
    CryptInvolution(K1(k), 0, MakeNonce(n), lenBuf);
    CryptInvolution(K2(k), 1, MakeNonce(n), Body(p));
    Be32RoundTrip(len, []);
    assert lenBuf + [] == lenBuf;
    assert s[..4] == encLen && s[4..4 + len] == ct;
    assert s[4 + len..4 + len + 16] == PacketMac(k, n, encLen, ct) && s[4 + len + 16..] == rest;
    assert Body(p)[1..1 + |p|] == p;
  }

  lemma RoundTrip(active: bool, k: KeyPair, n: Word32, p: Payload, rest: seq<Byte>)
    ensures Decode(active, k, n, Encode(active, k, n, p) + rest) == Got(p, rest)
  {
    hide DecodePlain, DecodeEncrypted, EncodePlain, EncodeEncrypted;
    if active { EncryptedRoundTrip(k, n, p, rest); } else { PlainRoundTrip(p, rest); }
  }

  // ---------- A whole direction of a connection ----------

  /** A payload together with whether the keys were active when it was sent. */
  datatype Sent = Sent(active: bool, payload: Payload)

  /** The byte stream of a list of packets, the sequence number going up by one per packet. */
  function Stream(k: KeyPair, n: Word32, msgs: seq<Sent>): seq<Byte>
    decreases |msgs|
  {
    if msgs == [] then []
    else Encode(msgs[0].active, k, n, msgs[0].payload) + Stream(k, W32(n as int + 1), msgs[1..])
  }

  datatype AllReceived = Broken | All(payloads: seq<Payload>, n: Word32, rest: seq<Byte>)

  /** Receiving as many packets as there are flags. */
  function ReceiveAll(k: KeyPair, n: Word32, actives: seq<bool>, s: seq<Byte>): AllReceived
    decreases |actives|
  {
    if actives == [] then All([], n, s)
    else match Decode(actives[0], k, n, s)
      case Fail => Broken
      case Got(p, rest) =>
        match ReceiveAll(k, W32(n as int + 1), actives[1..], rest)
        case Broken => Broken
        case All(ps, n', rest') => All([p] + ps, n', rest')
  }

  function Actives(msgs: seq<Sent>): (a: seq<bool>)
    ensures |a| == |msgs|
  {
    seq(|msgs|, i requires 0 <= i < |msgs| => msgs[i].active)
  }

  function Payloads(msgs: seq<Sent>): seq<Payload> {
    seq(|msgs|, i requires 0 <= i < |msgs| => msgs[i].payload)
  }

  /**
   A peer with the same keys and counter that switches to encryption at the same packet
   recovers exactly the list sent, in order, and ends with the sender's counter.
   */
  lemma {:induction false} StreamRecovered(k: KeyPair, n: Word32, msgs: seq<Sent>, rest: seq<Byte>)
    ensures ReceiveAll(k, n, Actives(msgs), Stream(k, n, msgs) + rest)
         == All(Payloads(msgs), W32(n as int + |msgs|), rest)
    decreases |msgs|
  {
    hide Encode, Decode, W32;
    if msgs == [] {
      W32Id(n);
      assert Stream(k, n, msgs) + rest == rest;
    } else {
      var n' := W32(n as int + 1);
      var first := Encode(msgs[0].active, k, n, msgs[0].payload);
      var tail := Stream(k, n', msgs[1..]) + rest;
      assert Stream(k, n, msgs) + rest == first + tail;
      RoundTrip(msgs[0].active, k, n, msgs[0].payload, tail);
      StreamRecovered(k, n', msgs[1..], rest);
      CounterAdd(n, |msgs| - 1);
      assert Actives(msgs)[1..] == Actives(msgs[1..]);
      assert Payloads(msgs) == [msgs[0].payload] + Payloads(msgs[1..]);
    }
  }

  // ---------- The connection ----------

  /**
   A TCP socket: bytes still to be delivered to us, bytes we have handed over, and whether a
   call has failed, which no call of a reliable one does.
   */
  class Connection {
    var incoming: seq<Byte>
    var outgoing: seq<Byte>
    var failed: bool
    const reliable: bool

    /** send(): takes any positive number of the bytes offered, or fails. */
    method Send(buf: seq<Byte>) returns (n: int)
      requires buf != []
      modifies this`outgoing, this`failed
      ensures n <= |buf|
      ensures n > 0 ==> outgoing == old(outgoing) + buf[..n] && failed == old(failed)
      ensures n <= 0 ==> outgoing == old(outgoing) && failed
      ensures reliable ==> n > 0
    {
      n := *;
      if reliable && n <= 0 { n := 1; }
      if n > |buf| { n := |buf|; }
      if n > 0 { outgoing := outgoing + buf[..n]; } else { failed := true; }
    }

    /** recv(): delivers any positive number of the bytes asked for, or fails; with nothing left it fails. */
    method Recv(max: nat) returns (n: int, data: seq<Byte>)
      requires max > 0
      modifies this`incoming, this`failed
      ensures n <= max && n <= |old(incoming)|
      ensures n > 0 ==> data == old(incoming)[..n] && incoming == old(incoming)[n..] && failed == old(failed)
      ensures n <= 0 ==> data == [] && incoming == old(incoming) && (old(incoming) != [] ==> failed)
      ensures old(failed) ==> failed
      ensures reliable ==> failed == old(failed) && (n > 0 <==> old(incoming) != [])
    {
      n := *;
      if reliable && n <= 0 { n := 1; }
      if n > max { n := max; }
      if n > |incoming| { n := |incoming|; }
      if n > 0 {
        data, incoming := incoming[..n], incoming[n..];
      } else {
        data := [];
        if incoming != [] { failed := true; }
      }
    }
  }

  /** tcp_send_all: at most 16 bytes per call; everything is handed over, in order, or the call fails. */
  method TcpSendAll(c: Connection, buf: seq<Byte>) returns (rc: int)
    modifies c`outgoing, c`failed
    ensures rc == 0 || rc == -1
    ensures rc == 0 ==> c.outgoing == old(c.outgoing) + buf && c.failed == old(c.failed)
    ensures rc == -1 ==> c.failed && exists k :: 0 <= k < |buf| && c.outgoing == old(c.outgoing) + buf[..k]
    ensures c.reliable ==> rc == 0
  {
    var sent := 0;
    while sent < |buf|
      invariant 0 <= sent <= |buf|
      invariant c.outgoing == old(c.outgoing) + buf[..sent] && c.failed == old(c.failed)
    {
      var chunk := |buf| - sent;
      if chunk > 16 { chunk := 16; }
      var n := c.Send(buf[sent..sent + chunk]);
      if n <= 0 { return -1; }
      assert buf[..sent] + buf[sent..sent + chunk][..n] == buf[..sent + n];
      sent := sent + n;
    }
    assert buf[..sent] == buf;
    rc := 0;
  }

  /** tcp_recv_all: exactly the next len bytes of the stream, however they are cut up, or failure. */
  method TcpRecvAll(c: Connection, len: nat) returns (rc: int, buf: seq<Byte>)
    modifies c`incoming, c`failed
    ensures rc == 0 || rc == -1
    ensures rc == 0 ==>
      && len <= |old(c.incoming)| && buf == old(c.incoming)[..len] && c.incoming == old(c.incoming)[len..]
      && c.failed == old(c.failed)
    ensures rc == -1 ==> c.failed || |old(c.incoming)| < len
    ensures old(c.failed) ==> c.failed
    ensures c.reliable ==> c.failed == old(c.failed)
  {
    buf := [];
    while |buf| < len
      invariant |buf| <= len && |buf| <= |old(c.incoming)|
      invariant buf == old(c.incoming)[..|buf|] && c.incoming == old(c.incoming)[|buf|..]
      invariant c.failed == old(c.failed)
      decreases len - |buf|
    {
      var n, data := c.Recv(len - |buf|);
      if n <= 0 { return -1, buf; }
      assert old(c.incoming)[..|buf|] + old(c.incoming)[|buf|..][..n] == old(c.incoming)[..|buf| + n];
      buf := buf + data;
    }
    rc := 0;
  }

  /** The padding of a payload, as both senders compute it. */
  method Padding(plen: nat) returns (padding: nat)
    ensures padding == PaddingLen(plen)
  {
    var blockSize := 8;
    var total := 4 + 1 + plen;
    padding := blockSize - total % blockSize;
    if padding < 4 { padding := padding + blockSize; }
  }

  /** make_nonce */
  method BuildNonce(n: Word32) returns (nonce: Nonce)
    ensures nonce == MakeNonce(n)
  {
    var b := new Byte[12](_ => 0);
    b[8] := n / 0x100_0000;
    b[9] := n / 0x1_0000 % 0x100;
    b[10] := n / 0x100 % 0x100;
    b[11] := n % 0x100;
    nonce := b[..];
  }

  /** The fields of ssh_transport that the packet layer uses. */
  class Transport {
    const conn: Connection
    var encKeyCs: KeyPair
    var encKeySc: KeyPair
    var keysActive: bool
    var seqRecv: Word32
    var seqSend: Word32

    constructor (c: Connection)
      ensures conn == c && !keysActive && seqRecv == 0 && seqSend == 0
    {
      conn := c;
      encKeyCs, encKeySc := seq(64, _ => 0), seq(64, _ => 0);
      keysActive, seqRecv, seqSend := false, 0, 0;
    }

    /** send_packet_plain */
    method SendPlain(payload: Payload) returns (rc: int)
      modifies this`seqSend, conn`outgoing, conn`failed
      ensures rc == 0 || rc == -1
      ensures rc == 0 ==> conn.outgoing == old(conn.outgoing) + EncodePlain(payload)
                          && seqSend == W32(old(seqSend) as int + 1) && conn.failed == old(conn.failed)
      ensures rc == -1 ==> conn.failed && seqSend == old(seqSend)
      ensures conn.reliable ==> rc == 0
    {
      hide PutBe32;
      var padding := Padding(|payload|);
      var packetLen := 1 + |payload| + padding;
      var hdr := PutBe32(packetLen) + [padding];
      rc := TcpSendAll(conn, hdr);
      if rc != 0 { return -1; }
      if |payload| > 0 {
        rc := TcpSendAll(conn, payload);
        if rc != 0 { return -1; }
      }
      rc := TcpSendAll(conn, Zeros(padding));
      if rc != 0 { return -1; }
      assert EncodePlain(payload) == hdr + payload + Zeros(padding);
      seqSend := W32(seqSend as int + 1);
    }

    /** recv_packet_plain */
    method RecvPlain() returns (rc: int, payload: seq<Byte>)
      modifies this`seqRecv, conn`incoming, conn`failed
      ensures rc >= -1
      ensures rc >= 0 ==> |payload| == rc <= SSH_MAX_PAYLOAD
                          && DecodePlain(old(conn.incoming)) == Got(payload, conn.incoming)
                          && seqRecv == W32(old(seqRecv) as int + 1) && conn.failed == old(conn.failed)
      ensures rc == -1 ==> seqRecv == old(seqRecv) && (conn.failed || DecodePlain(old(conn.incoming)).Fail?)
      ensures old(conn.failed) ==> conn.failed
      ensures conn.reliable ==> conn.failed == old(conn.failed)
    {
      hide GetBe32;
      payload := [];
      var r, hdr := TcpRecvAll(conn, 5);
      if r != 0 { return -1, []; }
      var packetLen := GetBe32(hdr);
      Be32Prefix(old(conn.incoming), 5);
      if packetLen < 1 || packetLen > SSH_MAX_PACKET { return -1, []; }
      var paddingLen := hdr[4];
      var payloadLen := packetLen - 1 - paddingLen;
      if payloadLen < 0 || payloadLen > SSH_MAX_PAYLOAD { return -1, []; }
      if payloadLen > 0 {
        r, payload := TcpRecvAll(conn, payloadLen);
        if r != 0 { return -1, []; }
      }
      if paddingLen > 0 {
        var pad;
        r, pad := TcpRecvAll(conn, paddingLen);
        if r != 0 { return -1, []; }
      }
      seqRecv := W32(seqRecv as int + 1);
      rc := payloadLen;
    }

    /** send_packet_encrypted, server to client */
    method SendEncrypted(payload: Payload) returns (rc: int)
      modifies this`seqSend, conn`outgoing, conn`failed
      ensures rc == 0 || rc == -1
      ensures rc == 0 ==> conn.outgoing == old(conn.outgoing) + EncodeEncrypted(encKeySc, old(seqSend), payload)
                          && seqSend == W32(old(seqSend) as int + 1) && conn.failed == old(conn.failed)
      ensures rc == -1 ==> conn.failed && seqSend == old(seqSend)
      ensures conn.reliable ==> rc == 0
    {
      hide PutBe32, Crypt, MakeNonce, Poly1305.Mac, Aead.PolyKey, Block;
      var k1, k2 := encKeySc[..32], encKeySc[32..];
      var padding := Padding(|payload|);
      var packetLen := 1 + |payload| + padding;
      var nonce := BuildNonce(seqSend);
      var encLen := CryptBuffer(k1, 0, nonce, PutBe32(packetLen));
      var pt := [padding] + payload + Zeros(padding);
      var ct := CryptBuffer(k2, 1, nonce, pt);
      var block := ComputeBlock(k2, 0, nonce);
      Aead.OneTimeKey(k2, nonce);
      var mac := Poly1305.ComputeMac(encLen + ct, block[..32]);
      rc := TcpSendAll(conn, encLen);
      if rc != 0 { return -1; }
      rc := TcpSendAll(conn, ct);
      if rc != 0 { return -1; }
      rc := TcpSendAll(conn, mac);
      if rc != 0 { return -1; }
      seqSend := W32(seqSend as int + 1);
    }

    /** recv_packet_encrypted, client to server */
    method RecvEncrypted() returns (rc: int, payload: seq<Byte>)
      modifies this`seqRecv, conn`incoming, conn`failed
      ensures rc >= -1
      ensures rc >= 0 ==> |payload| == rc <= SSH_MAX_PAYLOAD
                          && DecodeEncrypted(encKeyCs, old(seqRecv), old(conn.incoming)) == Got(payload, conn.incoming)
                          && seqRecv == W32(old(seqRecv) as int + 1) && conn.failed == old(conn.failed)
      ensures rc == -1 ==> seqRecv == old(seqRecv)
                           && (conn.failed || DecodeEncrypted(encKeyCs, old(seqRecv), old(conn.incoming)).Fail?)
      ensures old(conn.failed) ==> conn.failed
      ensures conn.reliable ==> conn.failed == old(conn.failed)
    {
      hide GetBe32, Crypt, MakeNonce, Poly1305.Mac, Aead.PolyKey, Block;
      payload := [];
      ghost var s := conn.incoming;
      var k1, k2 := encKeyCs[..32], encKeyCs[32..];
      var nonce := BuildNonce(seqRecv);
      var r, encLen := TcpRecvAll(conn, 4);
      if r != 0 { return -1, []; }
      var lenBuf := CryptBuffer(k1, 0, nonce, encLen);
      var packetLen := GetBe32(lenBuf);
      if packetLen < 1 || packetLen > SSH_MAX_PACKET { return -1, []; }
      var ct;
      r, ct := TcpRecvAll(conn, packetLen);
      if r != 0 { return -1, []; }
      assert ct == s[4..4 + packetLen];
      var recvMac;
      r, recvMac := TcpRecvAll(conn, 16);
      if r != 0 { return -1, []; }
      assert recvMac == s[4 + packetLen..4 + packetLen + 16] && conn.incoming == s[4 + packetLen + 16..];
      var block := ComputeBlock(k2, 0, nonce);
      Aead.OneTimeKey(k2, nonce);
      var computed := Poly1305.ComputeMac(encLen + ct, block[..32]);
      var same := Aead.SameTag(computed, recvMac);
      if !same { return -1, []; }
      var pt := CryptBuffer(k2, 1, nonce, ct);
      var payloadLen := packetLen - 1 - pt[0];
      if payloadLen < 0 || payloadLen > SSH_MAX_PAYLOAD { return -1, []; }
      if payloadLen > 0 { payload := pt[1..1 + payloadLen]; }
      seqRecv := W32(seqRecv as int + 1);
      rc := payloadLen;
    }

    /** ssh_send_packet: on success exactly the packet's bytes have been appended to the stream. */
    method SendPacket(payload: Payload) returns (rc: int)
      modifies this`seqSend, conn`outgoing, conn`failed
      ensures rc == 0 || rc == -1
      ensures rc == 0 ==> conn.outgoing == old(conn.outgoing) + Encode(keysActive, encKeySc, old(seqSend), payload)
                          && seqSend == W32(old(seqSend) as int + 1) && conn.failed == old(conn.failed)
      ensures rc == -1 ==> conn.failed && seqSend == old(seqSend)
      ensures conn.reliable ==> rc == 0
    {
      hide EncodeEncrypted, EncodePlain;
      if keysActive { rc := SendEncrypted(payload); } else { rc := SendPlain(payload); }
    }

    /** ssh_recv_packet: fails exactly if the stream does not begin with a good packet or a socket call failed. */
    method RecvPacket() returns (rc: int, payload: seq<Byte>)
      modifies this`seqRecv, conn`incoming, conn`failed
      ensures rc >= -1
      ensures rc >= 0 ==>
        && |payload| == rc <= SSH_MAX_PAYLOAD
        && Decode(keysActive, encKeyCs, old(seqRecv), old(conn.incoming)) == Got(payload, conn.incoming)
        && seqRecv == W32(old(seqRecv) as int + 1) && conn.failed == old(conn.failed)
      ensures rc == -1 ==> seqRecv == old(seqRecv)
                           && (conn.failed || Decode(keysActive, encKeyCs, old(seqRecv), old(conn.incoming)).Fail?)
      ensures old(conn.failed) ==> conn.failed
      ensures conn.reliable ==> conn.failed == old(conn.failed)
    {
      hide DecodeEncrypted, DecodePlain;
      if keysActive { rc, payload := RecvEncrypted(); } else { rc, payload := RecvPlain(); }
    }
  }

  /** chacha20_encrypt into a fresh buffer. */
  method CryptBuffer(key: Key32, counter: Word32, nonce: Nonce, data: seq<Byte>) returns (out: seq<Byte>)
    ensures out == Crypt(key, counter, nonce, data)
  {
    hide Crypt;
    var buf := new Byte[|data|];
    ChaCha20.Encrypt(key, counter, nonce, data, buf);
    out := buf[..];
    assert buf[..|data|] == buf[..];
  }

  // ---------- Two endpoints ----------

  lemma {:induction false} StreamSnoc(k: KeyPair, n: Word32, msgs: seq<Sent>, m: Sent)
    ensures Stream(k, n, msgs + [m]) == Stream(k, n, msgs) + Encode(m.active, k, W32(n as int + |msgs|), m.payload)
    decreases |msgs|
  {
    hide Encode, W32;
    if msgs == [] {
      W32Id(n);
      assert [m][1..] == [] && msgs + [m] == [m];
    } else {
      assert (msgs + [m])[1..] == msgs[1..] + [m];
      StreamSnoc(k, W32(n as int + 1), msgs[1..], m);
      CounterAdd(n, |msgs| - 1);
    }
  }

  /** The wire: what one side has handed over reaches the other, in order. */
  method Deliver(from: Connection, to: Connection)
    requires from != to
    modifies from`outgoing, to`incoming
    ensures from.outgoing == [] && to.incoming == old(to.incoming) + old(from.outgoing)
  {
    to.incoming := to.incoming + from.outgoing;
    from.outgoing := [];
  }

  /** How many packets have been sent and received after these turns; true is the sender's. */
  function Progress(turns: seq<bool>, total: nat): (nat, nat) {
    if turns == [] then (0, 0) else
    var (sent, got) := Progress(turns[..|turns| - 1], total);
    if turns[|turns| - 1] then (if sent < total then sent + 1 else sent, got)
    else (sent, if got < sent then got + 1 else got)
  }

  /** What is on the wire is the packets sent and not yet received; the counters and keys match. */
  ghost predicate Linked(s: Transport, r: Transport, k: KeyPair, n: Word32, msgs: seq<Sent>, sent: nat, got: nat)
    reads s, r, s.conn, r.conn
  {
    && got <= sent <= |msgs| && s.encKeySc == r.encKeyCs == k
    && s.seqSend == W32(n as int + sent) && r.seqRecv == W32(n as int + got)
    && s.conn.outgoing == [] && r.conn.incoming == Stream(k, W32(n as int + got), msgs[got..sent])
  }

  lemma W32Plus(n: Word32, a: nat, b: nat)
    ensures W32(W32(n as int + a) as int + b) == W32(n as int + (a + b))
  {
  }

  lemma Extended(k: KeyPair, n: Word32, msgs: seq<Sent>, sent: nat, got: nat)
    requires got <= sent < |msgs|
    ensures Stream(k, W32(n as int + got), msgs[got..sent + 1])
         == Stream(k, W32(n as int + got), msgs[got..sent])
            + Encode(msgs[sent].active, k, W32(n as int + sent), msgs[sent].payload)
  {
    hide Stream, Encode, W32;
    assert msgs[got..sent + 1] == msgs[got..sent] + [msgs[sent]];
    StreamSnoc(k, W32(n as int + got), msgs[got..sent], msgs[sent]);
    W32Plus(n, got, sent - got);
  }

  lemma Taken(k: KeyPair, n: Word32, msgs: seq<Sent>, sent: nat, got: nat)
    requires got < sent <= |msgs|
    ensures Decode(msgs[got].active, k, W32(n as int + got), Stream(k, W32(n as int + got), msgs[got..sent]))
         == Got(msgs[got].payload, Stream(k, W32(n as int + (got + 1)), msgs[got + 1..sent]))
  {
    hide Encode, Decode, W32;
    var pending := msgs[got..sent];
    assert pending[0] == msgs[got] && pending[1..] == msgs[got + 1..sent];
    var n' := W32(n as int + got);
    W32Plus(n, got, 1);
    RoundTrip(msgs[got].active, k, n', msgs[got].payload, Stream(k, W32(n' as int + 1), pending[1..]));
  }

  /** The sender's turn. */
  method SendTurn(s: Transport, r: Transport, ghost k: KeyPair, ghost n: Word32, msgs: seq<Sent>,
                  sent: nat, ghost got: nat)
    returns (ok: bool)
    requires s != r && s.conn != r.conn && Linked(s, r, k, n, msgs, sent, got) && sent < |msgs|
    modifies s`keysActive, s`seqSend, s.conn, r.conn`incoming
    ensures ok ==> Linked(s, r, k, n, msgs, sent + 1, got) && s.conn.failed == old(s.conn.failed)
    ensures !ok ==> s.conn.failed && !s.conn.reliable
  {
    hide Stream, Encode, W32;
    Extended(k, n, msgs, sent, got);
    W32Plus(n, sent, 1);
    s.keysActive := msgs[sent].active;
    var rc := s.SendPacket(msgs[sent].payload);
    if rc != 0 { return false; }
    Deliver(s.conn, r.conn);
    ok := true;
  }

  /** The receiver's turn, when a packet is on its way. */
  method RecvTurn(s: Transport, r: Transport, ghost k: KeyPair, ghost n: Word32, msgs: seq<Sent>,
                  ghost sent: nat, got: nat)
    returns (ok: bool, payload: seq<Byte>)
    requires s != r && s.conn != r.conn && Linked(s, r, k, n, msgs, sent, got) && got < sent
    modifies r`keysActive, r`seqRecv, r.conn`incoming, r.conn`failed
    ensures ok ==> payload == msgs[got].payload && Linked(s, r, k, n, msgs, sent, got + 1)
                   && r.conn.failed == old(r.conn.failed)
    ensures !ok ==> r.conn.failed
    ensures r.conn.reliable ==> r.conn.failed == old(r.conn.failed)
  {
    hide Stream, Decode, W32;
    Taken(k, n, msgs, sent, got);
    W32Plus(n, got, 1);
    r.keysActive := msgs[got].active;
    var rc;
    rc, payload := r.RecvPacket();
    ok := rc >= 0;
  }

  ghost predicate InOrder(got: seq<seq<Byte>>, msgs: seq<Sent>) {
    |got| <= |msgs| && forall i :: 0 <= i < |got| ==> got[i] == msgs[i].payload
  }

  method Turn(s: Transport, r: Transport, ghost k: KeyPair, ghost n: Word32, msgs: seq<Sent>,
              turn: bool, sent: nat, got: seq<seq<Byte>>)
    returns (ok: bool, got': seq<seq<Byte>>, sent': nat)
    requires s != r && s.conn != r.conn && Linked(s, r, k, n, msgs, sent, |got|) && InOrder(got, msgs)
    requires !s.conn.failed && !r.conn.failed && |got| <= sent <= |msgs|
    modifies s, r, s.conn, r.conn
    ensures InOrder(got', msgs) && |got'| <= sent' <= |msgs|
    ensures if ok then !s.conn.failed && !r.conn.failed else s.conn.failed || r.conn.failed
    ensures (s.conn.reliable ==> !s.conn.failed) && (r.conn.reliable ==> !r.conn.failed)
    ensures s.conn.reliable && r.conn.reliable ==> ok
    ensures ok ==> Linked(s, r, k, n, msgs, sent', |got'|)
    ensures ok ==> (sent', |got'|) == if turn then (if sent < |msgs| then sent + 1 else sent, |got|)
                                      else (sent, if |got| < sent then |got| + 1 else |got|)
  {
    hide Linked;
    ok, got', sent' := true, got, sent;
    if turn && sent < |msgs| {
      ok := SendTurn(s, r, k, n, msgs, sent, |got|);
      if ok { sent' := sent + 1; }
    } else if !turn && |got| < sent {
      var payload;
      ok, payload := RecvTurn(s, r, k, n, msgs, sent, |got|);
      if ok { got' := got + [payload]; }
    }
  }

  /**
   Two endpoints with the same keys and counters, taking turns in any order, over sockets
   that take and deliver any number of bytes per call: what has been received is always the
   list of what was sent, in order and from its beginning; and as long as no socket call
   fails every turn sends or receives its packet.  On reliable sockets no call does.
   */
  method Converse(s: Transport, r: Transport, msgs: seq<Sent>, turns: seq<bool>)
    returns (got: seq<seq<Byte>>, sent: nat)
    requires s != r && s.conn != r.conn && s.encKeySc == r.encKeyCs && s.seqSend == r.seqRecv
    requires s.conn.outgoing == [] && r.conn.incoming == [] && !s.conn.failed && !r.conn.failed
    modifies s, r, s.conn, r.conn
    ensures |got| <= sent <= |msgs| && InOrder(got, msgs)
    ensures (s.conn.reliable ==> !s.conn.failed) && (r.conn.reliable ==> !r.conn.failed)
    ensures !s.conn.failed && !r.conn.failed ==> (sent, |got|) == Progress(turns, |msgs|)
    ensures !s.conn.failed && !r.conn.failed ==>
      s.seqSend == W32(old(s.seqSend) as int + sent) && r.seqRecv == W32(old(r.seqRecv) as int + |got|)
  {
    hide *;
    ghost var k, n := s.encKeySc, s.seqSend;
    got, sent := [], 0;
    LinkedAtFirst(s, r, msgs);
    NothingYet(msgs);
    ProgressStep([], true, |msgs|);
    assert turns[..0] == [];
    for i := 0 to |turns|
      invariant Linked(s, r, k, n, msgs, sent, |got|) && |got| <= sent <= |msgs| && !s.conn.failed && !r.conn.failed
      invariant InOrder(got, msgs)
      invariant (sent, |got|) == Progress(turns[..i], |msgs|)
    {
      assert turns[..i + 1] == turns[..i] + [turns[i]];
      ProgressStep(turns[..i], turns[i], |msgs|);
      var ok;
      ok, got, sent := Turn(s, r, k, n, msgs, turns[i], sent, got);
      if !ok { return; }
    }
    assert turns[..|turns|] == turns;
    LinkedCounters(s, r, k, n, msgs, sent, |got|);
  }

  lemma ProgressStep(turns: seq<bool>, turn: bool, total: nat)
    ensures Progress([], total) == (0, 0)
    ensures var (sent, got) := Progress(turns, total);
      Progress(turns + [turn], total)
      == if turn then (if sent < total then sent + 1 else sent, got) else (sent, if got < sent then got + 1 else got)
  {
    assert (turns + [turn])[..|turns|] == turns;
  }

  lemma LinkedAtFirst(s: Transport, r: Transport, msgs: seq<Sent>)
    requires s.encKeySc == r.encKeyCs && s.seqSend == r.seqRecv && s.conn.outgoing == [] && r.conn.incoming == []
    ensures Linked(s, r, s.encKeySc, s.seqSend, msgs, 0, 0)
  {
    W32Id(s.seqSend);
    assert msgs[0..0] == [];
  }

  lemma NothingYet(msgs: seq<Sent>)
    ensures InOrder([], msgs)
  {
  }

  lemma LinkedCounters(s: Transport, r: Transport, k: KeyPair, n: Word32, msgs: seq<Sent>, sent: nat, got: nat)
    requires Linked(s, r, k, n, msgs, sent, got)
    ensures s.seqSend == W32(n as int + sent) && r.seqRecv == W32(n as int + got)
  {
  }
}
