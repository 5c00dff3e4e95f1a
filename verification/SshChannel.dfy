/**
 Channel flow control (section 5.2 of RFC 4254): the credit windows of an SSH channel, in the
 code of one endpoint and over every run of two endpoints joined by FIFO links.
 */
module SshChannel {
  import opened Words
  import opened SshTransport

  const MSG_WINDOW_ADJUST: Byte := 93
  const MSG_CHANNEL_DATA: Byte := 94
  const MSG_CHANNEL_EOF: Byte := 96
  const MSG_CHANNEL_CLOSE: Byte := 97
  const MSG_CHANNEL_REQUEST: Byte := 98
  const MSG_CHANNEL_SUCCESS: Byte := 99
  const MSG_CHANNEL_FAILURE: Byte := 100

  /** "pty-req", "shell" and "env" */
  const PTY_REQ: seq<Byte> := [112, 116, 121, 45, 114, 101, 113]
  const SHELL: seq<Byte> := [115, 104, 101, 108, 108]
  const ENV: seq<Byte> := [101, 110, 118]

  const LOW_WATER := 0x1_0000
  const REFILL := 0x10_0000

  /** The fields of ssh_channel. */
  datatype Channel = Channel(
    remoteId: Word32, remoteWindow: Word32, remoteMaxPkt: Word32, localWindow: Word32,
    ptyAllocated: bool, shellStarted: bool)

  // ---------- Payloads ----------

  /** ssh_put_string */
  function PutString(s: seq<Byte>): seq<Byte>
    requires |s| < 0x1_0000_0000
  {
    PutBe32(|s|) + s
  }

  const MAX_CHUNK: nat := SSH_MAX_PAYLOAD - 9

  /** The bytes of one data packet. */
  type Chunk = s: seq<Byte> | |s| <= MAX_CHUNK

  function DataPacket(remoteId: Word32, data: Chunk): (p: seq<Byte>)
    ensures |p| == 9 + |data| && p[0] == MSG_CHANNEL_DATA
  {
    [MSG_CHANNEL_DATA] + PutBe32(remoteId) + PutString(data)
  }

  function AdjustPacket(remoteId: Word32, credit: Word32): (p: seq<Byte>)
    ensures |p| == 9 && p[0] == MSG_WINDOW_ADJUST
  {
    [MSG_WINDOW_ADJUST] + PutBe32(remoteId) + PutBe32(credit)
  }

  /** The string at offset 5 of a packet: its bytes, or None if the length runs past the end. */
  function GetData(p: seq<Byte>): Option<seq<Byte>>
    requires |p| >= 9
  {
    var n := GetBe32(p[5..]);
    if 9 + n > |p| then None else Some(p[9..9 + n])
  }

  /** What ssh_get_string hands back: the position after the string, and its length. */
  datatype Span = Span(end: int, len: int)

  /** ssh_get_string at offset 5, in ints; a negative position is a refusal to every caller. */
  function GetString(p: seq<Byte>): Option<Span>
    requires |p| >= 9
  {
    var n := Signed32(GetBe32(p[5..]));
    var end := Signed32(9 + n);
    if end > |p| || end < 0 then None else Some(Span(end, n))
  }

  /** The answer the packet format calls for. */
  function RightSpan(p: seq<Byte>): Option<Span>
    requires |p| >= 9
  {
    match GetData(p)
    case None => None
    case Some(s) => Some(Span(9 + |s|, |s|))
  }

  /**
   The answer is the right one exactly for lengths below 2^32 - 9: the last nine come out as a
   position inside the packet and a negative length.
   */
  lemma GetStringExactly(p: seq<Byte>)
    requires 9 <= |p| < 0x8000_0000
    ensures GetString(p) == RightSpan(p) <==> GetBe32(p[5..]) < 0x1_0000_0000 - 9
    ensures GetBe32(p[5..]) >= 0x1_0000_0000 - 9 ==>
      var n := GetBe32(p[5..]) as int - 0x1_0000_0000; GetString(p) == Some(Span(9 + n, n)) && 0 <= 9 + n < 9
  {
    hide GetBe32;
    var n := GetBe32(p[5..]) as int;
    SignedCases(n);
    SignedCases(9 + Signed32(n));
  }

  lemma SignedCases(x: int)
    requires -0x8000_0000 <= x < 0x1_8000_0000
    ensures Signed32(x) == if x < 0x8000_0000 then x else x - 0x1_0000_0000
  {
  }

  lemma DataPacketParses(remoteId: Word32, data: Chunk)
    ensures GetData(DataPacket(remoteId, data)) == Some(data)
  {
    hide PutBe32, GetBe32;
    var p := DataPacket(remoteId, data);
    assert p[5..] == PutBe32(|data|) + data;
    Be32RoundTrip(|data|, data);
    assert p[9..9 + |data|] == data;
  }

  lemma AdjustPacketParses(remoteId: Word32, credit: Word32)
    ensures GetBe32(AdjustPacket(remoteId, credit)[5..]) == credit
  {
    hide PutBe32, GetBe32;
    assert AdjustPacket(remoteId, credit)[5..] == PutBe32(credit) + [];
    Be32RoundTrip(credit, []);
  }

  // ---------- One endpoint receives ----------

  /** Result code, new channel, packets sent in reply, and bytes handed to the terminal. */
  datatype Outcome = Outcome(rc: int, ch: Channel, replies: seq<seq<Byte>>, data: seq<Byte>)

  function Reply(known: bool, remoteId: Word32): (p: seq<Byte>)
    ensures |p| == 5 && (p[0] == MSG_CHANNEL_SUCCESS || p[0] == MSG_CHANNEL_FAILURE)
  {
    [if known then MSG_CHANNEL_SUCCESS else MSG_CHANNEL_FAILURE] + PutBe32(remoteId)
  }

  /**
   A channel request (section 5.4 of RFC 4254): terminals and shells are noted, and every
   request that asks for it gets one reply, success exactly for the known types.  A misread
   length makes the type unknown, and the byte at the position it gives says whether to reply.
   */
  function Request(ch: Channel, p: seq<Byte>): Outcome
    requires |p| >= 1
  {
    if |p| < 9 then Outcome(0, ch, [], []) else
    match GetString(p)
    case None => Outcome(0, ch, [], [])
    case Some(span) =>
      if span.end >= |p| then Outcome(0, ch, [], []) else
      var kind := KindOf(p, span);
      var known := kind == PTY_REQ || kind == SHELL || kind == ENV;
      Outcome(0,
              ch.(ptyAllocated := ch.ptyAllocated || kind == PTY_REQ,
                  shellStarted := ch.shellStarted || kind == SHELL),
              if p[span.end] != 0 then [Reply(known, ch.remoteId)] else [], [])
  }

  /** The bytes of the request type; none when the length is negative. */
  function KindOf(p: seq<Byte>, span: Span): seq<Byte> {
    if 0 <= span.len && 9 + span.len <= |p| then p[9..9 + span.len] else []
  }

  /** For lengths that are read right, the request is what the packet format says. */
  lemma RequestIsParsed(ch: Channel, p: seq<Byte>)
    requires 9 <= |p| < 0x8000_0000 && GetBe32(p[5..]) < 0x1_0000_0000 - 9
    ensures GetData(p).None? ==> Request(ch, p) == Outcome(0, ch, [], [])
    ensures GetData(p).Some? ==>
      var kind := GetData(p).value;
      var known := kind == PTY_REQ || kind == SHELL || kind == ENV;
      Request(ch, p) ==
      if 9 + |kind| >= |p| then Outcome(0, ch, [], []) else
      Outcome(0,
              ch.(ptyAllocated := ch.ptyAllocated || kind == PTY_REQ,
                  shellStarted := ch.shellStarted || kind == SHELL),
              if p[9 + |kind|] != 0 then [Reply(known, ch.remoteId)] else [], [])
  {
    GetStringExactly(p);
    hide GetBe32, GetString;
    if GetData(p).Some? {
      assert KindOf(p, RightSpan(p).value) == GetData(p).value;
    }
  }

  /**
   A length field of four bytes 255: the format has no string there, the code takes one of
   length -1 that ends on the last length byte, and answers the request because that byte is set.
   */
  lemma AllOnesLengthIsMisread(ch: Channel)
    ensures var p: seq<Byte> := [MSG_CHANNEL_REQUEST, 0, 0, 0, 1, 255, 255, 255, 255];
      && RightSpan(p) == None && GetString(p) == Some(Span(8, -1))
      && Request(ch, p) == Outcome(0, ch, [Reply(false, ch.remoteId)], [])
  {
    var p: seq<Byte> := [MSG_CHANNEL_REQUEST, 0, 0, 0, 1, 255, 255, 255, 255];
    assert p[5..] == [255, 255, 255, 255];
    assert GetBe32(p[5..]) == 0xFFFF_FFFF;
    hide GetBe32;
    GetStringExactly(p);
  }

  /** The layout of what an endpoint sends (sections 5.2 and 5.4 of RFC 4254): every packet names the peer's channel. */
  lemma PacketsOnTheWire(remoteId: Word32, data: Chunk, credit: Word32, known: bool)
    ensures var p := DataPacket(remoteId, data);
      p[0] == 94 && GetBe32(p[1..]) == remoteId && GetBe32(p[5..]) == |data| && p[9..] == data
    ensures var p := AdjustPacket(remoteId, credit);
      p[0] == 93 && GetBe32(p[1..]) == remoteId && GetBe32(p[5..]) == credit
    ensures var p := Reply(known, remoteId);
      p[0] == (if known then 99 else 100) && GetBe32(p[1..]) == remoteId
  {
    hide PutBe32, GetBe32;
    var p, q, a := DataPacket(remoteId, data), AdjustPacket(remoteId, credit), Reply(known, remoteId);
    assert p[1..] == PutBe32(remoteId) + PutString(data) && p[5..] == PutBe32(|data|) + data;
    assert q[1..] == PutBe32(remoteId) + PutBe32(credit) && q[5..] == PutBe32(credit) + [];
    assert a[1..] == PutBe32(remoteId) + [];
    Be32RoundTrip(remoteId, PutString(data));
    Be32RoundTrip(|data|, data);
    Be32RoundTrip(remoteId, PutBe32(credit));
    Be32RoundTrip(credit, []);
    Be32RoundTrip(remoteId, []);
  }

  /** ASCII. */
  function Text(s: string): seq<Byte>
    requires forall i :: 0 <= i < |s| ==> s[i] < 128 as char
  {
    seq(|s|, i requires 0 <= i < |s| => s[i] as int)
  }

  /** The request types that are known. */
  lemma KnownTypes()
    ensures PTY_REQ == Text("pty-req") && SHELL == Text("shell") && ENV == Text("env")
  {
  }

  /** ssh_channel_process_packet */
  function Process(ch: Channel, p: seq<Byte>): Outcome
    requires |p| >= 1
  {
    if p[0] == MSG_CHANNEL_DATA then
      if |p| < 9 then Outcome(-1, ch, [], []) else
      match GetData(p)
      case None => Outcome(-1, ch, [], [])
      case Some(data) =>
        var w := W32(ch.localWindow - |data|);
        if w < LOW_WATER
        then Outcome(0, ch.(localWindow := W32(w as int + REFILL)), [AdjustPacket(ch.remoteId, REFILL)], data)
        else Outcome(0, ch.(localWindow := w), [], data)
    else if p[0] == MSG_WINDOW_ADJUST then
      if |p| < 9 then Outcome(-1, ch, [], []) else
      Outcome(0, ch.(remoteWindow := W32(ch.remoteWindow as int + GetBe32(p[5..]) as int)), [], [])
    else if p[0] == MSG_CHANNEL_EOF || p[0] == MSG_CHANNEL_CLOSE then Outcome(1, ch, [], [])
    else if p[0] == MSG_CHANNEL_REQUEST then Request(ch, p)
    else Outcome(0, ch, [], [])
  }

  // ---------- One endpoint ----------

  /** The packet list of one direction, as the packet layer delivers it until it breaks. */
  class Link {
    var packets: seq<seq<Byte>>
    var broken: bool

    /** ssh_send_packet: appends, or breaks for good. */
    method Send(p: seq<Byte>) returns (rc: int)
      modifies this
      ensures rc == 0 <==> !broken
      ensures old(broken) ==> broken
      ensures packets == if broken then old(packets) else old(packets) + [p]
    {
      var fails := *;
      if broken || fails {
        broken := true;
        return -1;
      }
      packets := packets + [p];
      rc := 0;
    }
  }

  /** What the sender may put into one data packet. */
  predicate FitsPacket(maxPkt: int, c: Chunk) { 0 < |c| <= maxPkt }

  /** The data packets that carry these chunks. */
  ghost function DataPackets(remoteId: Word32, chunks: seq<Chunk>): seq<seq<Byte>> {
    if chunks == [] then []
    else DataPackets(remoteId, chunks[..|chunks| - 1]) + [DataPacket(remoteId, chunks[|chunks| - 1])]
  }

  ghost function Flat(chunks: seq<Chunk>): seq<Byte> {
    if chunks == [] then [] else Flat(chunks[..|chunks| - 1]) + chunks[|chunks| - 1]
  }

  /** n data packets without data. */
  ghost function Empties(remoteId: Word32, n: nat): seq<seq<Byte>> {
    if n == 0 then [] else Empties(remoteId, n - 1) + [DataPacket(remoteId, [])]
  }

  lemma AppendChunk(remoteId: Word32, chunks: seq<Chunk>, c: Chunk)
    ensures DataPackets(remoteId, chunks + [c]) == DataPackets(remoteId, chunks) + [DataPacket(remoteId, c)]
    ensures Flat(chunks + [c]) == Flat(chunks) + c
  {
    hide DataPacket;
    assert (chunks + [c])[..|chunks|] == chunks;
  }

  lemma MoveFront(done: seq<Byte>, rest: seq<Byte>, n: nat)
    requires n <= |rest|
    ensures done + rest[..n] + rest[n..] == done + rest
  {
  }

  /** A packet size that makes progress, within the data and within a packet. */
  predicate ProperChunk(left: int, n: int) { 0 < n <= left && n <= MAX_CHUNK }

  /**
   When the code finds such a size in an open window: for every limit that is a positive int;
   for a limit beyond the ints only if the window itself is small enough; never for a limit
   of 0, where the size is 0.
   */
  predicate Sendable(left: int, maxPkt: int, window: int) {
    0 < maxPkt < 0x8000_0000 || (maxPkt >= 0x8000_0000 && window <= left && window <= MAX_CHUNK && window > 0)
  }

  /** When every turn of the send loop ends the call or makes progress. */
  predicate Progresses(left: int, maxPkt: int, window: int) {
    maxPkt != 0 && (window == 0 || Sendable(left, maxPkt, window))
  }

  /** ssh_get_string at offset 5, as written. */
  method ParseString(p: seq<Byte>) returns (pos: int, len: int)
    requires 5 <= |p| < 0x8000_0000
    ensures pos < 0 <==> |p| < 9 || GetString(p) == None
    ensures |p| >= 9 && GetString(p).Some? ==> pos == GetString(p).value.end && len == GetString(p).value.len
    ensures pos >= 0 ==> |p| >= 9 && pos <= |p| && len <= pos && (len >= 0 ==> pos == 9 + len)
  {
    hide GetBe32;
    len := 0;
    if 5 + 4 > |p| { return -1, 0; }
    var slen := GetBe32(p[5..]);
    SignedCases(slen);
    SignedCases(9 + Signed32(slen));
    if Signed32(9 + Signed32(slen)) > |p| { return -1, 0; }
    len := Signed32(slen);
    pos := Signed32(9 + Signed32(slen));
  }

  class Session {
    var remoteId: Word32
    var remoteWindow: Word32
    var remoteMaxPkt: Word32
    var localWindow: Word32
    var ptyAllocated: bool
    var shellStarted: bool

    function State(): Channel
      reads this
    {
      Channel(remoteId, remoteWindow, remoteMaxPkt, localWindow, ptyAllocated, shellStarted)
    }

    /**
     The size of the next data packet, in ints, for every limit the peer may have named; it is
     a proper size exactly when `Sendable` says so.
     */
    method NextChunk(left: nat) returns (exhausted: bool, n: int)
      requires 0 < left < 0x8000_0000
      ensures exhausted <==> remoteWindow == 0 && remoteMaxPkt != 0
      ensures remoteMaxPkt == 0 ==> n == 0
      ensures !exhausted ==> (ProperChunk(left, n) <==> Sendable(left, remoteMaxPkt, remoteWindow))
      ensures !exhausted && ProperChunk(left, n) ==>
        && n <= remoteMaxPkt && n <= remoteWindow
        && n in {left as int, remoteMaxPkt as int, MAX_CHUNK as int, remoteWindow as int}
    {
      n := left;
      SignedCases(remoteMaxPkt);
      if n > Signed32(remoteMaxPkt) { n := Signed32(remoteMaxPkt); }
      if n > MAX_CHUNK { n := MAX_CHUNK; }
      exhausted := false;
      if W32(n) > remoteWindow {
        if remoteWindow == 0 { return true, 0; }
        SignedCases(remoteWindow);
        n := Signed32(remoteWindow);
      }
    }

    /** One turn of the send loop; n bytes have gone out when rc is 0. */
    method SendTurn(link: Link, rest: seq<Byte>) returns (rc: int, n: nat)
      requires 0 < |rest| < 0x8000_0000
      requires remoteMaxPkt == 0 || Progresses(|rest|, remoteMaxPkt, remoteWindow)
      modifies link, `remoteWindow
      ensures (rc == 0 || rc == -1) && n <= |rest| && n <= MAX_CHUNK && n <= old(remoteWindow)
      ensures rc == 0 ==> !link.broken && link.packets == old(link.packets) + [DataPacket(remoteId, rest[..n])]
      ensures rc == 0 && remoteMaxPkt != 0 ==> FitsPacket(remoteMaxPkt, rest[..n])
      ensures rc == 0 && remoteMaxPkt >= 0x8000_0000 ==> n == old(remoteWindow)
      ensures rc == -1 ==> n == 0 && link.packets == old(link.packets)
      ensures rc == -1 && !link.broken ==> remoteWindow == 0 && remoteMaxPkt != 0
      ensures remoteWindow == old(remoteWindow) - n
      ensures remoteMaxPkt == 0 ==> n == 0
    {
      hide DataPacket;
      var exhausted, size := NextChunk(|rest|);
      if exhausted { return -1, 0; }
      var r := link.Send(DataPacket(remoteId, rest[..size]));
      if r != 0 { return -1, 0; }
      remoteWindow := remoteWindow - size;
      rc, n := 0, size;
    }

    /**
     ssh_channel_send_data: cuts data into packets that respect the peer's packet limit and
     window.  It stops with -1 when the window is used up, or when the transport fails; what
     it has sent by then is a prefix of the data.  A limit of 0 is `ZeroLimitTurns` below.
     */
    method SendData(link: Link, data: seq<Byte>) returns (rc: int, ghost chunks: seq<Chunk>)
      requires |data| < 0x8000_0000
      requires data == [] || Progresses(|data|, remoteMaxPkt, remoteWindow)
      modifies link, `remoteWindow
      ensures rc == 0 || rc == -1
      ensures forall c :: c in chunks ==> FitsPacket(remoteMaxPkt, c)
      ensures link.packets == old(link.packets) + DataPackets(remoteId, chunks)
      ensures Flat(chunks) <= data
      ensures remoteWindow == old(remoteWindow) - |Flat(chunks)|
      ensures rc == 0 ==> Flat(chunks) == data
      ensures rc == -1 && !link.broken ==> remoteWindow == 0 && Flat(chunks) < data
    {
      chunks := [];
      var rest := data;
      assert DataPackets(remoteId, chunks) == [] && Flat(chunks) == [];
      hide DataPacket, DataPackets, Flat;
      while |rest| > 0
        invariant forall c :: c in chunks ==> FitsPacket(remoteMaxPkt, c)
        invariant link.packets == old(link.packets) + DataPackets(remoteId, chunks)
        invariant data == Flat(chunks) + rest && |rest| <= |data|
        invariant remoteWindow == old(remoteWindow) - |Flat(chunks)|
        invariant rest == [] || Progresses(|rest|, remoteMaxPkt, remoteWindow)
        decreases |rest|
      {
        var n;
        rc, n := SendTurn(link, rest);
        if rc != 0 { return -1, chunks; }
        ghost var chunk: Chunk := rest[..n];
        AppendChunk(remoteId, chunks, chunk);
        MoveFront(Flat(chunks), rest, n);
        chunks := chunks + [chunk];
        rest := rest[n..];
      }
      rc := 0;
    }

    /**
     The loop under a packet limit of 0: however many turns it takes, it has sent as many
     empty packets, all of the data is left, and it goes on until the transport fails.
     */
    method ZeroLimitTurns(link: Link, data: seq<Byte>, turns: nat) returns (done: nat, rest: seq<Byte>)
      requires 0 < |data| < 0x8000_0000 && remoteMaxPkt == 0
      modifies link, `remoteWindow
      ensures rest == data && remoteWindow == old(remoteWindow)
      ensures link.packets == old(link.packets) + Empties(remoteId, done)
      ensures done <= turns && (!link.broken ==> done == turns)
    {
      hide DataPacket;
      done, rest := 0, data;
      while done < turns
        invariant done <= turns && rest == data && remoteWindow == old(remoteWindow)
        invariant link.packets == old(link.packets) + Empties(remoteId, done)
      {
        var rc, n := SendTurn(link, rest);
        if rc != 0 { break; }
        rest := rest[n..];
        done := done + 1;
      }
    }

    /** ssh_handle_channel_request, for every length field. */
    method HandleRequest(link: Link, p: seq<Byte>)
      requires 1 <= |p| < 0x8000_0000
      modifies link, `ptyAllocated, `shellStarted
      ensures State() == Request(old(State()), p).ch
      ensures !link.broken ==> link.packets == old(link.packets) + Request(old(State()), p).replies
      ensures link.broken ==>
        (link.packets == old(link.packets)
         || link.packets == old(link.packets) + Request(old(State()), p).replies)
    {
      hide PutBe32, GetBe32;
      if |p| < 5 { return; }
      var pos, len := ParseString(p);
      if pos < 0 || pos >= |p| { return; }
      var wantReply := p[pos] != 0;
      var known := true;
      if len == 7 && p[9..16] == PTY_REQ {
        ptyAllocated := true;
      } else if len == 5 && p[9..14] == SHELL {
        shellStarted := true;
      } else if len != 3 || p[9..12] != ENV {
        known := false;
      }
      if wantReply { var _ := link.Send(Reply(known, remoteId)); }
    }

    /** ssh_channel_process_packet */
    method ProcessPacket(link: Link, p: seq<Byte>) returns (rc: int, pty: seq<Byte>)
      requires 1 <= |p| < 0x8000_0000
      requires p[0] == MSG_CHANNEL_DATA && |p| >= 9 ==> GetBe32(p[5..]) < 0x1_0000_0000 - 9
      modifies link, this
      ensures !link.broken ==> link.packets == old(link.packets) + Process(old(State()), p).replies
      ensures link.broken ==>
        (link.packets == old(link.packets)
         || link.packets == old(link.packets) + Process(old(State()), p).replies)
      ensures State() == Process(old(State()), p).ch
      ensures rc == Process(old(State()), p).rc && pty == Process(old(State()), p).data
    {
      hide PutBe32, GetBe32;
      pty := [];
      if p[0] == MSG_CHANNEL_DATA {
        if |p| < 9 { return -1, pty; }
        GetStringExactly(p);
        var pos, len := ParseString(p);
        if pos < 0 { return -1, pty; }
        localWindow := W32(localWindow as int - len);
        if localWindow < LOW_WATER {
          var _ := link.Send(AdjustPacket(remoteId, REFILL));
          localWindow := W32(localWindow as int + REFILL);
        }
        return 0, p[9..9 + len];
      } else if p[0] == MSG_WINDOW_ADJUST {
        if |p| < 9 { return -1, pty; }
        remoteWindow := W32(remoteWindow as int + GetBe32(p[5..]) as int);
        return 0, pty;
      } else if p[0] == MSG_CHANNEL_EOF || p[0] == MSG_CHANNEL_CLOSE {
        return 1, pty;
      } else if p[0] == MSG_CHANNEL_REQUEST {
        hide Request;
        HandleRequest(link, p);
        RequestReturns(old(State()), p);
      }
      rc := 0;
    }
  }

  /** Two open windows without a proper size: a limit of 0, and a limit beyond the ints. */
  method ImproperSizes() returns (none: int, wide: int)
    ensures none == 0 && !ProperChunk(1, wide)
  {
    var s := new Session;
    var exhausted;
    s.remoteMaxPkt, s.remoteWindow := 0, 1;
    exhausted, none := s.NextChunk(1);
    s.remoteMaxPkt, s.remoteWindow := 0x8000_0000, 2;
    exhausted, wide := s.NextChunk(1);
  }

  lemma RequestReturns(ch: Channel, p: seq<Byte>)
    requires |p| >= 1
    ensures Request(ch, p).rc == 0 && Request(ch, p).data == []
  {
  }

  // ---------- Two endpoints ----------

  /**
   Two endpoints and the packets travelling from a to b and from b to a.  `sentA` and
   `gotB` are the channel bytes sent so far by a and handed over so far at b; likewise
   `sentB` and `gotA`.
   */
  datatype Net = Net(a: Channel, b: Channel, ab: seq<seq<Byte>>, ba: seq<seq<Byte>>,
                     sentA: seq<Byte>, gotB: seq<Byte>, sentB: seq<Byte>, gotA: seq<Byte>)

  /** The same net seen from the other side. */
  function Swap(n: Net): Net { Net(n.b, n.a, n.ba, n.ab, n.sentB, n.gotA, n.sentA, n.gotB) }

  ghost predicate InRange(w: int) { LOW_WATER <= w < LOW_WATER + REFILL }

  /** Each side opens with the window the other has been told, in the range the code keeps. */
  ghost predicate Init(n: Net) {
    && n.ab == [] && n.ba == [] && n.sentA == [] && n.gotB == [] && n.sentB == [] && n.gotA == []
    && n.a.remoteWindow == n.b.localWindow && n.b.remoteWindow == n.a.localWindow
    && InRange(n.a.localWindow) && InRange(n.b.localWindow)
  }

  /** a sends one data packet that its window and packet limit allow. */
  ghost predicate SendStep(n: Net, n': Net, chunk: Chunk) {
    && FitsPacket(n.a.remoteMaxPkt, chunk) && |chunk| <= n.a.remoteWindow
    && n' == n.(a := n.a.(remoteWindow := n.a.remoteWindow - |chunk|),
                ab := n.ab + [DataPacket(n.a.remoteId, chunk)], sentA := n.sentA + chunk)
  }

  /** a sends a packet that is neither data nor a window adjustment. */
  ghost predicate OtherStep(n: Net, n': Net, p: seq<Byte>) {
    && p != [] && p[0] != MSG_CHANNEL_DATA && p[0] != MSG_WINDOW_ADJUST
    && n' == n.(ab := n.ab + [p])
  }

  /** b takes the next packet off its link and processes it. */
  ghost predicate RecvStep(n: Net, n': Net) {
    && n.ab != [] && |n.ab[0]| >= 1
    && var o := Process(n.b, n.ab[0]);
    n' == n.(b := o.ch, ab := n.ab[1..], ba := n.ba + o.replies, gotB := n.gotB + o.data)
  }

  ghost predicate Half(n: Net, n': Net) {
    (exists c :: SendStep(n, n', c)) || (exists p :: OtherStep(n, n', p)) || RecvStep(n, n')
  }

  ghost predicate Next(n: Net, n': Net) { Half(n, n') || Half(Swap(n), Swap(n')) }

  ghost predicate IsRun(run: seq<Net>) {
    && |run| > 0 && Init(run[0])
    && forall i :: 0 <= i < |run| - 1 ==> Next(run[i], run[i + 1])
  }

  // ---------- What travels on a link ----------

  ghost predicate IsData(p: seq<Byte>) {
    |p| >= 9 && p[0] == MSG_CHANNEL_DATA && GetData(p).Some?
  }

  ghost predicate IsRefill(p: seq<Byte>) {
    |p| == 9 && p[0] == MSG_WINDOW_ADJUST && GetBe32(p[5..]) == REFILL
  }

  ghost predicate IsOther(p: seq<Byte>) {
    p != [] && p[0] != MSG_CHANNEL_DATA && p[0] != MSG_WINDOW_ADJUST
  }

  ghost predicate Sound(link: seq<seq<Byte>>) {
    forall i :: 0 <= i < |link| ==> IsData(link[i]) || IsRefill(link[i]) || IsOther(link[i])
  }

  /** The channel bytes a packet carries. */
  ghost function BytesOf(p: seq<Byte>): seq<Byte> { if IsData(p) then GetData(p).value else [] }

  /** The credit a packet grants. */
  ghost function CreditOf(p: seq<Byte>): nat { if IsRefill(p) then REFILL else 0 }

  ghost function InFlight(link: seq<seq<Byte>>): seq<Byte> {
    if link == [] then [] else BytesOf(link[0]) + InFlight(link[1..])
  }

  ghost function Credit(link: seq<seq<Byte>>): nat {
    if link == [] then 0 else CreditOf(link[0]) + Credit(link[1..])
  }

  lemma {:induction false} LinkAppend(link: seq<seq<Byte>>, p: seq<Byte>)
    ensures InFlight(link + [p]) == InFlight(link) + BytesOf(p)
    ensures Credit(link + [p]) == Credit(link) + CreditOf(p)
  {
    hide BytesOf, CreditOf;
    if link == [] {
      assert link + [p] == [p];
    } else {
      assert (link + [p])[1..] == link[1..] + [p];
      LinkAppend(link[1..], p);
    }
  }

  // ---------- The invariant of one direction ----------

  /**
   Credit is conserved: what the sender may still send, plus what is under way to the
   receiver, plus credit under way back, is what the receiver believes.
   */
  ghost predicate Conserved(n: Net) {
    && Sound(n.ab) && Sound(n.ba)
    && n.a.remoteWindow + |InFlight(n.ab)| + Credit(n.ba) == n.b.localWindow
    && InRange(n.b.localWindow)
  }

  /** Nothing is lost, invented or reordered. */
  ghost predicate InOrder(n: Net) { n.gotB + InFlight(n.ab) == n.sentA }

  ghost predicate Inv(n: Net) {
    Conserved(n) && InOrder(n) && Conserved(Swap(n)) && InOrder(Swap(n))
  }

  lemma SwapTwice(n: Net)
    ensures Swap(Swap(n)) == n
  {
  }

  lemma InitInv(n: Net)
    requires Init(n)
    ensures Inv(n)
  {
  }

  // ---------- What one packet does ----------

  /** Receiving data within the window: the window drops by the length and is refilled below the mark. */
  lemma ReceiveData(ch: Channel, p: seq<Byte>)
    requires IsData(p) && |BytesOf(p)| <= ch.localWindow && InRange(ch.localWindow)
    ensures var o := Process(ch, p);
      && o.data == BytesOf(p) && o.rc == 0 && Sound(o.replies)
      && o.ch == ch.(localWindow := o.ch.localWindow) && InRange(o.ch.localWindow)
      && o.ch.localWindow == ch.localWindow - |BytesOf(p)| + Credit(o.replies)
      && InFlight(o.replies) == [] && |o.replies| <= 1
  {
    hide GetBe32, PutBe32;
    W32Id(ch.localWindow - |BytesOf(p)|);
    if ch.localWindow - |BytesOf(p)| < LOW_WATER {
      W32Id(ch.localWindow - |BytesOf(p)| + REFILL);
      AdjustPacketParses(ch.remoteId, REFILL);
      var a := AdjustPacket(ch.remoteId, REFILL);
      assert IsRefill(a) && !IsData(a);
      assert Process(ch, p).replies == [a];
    }
  }

  /** Receiving credit that fits: the sender's window grows by it. */
  lemma ReceiveRefill(ch: Channel, p: seq<Byte>)
    requires IsRefill(p) && ch.remoteWindow + CreditOf(p) < 0x1_0000_0000
    ensures Process(ch, p) == Outcome(0, ch.(remoteWindow := ch.remoteWindow + CreditOf(p)), [], [])
  {
    hide GetBe32;
    W32Id(ch.remoteWindow + CreditOf(p));
  }

  lemma LinkPop(link: seq<seq<Byte>>)
    requires link != [] && Sound(link)
    ensures InFlight(link) == BytesOf(link[0]) + InFlight(link[1..])
    ensures Credit(link) == CreditOf(link[0]) + Credit(link[1..])
    ensures Sound(link[1..])
    ensures IsData(link[0]) || IsRefill(link[0]) || IsOther(link[0])
  {
    hide BytesOf, CreditOf, IsData, IsRefill, IsOther;
    var rest := link[1..];
    assert forall i :: 0 <= i < |rest| ==> rest[i] == link[i + 1];
  }

  lemma SoundAppend(link: seq<seq<Byte>>, p: seq<Byte>)
    requires Sound(link) && (IsData(p) || IsRefill(p) || IsOther(p))
    ensures Sound(link + [p])
  {
    hide IsData, IsRefill, IsOther;
  }

  lemma RepliesAppend(link: seq<seq<Byte>>, replies: seq<seq<Byte>>)
    requires Sound(link) && Sound(replies) && |replies| <= 1 && InFlight(replies) == []
    ensures Sound(link + replies)
    ensures InFlight(link + replies) == InFlight(link)
    ensures Credit(link + replies) == Credit(link) + Credit(replies)
  {
    hide BytesOf, CreditOf, IsData, IsRefill, IsOther;
    if replies == [] {
      assert link + replies == link;
    } else {
      assert replies == [replies[0]];
      assert replies[1..] == [];
      LinkAppend(link, replies[0]);
      SoundAppend(link, replies[0]);
    }
  }

  // ---------- Every step keeps the invariant ----------

  lemma SendInv(n: Net, n': Net, c: Chunk)
    requires Inv(n) && SendStep(n, n', c)
    ensures Inv(n')
  {
    hide InFlight, Credit, Sound, GetBe32, PutBe32, DataPacket, GetData;
    var p := DataPacket(n.a.remoteId, c);
    DataPacketParses(n.a.remoteId, c);
    assert IsData(p) && BytesOf(p) == c && CreditOf(p) == 0;
    LinkAppend(n.ab, p);
    SoundAppend(n.ab, p);
    assert n.gotB + (InFlight(n.ab) + c) == n.gotB + InFlight(n.ab) + c;
  }

  lemma OtherInv(n: Net, n': Net, p: seq<Byte>)
    requires Inv(n) && OtherStep(n, n', p)
    ensures Inv(n')
  {
    hide InFlight, Credit, Sound, GetBe32, PutBe32, GetData;
    assert IsOther(p) && BytesOf(p) == [] && CreditOf(p) == 0;
    LinkAppend(n.ab, p);
    SoundAppend(n.ab, p);
    assert InFlight(n.ab) + [] == InFlight(n.ab);
  }

  lemma RecvInv(n: Net, n': Net)
    requires Inv(n) && RecvStep(n, n')
    ensures Inv(n')
  {
    hide InFlight, Credit, Sound, GetBe32, PutBe32, GetData, Process;
    var p := n.ab[0];
    LinkPop(n.ab);
    if IsData(p) {
      RecvDataInv(n, n');
    } else if IsRefill(p) {
      RecvRefillInv(n, n');
    } else {
      OtherMovesNoCredit(n.b, p);
      RepliesAppend(n.ba, Process(n.b, p).replies);
      assert BytesOf(p) == [] && CreditOf(p) == 0;
      assert n.gotB + [] == n.gotB;
      assert [] + InFlight(n.ab[1..]) == InFlight(n.ab[1..]);
    }
  }

  /** Requests and the like leave the windows alone, and any reply is again such a packet. */
  lemma OtherMovesNoCredit(ch: Channel, p: seq<Byte>)
    requires IsOther(p)
    ensures var o := Process(ch, p);
      && o.ch.remoteWindow == ch.remoteWindow && o.ch.localWindow == ch.localWindow && o.data == []
      && |o.replies| <= 1 && Sound(o.replies) && InFlight(o.replies) == [] && Credit(o.replies) == 0
  {
    hide GetData, PutBe32;
    var o := Process(ch, p);
    if o.replies != [] {
      assert IsOther(o.replies[0]) && !IsData(o.replies[0]) && !IsRefill(o.replies[0]);
      assert o.replies[1..] == [];
    }
  }

  lemma RecvDataInv(n: Net, n': Net)
    requires Inv(n) && RecvStep(n, n') && IsData(n.ab[0])
    ensures Inv(n')
  {
    hide InFlight, Credit, Sound, GetBe32, PutBe32, GetData, Process;
    var p := n.ab[0];
    LinkPop(n.ab);
    ReceiveData(n.b, p);
    RepliesAppend(n.ba, Process(n.b, p).replies);
    assert n.gotB + (BytesOf(p) + InFlight(n.ab[1..])) == n.gotB + BytesOf(p) + InFlight(n.ab[1..]);
  }

  lemma RecvRefillInv(n: Net, n': Net)
    requires Inv(n) && RecvStep(n, n') && IsRefill(n.ab[0])
    ensures Inv(n')
  {
    hide InFlight, Credit, Sound, GetBe32, PutBe32, GetData, Process;
    var p := n.ab[0];
    LinkPop(n.ab);
    assert !IsData(p) && BytesOf(p) == [];
    ReceiveRefill(n.b, p);
    assert n.ba + [] == n.ba && n.gotB + [] == n.gotB;
    assert [] + InFlight(n.ab[1..]) == InFlight(n.ab[1..]);
  }

  lemma HalfInv(n: Net, n': Net)
    requires Inv(n) && Half(n, n')
    ensures Inv(n')
  {
    hide Inv, SendStep, OtherStep, RecvStep;
    if c :| SendStep(n, n', c) {
      SendInv(n, n', c);
    } else if p :| OtherStep(n, n', p) {
      OtherInv(n, n', p);
    } else {
      RecvInv(n, n');
    }
  }

  lemma InvSwap(n: Net)
    ensures Inv(Swap(n)) <==> Inv(n)
  {
    hide Conserved, InOrder;
    SwapTwice(n);
  }

  lemma StepInv(n: Net, n': Net)
    requires Inv(n) && Next(n, n')
    ensures Inv(n')
  {
    hide Inv, Half;
    if Half(n, n') {
      HalfInv(n, n');
    } else {
      InvSwap(n);
      HalfInv(Swap(n), Swap(n'));
      InvSwap(n');
    }
  }

  // ---------- Every run ----------

  lemma {:induction false} RunInv(run: seq<Net>)
    requires IsRun(run)
    ensures forall i :: 0 <= i < |run| ==> Inv(run[i])
    decreases |run|
  {
    hide Inv, Next, Init;
    if |run| == 1 {
      InitInv(run[0]);
    } else {
      var k := |run| - 2;
      var front := run[..k + 1];
      assert forall i :: 0 <= i < |front| ==> front[i] == run[i];
      RunInv(front);
      assert Inv(front[k]);
      StepInv(run[k], run[k + 1]);
    }
  }

  /**
   Section 5.2 of RFC 4254 over every run, for both directions: credit is conserved, so
   no window wraps and the receiver's stays within one refill above its low-water mark; the
   bytes handed over are a prefix of the bytes sent.
   */
  lemma WindowsAreConserved(run: seq<Net>, i: nat)
    requires IsRun(run) && i < |run|
    ensures var n := run[i];
      && n.a.remoteWindow + |InFlight(n.ab)| + Credit(n.ba) == n.b.localWindow
      && n.b.remoteWindow + |InFlight(n.ba)| + Credit(n.ab) == n.a.localWindow
      && InRange(n.a.localWindow) && InRange(n.b.localWindow)
      && n.gotB <= n.sentA && n.gotA <= n.sentB
      && n.gotB + InFlight(n.ab) == n.sentA && n.gotA + InFlight(n.ba) == n.sentB
  {
    hide InFlight, Credit, Sound, Next, Init, InRange;
    RunInv(run);
    assert Inv(run[i]);
  }

  /**
   No deadlock on credit: once the links have drained, everything sent has been handed over
   and each side may send at least a low-water mark of bytes again.
   */
  lemma IdleLinkLeavesCredit(run: seq<Net>, i: nat)
    requires IsRun(run) && i < |run| && run[i].ab == [] && run[i].ba == []
    ensures run[i].a.remoteWindow >= LOW_WATER && run[i].b.remoteWindow >= LOW_WATER
    ensures run[i].gotB == run[i].sentA && run[i].gotA == run[i].sentB
  {
    hide Sound, Next, Init;
    WindowsAreConserved(run, i);
    assert InFlight([]) == [] && Credit([]) == 0;
    var n := run[i];
    assert n.gotB + [] == n.gotB && n.gotA + [] == n.gotA;
  }

  /** A packet that arrives on a run is never a window violation, and never an error. */
  lemma NoArrivalOverruns(run: seq<Net>, i: nat)
    requires IsRun(run) && i < |run| && run[i].ab != []
    ensures |BytesOf(run[i].ab[0])| <= run[i].b.localWindow
    ensures run[i].ab[0] != [] && Process(run[i].b, run[i].ab[0]).rc >= 0
  {
    hide InFlight, Credit, Next, Init, GetBe32, PutBe32;
    RunInv(run);
    assert Inv(run[i]);
    LinkPop(run[i].ab);
  }

  // ---------- The links can always drain ----------

  /** The nets of `path` lead from n to n'. */
  ghost predicate Leads(path: seq<Net>, n: Net, n': Net) {
    && |path| > 0 && path[0] == n
    && if |path| == 1 then n == n' else Next(n, path[1]) && Leads(path[1..], path[1], n')
  }

  lemma Prepend(n: Net, n1: Net, path: seq<Net>, n': Net)
    requires Next(n, n1) && Leads(path, n1, n')
    ensures Leads([n] + path, n, n')
  {
    hide Next;
    assert ([n] + path)[1..] == path;
  }

  /** How many receive steps a packet can still cause: its own, and that of a reply. */
  ghost function Weight(p: seq<Byte>): nat {
    if p != [] && (p[0] == MSG_CHANNEL_DATA || p[0] == MSG_CHANNEL_REQUEST) then 2 else 1
  }

  ghost function Load(link: seq<seq<Byte>>): nat {
    if link == [] then 0 else Weight(link[0]) + Load(link[1..])
  }

  lemma {:induction false} LoadAppend(link: seq<seq<Byte>>, more: seq<seq<Byte>>)
    ensures Load(link + more) == Load(link) + Load(more)
    decreases |link|
  {
    hide Weight;
    if link == [] {
      assert link + more == more;
    } else {
      assert (link + more)[1..] == link[1..] + more;
      LoadAppend(link[1..], more);
    }
  }

  /** Only data and requests are answered, and answers are not. */
  lemma RepliesAreLighter(ch: Channel, p: seq<Byte>)
    requires p != []
    ensures Load(Process(ch, p).replies) < Weight(p)
  {
    hide PutBe32, GetBe32, GetString, GetData, KindOf;
    var replies := Process(ch, p).replies;
    if replies != [] {
      assert replies == [replies[0]];
      assert Load(replies[1..]) == 0;
      assert Weight(replies[0]) == 1;
    }
  }

  /** b takes the next packet off its link. */
  ghost function Received(n: Net): Net
    requires n.ab != [] && n.ab[0] != []
  {
    var o := Process(n.b, n.ab[0]);
    n.(b := o.ch, ab := n.ab[1..], ba := n.ba + o.replies, gotB := n.gotB + o.data)
  }

  lemma ReceivedIsStep(n: Net)
    requires Inv(n) && n.ab != []
    ensures n.ab[0] != [] && Half(n, Received(n)) && Inv(Received(n))
    ensures Load(Received(n).ab) + Load(Received(n).ba) < Load(n.ab) + Load(n.ba)
  {
    LinkPop(n.ab);
    hide Process, InFlight, Credit, Sound, GetBe32, PutBe32, GetData, Inv;
    assert RecvStep(n, Received(n));
    RecvInv(n, Received(n));
    RepliesAreLighter(n.b, n.ab[0]);
    LoadAppend(n.ba, Process(n.b, n.ab[0]).replies);
  }

  lemma {:induction false} Drains(n: Net) returns (path: seq<Net>, n': Net)
    requires Inv(n)
    ensures Leads(path, n, n') && Inv(n') && n'.ab == [] && n'.ba == []
    ensures n'.sentA == n.sentA && n'.sentB == n.sentB
    decreases Load(n.ab) + Load(n.ba)
  {
    hide Inv, Half, Load;
    if n.ab != [] {
      ReceivedIsStep(n);
      var n1 := Received(n);
      path, n' := Drains(n1);
      Prepend(n, n1, path, n');
      path := [n] + path;
    } else if n.ba != [] {
      InvSwap(n);
      ReceivedIsStep(Swap(n));
      var n1 := Swap(Received(Swap(n)));
      SwapTwice(Received(Swap(n)));
      InvSwap(Received(Swap(n)));
      path, n' := Drains(n1);
      Prepend(n, n1, path, n');
      path := [n] + path;
    } else {
      path, n' := [n], n;
    }
  }

  /**
   In every state of every run, receiving alone can empty both links; everything sent has then
   been handed over, and each side may send at least a low-water mark of bytes.
   */
  lemma LinksCanDrain(run: seq<Net>, i: nat) returns (path: seq<Net>, n': Net)
    requires IsRun(run) && i < |run|
    ensures Leads(path, run[i], n') && n'.ab == [] && n'.ba == []
    ensures n'.gotB == n'.sentA == run[i].sentA && n'.gotA == n'.sentB == run[i].sentB
    ensures n'.a.remoteWindow >= LOW_WATER && n'.b.remoteWindow >= LOW_WATER
  {
    hide Next, Init, Leads;
    RunInv(run);
    assert Inv(run[i]);
    path, n' := Drains(run[i]);
    assert InFlight([]) == [] && Credit([]) == 0;
    assert n'.gotB + [] == n'.gotB && n'.gotA + [] == n'.gotA;
  }

  /** A request that asks for an answer gets one: sent over drained links, its answer is next on the way back. */
  lemma RequestIsAnswered(n: Net, p: seq<Byte>, kind: seq<Byte>)
    requires n.ab == [] && n.ba == [] && 9 <= |p| < 0x8000_0000 && p[0] == MSG_CHANNEL_REQUEST
    requires GetBe32(p[5..]) < 0x1_0000_0000 - 9 && GetData(p) == Some(kind)
    requires 9 + |kind| < |p| && p[9 + |kind|] != 0
    ensures var n1 := n.(ab := [p]);
      && Half(n, n1) && Half(n1, Received(n1))
      && Received(n1).ba == [Reply(kind == PTY_REQ || kind == SHELL || kind == ENV, n.b.remoteId)]
  {
    hide GetBe32, PutBe32, GetData;
    var n1 := n.(ab := [p]);
    assert [] + [p] == [p];
    assert OtherStep(n, n1, p);
    assert RecvStep(n1, Received(n1));
    RequestIsParsed(n.b, p);
    hide Request;
  }

  // ---------- The loop of SendData takes such steps ----------

  /** Along this path a sends these chunks one after the other. */
  ghost predicate SendSteps(path: seq<Net>, chunks: seq<Chunk>) {
    |path| == |chunks| + 1 && forall i :: 0 <= i < |chunks| ==> SendStep(path[i], path[i + 1], chunks[i])
  }

  /** The net after a has sent the chunks. */
  ghost function AfterSend(n: Net, chunks: seq<Chunk>): Net
    requires |Flat(chunks)| <= n.a.remoteWindow
  {
    n.(a := n.a.(remoteWindow := n.a.remoteWindow - |Flat(chunks)|),
       ab := n.ab + DataPackets(n.a.remoteId, chunks), sentA := n.sentA + Flat(chunks))
  }

  /**
   What SendData promises about its chunks is exactly what makes its whole call a sequence
   of send steps of the two-party protocol.
   */
  lemma {:induction false} SendDataIsSteps(n: Net, chunks: seq<Chunk>) returns (path: seq<Net>)
    requires forall c :: c in chunks ==> FitsPacket(n.a.remoteMaxPkt, c)
    requires |Flat(chunks)| <= n.a.remoteWindow
    ensures SendSteps(path, chunks) && path[0] == n && path[|chunks|] == AfterSend(n, chunks)
    decreases |chunks|
  {
    hide DataPacket;
    if chunks == [] {
      assert n.ab + [] == n.ab && n.sentA + [] == n.sentA;
      path := [n];
    } else {
      var front, c := chunks[..|chunks| - 1], chunks[|chunks| - 1];
      assert chunks == front + [c];
      AfterSendStep(n, front, c);
      path := SendDataIsSteps(n, front);
      hide AfterSend, SendSteps, SendStep, Flat;
      ExtendSteps(path, front, AfterSend(n, chunks), c);
      path := path + [AfterSend(n, chunks)];
    }
  }

  lemma AfterSendStep(n: Net, chunks: seq<Chunk>, c: Chunk)
    requires FitsPacket(n.a.remoteMaxPkt, c) && |Flat(chunks + [c])| <= n.a.remoteWindow
    ensures |Flat(chunks)| <= n.a.remoteWindow
    ensures SendStep(AfterSend(n, chunks), AfterSend(n, chunks + [c]), c)
  {
    AppendChunk(n.a.remoteId, chunks, c);
    hide DataPacket, DataPackets, Flat;
    var m := AfterSend(n, chunks);
    assert n.ab + (DataPackets(n.a.remoteId, chunks) + [DataPacket(n.a.remoteId, c)])
        == m.ab + [DataPacket(n.a.remoteId, c)];
    assert n.sentA + (Flat(chunks) + c) == m.sentA + c;
  }

  lemma ExtendSteps(path: seq<Net>, chunks: seq<Chunk>, last: Net, c: Chunk)
    requires SendSteps(path, chunks) && SendStep(path[|chunks|], last, c)
    ensures SendSteps(path + [last], chunks + [c])
  {
    hide SendStep;
    var q, d := path + [last], chunks + [c];
    forall i | 0 <= i < |d|
      ensures SendStep(q[i], q[i + 1], d[i])
    {
      if i < |chunks| {
        assert d[i] == chunks[i] && q[i] == path[i] && q[i + 1] == path[i + 1];
      }
    }
  }
}
