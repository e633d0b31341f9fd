/** Which frames the management endpoint answers and with what, byte by byte. */
module ManagementReplies {
  import opened Types
  import opened Checksum
  import opened Management

  // ---- ARP --------------------------------------------------------------------------------------

  /** A request over Ethernet and IPv4 for 192.168.77.1, sent from the address it names as its own. */
  predicate ArpForUs(frame: Bytes)
    requires FrameOk(frame)
  {
    && |frame| >= 42 && frame[14..22] == [0, 1, 8, 0, 6, 4, 0, 1]
    && frame[38] == 192 && frame[39] == 168 && frame[40] == 77 && frame[41] == 1
    && frame[22..28] == frame[6..12]
  }

  /** The answer: operation 2, our addresses as the sender, the asker's as the target, zeros after. */
  lemma ArpExact(frame: Bytes)
    requires FrameOk(frame) && frame[12] == 8 && frame[13] == 6
    ensures Reply(frame).Some? <==> ArpForUs(frame)
    ensures
      Reply(frame).Some? ==>
        var r := Reply(frame).value;
        && |r| == 60 && r[..6] == frame[6..12] && r[6..12] == [0x02, 0x53, 0x56, 0, 0, 3]
        && r[12..22] == [8, 6, 0, 1, 8, 0, 6, 4, 0, 2]
        && r[22..28] == [0x02, 0x53, 0x56, 0, 0, 3] && r[28..32] == [192, 168, 77, 1]
        && r[32..38] == frame[22..28] && r[38..42] == frame[28..32] && r[42..] == Zeros(18)
  {
    assert frame[12..14] == [8, 6];
    AsksArpExact(frame);
    if AsksArp(frame) { ArpReplyBytes(frame); }
  }

  lemma AsksArpExact(frame: Bytes)
    requires FrameOk(frame)
    ensures AsksArp(frame) <==> ArpForUs(frame)
  {
    if |frame| >= 42 {
      FourAt(frame, 38, 192, 168, 77, 1);
    }
  }

  lemma FourAt(b: Bytes, at: nat, w: byte, x: byte, y: byte, z: byte)
    requires at + 4 <= |b|
    ensures b[at..at + 4] == [w, x, y, z] <==> b[at] == w && b[at + 1] == x && b[at + 2] == y && b[at + 3] == z
  {
    var part := b[at..at + 4];
    assert part[0] == b[at] && part[1] == b[at + 1] && part[2] == b[at + 2] && part[3] == b[at + 3];
  }

  lemma ArpReplyBytes(frame: Bytes)
    requires FrameOk(frame) && AsksArp(frame) && frame[12..14] == [8, 6]
    ensures
      var r := ArpReply(frame);
      && r[..6] == frame[6..12] && r[6..12] == [0x02, 0x53, 0x56, 0, 0, 3]
      && r[12..22] == [8, 6, 0, 1, 8, 0, 6, 4, 0, 2]
      && r[22..28] == [0x02, 0x53, 0x56, 0, 0, 3] && r[28..32] == [192, 168, 77, 1]
      && r[32..38] == frame[22..28] && r[38..42] == frame[28..32] && r[42..] == Zeros(18)
  {
    var r := ArpReply(frame);
    assert frame[12..21] == frame[12..14] + frame[14..22][..7];
    assert r[12..22] == frame[12..21] + [2];
    assert r[32..42] == frame[22..32];
    assert r[32..38] == r[32..42][..6] && r[38..42] == r[32..42][6..];
  }

  // ---- IPv4 ----------------------------------------------------------------------------------------

  /**
   A datagram to be looked at: to our hardware and network address, version 4 without options, its length
   within the frame, no fragment (only Don't Fragment may be set), still alive, its header sum right.
   */
  predicate IpForUs(frame: Bytes)
    requires FrameOk(frame)
  {
    && |frame| >= 42
    && frame[0] == 0x02 && frame[1] == 0x53 && frame[2] == 0x56 && frame[3] == 0 && frame[4] == 0 && frame[5] == 3
    && frame[12] == 8 && frame[13] == 0 && frame[14] == 0x45
    && frame[30] == 192 && frame[31] == 168 && frame[32] == 77 && frame[33] == 1
    && 28 <= 256 * frame[16] + frame[17] <= |frame| - 14
    && frame[20] in {0, 0x40} && frame[21] == 0 && frame[22] > 0
    && Of(frame[14..34]) == 0
  }

  lemma AsksIpExact(frame: Bytes)
    requires FrameOk(frame)
    ensures AsksIp(frame) <==> IpForUs(frame)
  {
    if |frame| >= 42 {
      SixAt(frame);
      assert frame[12..14] == [8, 0] <==> frame[12] == 8 && frame[13] == 0 by {
        assert frame[12..14][0] == frame[12] && frame[12..14][1] == frame[13];
      }
      FourAt(frame, 30, 192, 168, 77, 1);
      assert WordAt(frame, 16) == 256 * frame[16] as nat + frame[17] as nat;
      Unfragmented(frame[20], frame[21]);
      assert WordAt(frame, 20) == 256 * frame[20] as nat + frame[21] as nat;
    }
  }

  lemma SixAt(frame: Bytes)
    requires |frame| >= 42
    ensures frame[..6] == MANAGEMENT_MAC <==>
      frame[0] == 0x02 && frame[1] == 0x53 && frame[2] == 0x56 && frame[3] == 0 && frame[4] == 0 && frame[5] == 3
  {
    var part := frame[..6];
    assert part[0] == frame[0] && part[1] == frame[1] && part[2] == frame[2] && part[3] == frame[3];
    assert part[4] == frame[4] && part[5] == frame[5];
  }

  lemma Unfragmented(high: byte, low: byte)
    ensures
      var w := 256 * high as nat + low as nat;
      w % 0x4000 == 0 && w < 0x8000 <==> high in {0, 0x40} && low == 0
  {
  }

  /** An echo request with a right sum, or a UDP command for port 7777. */
  lemma IpExact(frame: Bytes)
    requires FrameOk(frame) && !(frame[12] == 8 && frame[13] == 6)
    ensures
      Reply(frame).Some? <==>
        IpForUs(frame) && AsksIp(frame)
        && if frame[23] == 1 then frame[34] == 8 && frame[35] == 0 && Of(frame[34..14 + TotalLength(frame)]) == 0
           else CommandFor(frame).Some?
  {
    assert !IsArp(frame) by { assert frame[12..14][0] == frame[12] && frame[12..14][1] == frame[13]; }
    AsksIpExact(frame);
    if AsksIp(frame) {
      var p := Payload(frame);
      assert p[0] == frame[34] && p[1] == frame[35] && p[..2] == [p[0], p[1]];
      CommandExact(frame);
    }
  }

  // ---- Commands ------------------------------------------------------------------------------------

  /** The answer to a command's text. */
  function AnswerTo(text: Bytes): Option<Bytes> {
    if text == Ascii("ping") || text == Ascii("ping\n") then Some(Ascii("pong\n"))
    else if text == Ascii("status") || text == Ascii("status\n")
    then Some(Ascii("switchvisor usb-net ") + Ascii("management=192.168.77.1 ") + Ascii("mtu=1500\n"))
    else None
  }

  /** A UDP datagram for port 7777 of the announced length, with no checksum or a right one. */
  predicate UdpForUs(frame: Bytes, end: nat)
    requires 42 <= end <= |frame|
  {
    && frame[23] == 17 && frame[36] == 0x1e && frame[37] == 0x61
    && 256 * frame[38] as nat + frame[39] as nat == end - 34
    && ((frame[40] == 0 && frame[41] == 0)
        || Of(frame[26..34] + [0, 17, frame[38], frame[39]] + frame[34..end]) == 0)
  }

  /** Where the datagram ends in its frame. */
  function End(frame: Bytes): (n: nat)
    requires FrameOk(frame) && AsksIp(frame)
    ensures 42 <= n <= |frame|
  {
    assert TotalLength(frame) == 256 * frame[16] as nat + frame[17] as nat;
    14 + 256 * frame[16] as nat + frame[17] as nat
  }

  function CommandFor(frame: Bytes): Option<Bytes>
    requires FrameOk(frame) && AsksIp(frame)
  {
    if UdpForUs(frame, End(frame)) then AnswerTo(frame[42..End(frame)]) else None
  }

  lemma AnswerExact(text: Bytes)
    ensures
      AnswerTo(text)
      == if text == PING || text == PING + [10] then Some(PONG)
         else if text == STATUS || text == STATUS + [10] then Some(REPORT) else None
  {
    assert Ascii("ping\n") == Ascii("ping") + [10];
    assert Ascii("status\n") == Ascii("status") + [10];
  }

  lemma WordIs(b: Bytes, at: nat, high: byte, low: byte)
    requires at + 2 <= |b|
    ensures WordAt(b, at) == 256 * high as nat + low as nat <==> b[at] == high && b[at + 1] == low
  {
  }

  lemma ChecksumCovers(frame: Bytes, p: Bytes)
    requires |frame| >= 42 && 8 <= |p| <= ONES && |p| == 256 * frame[38] as nat + frame[39] as nat
    ensures SplitTest(frame[26..34], p) <==> Of(frame[26..34] + [0, 17, frame[38], frame[39]] + p) == 0
  {
    SplitTestExact(frame[26..34], p);
    assert Be16(|p|) == [frame[38], frame[39]] && Be16(17) == [0, 17];
    assert PseudoHeader(frame[26..34], |p|) == frame[26..34] + [0, 17, frame[38], frame[39]];
  }

  lemma UdpExact(frame: Bytes)
    requires FrameOk(frame) && AsksIp(frame)
    ensures
      var p := Payload(frame);
      UdpForUs(frame, End(frame)) <==>
        && frame[23] == 17 && WordAt(p, 2) == MANAGEMENT_PORT && WordAt(p, 4) == |p|
        && (WordAt(p, 6) == 0 || SplitTest(frame[26..34], p))
  {
    var p := Payload(frame);
    assert p == frame[34..End(frame)];
    assert p[2] == frame[36] && p[3] == frame[37] && p[4] == frame[38] && p[5] == frame[39];
    assert p[6] == frame[40] && p[7] == frame[41];
    WordIs(p, 2, 0x1e, 0x61);
    WordIs(p, 4, frame[38], frame[39]);
    WordIs(p, 6, 0, 0);
    if WordAt(p, 4) == |p| { ChecksumCovers(frame, p); }
  }

  lemma CommandExact(frame: Bytes)
    requires FrameOk(frame) && AsksIp(frame)
    ensures Command(frame) == CommandFor(frame)
  {
    UdpExact(frame);
    assert Payload(frame)[8..] == frame[42..End(frame)];
    AnswerExact(frame[42..End(frame)]);
  }

  // ---- What an IPv4 reply holds --------------------------------------------------------------------------

  /** The reply's headers and padding around a transport part of `n` bytes; `IpReplyVerifies` has the checksum. */
  predicate Framed(frame: Bytes, r: Bytes, n: nat)
    requires |frame| >= 42
  {
    && |r| == (if n < 26 then 60 else 34 + n)
    && r[..6] == frame[6..12] && r[6..12] == [0x02, 0x53, 0x56, 0, 0, 3] && r[12..16] == [8, 0, 0x45, frame[15]]
    && 256 * r[16] as nat + r[17] as nat == 20 + n && r[18..20] == frame[18..20]
    && r[20] == 0 && r[21] == 0 && r[22] == 64 && r[23] == frame[23]
    && r[26..30] == [192, 168, 77, 1] && r[30..34] == frame[26..30]
    && forall i: nat :: 34 + n <= i < |r| ==> r[i] == 0
  }

  lemma ReplyFramed(frame: Bytes, t: Bytes)
    requires FrameOk(frame) && AsksIp(frame) && 8 <= |t| <= 1480
    ensures Framed(frame, IpReply(frame, t), |t|) && IpReply(frame, t)[34..34 + |t|] == t
  {
    var r, h := IpReply(frame, t), IpHeader(frame, 20 + |t|);
    AsksIpExact(frame);
    IpReplyParts(frame, t);
    HeaderBytes(frame, 20 + |t|);
    assert forall i: nat :: i < 20 ==> r[14 + i] == h[i] by {
      forall i: nat | i < 20 ensures r[14 + i] == h[i] { assert r[14..34][i] == h[i]; }
    }
    assert r[26..30] == h[12..16] && r[30..34] == h[16..20] && r[18..20] == h[4..6];
    assert r[12..16] == frame[12..14] + h[..2];
  }

  lemma HeaderBytes(frame: Bytes, n: nat)
    requires FrameOk(frame) && AsksIp(frame) && n <= ONES
    ensures
      var h := IpHeader(frame, n);
      && h[..2] == [0x45, frame[15]] && 256 * h[2] as nat + h[3] as nat == n && h[4..6] == frame[18..20]
      && h[6] == 0 && h[7] == 0 && h[8] == 64 && h[9] == frame[23]
      && h[12..16] == [192, 168, 77, 1] && h[16..20] == frame[26..30]
  {
    var h := IpHeader(frame, n);
    HeaderLength(frame, n);
    assert h[..10] == IpHead(frame, n) && h[12..] == IpTail(frame);
    assert h[..2] == h[..10][..2] && h[4..6] == h[..10][4..6];
    assert h[6] == h[..10][6] && h[7] == h[..10][7] && h[8] == h[..10][8] && h[9] == h[..10][9];
    assert h[12..16] == h[12..][..4] && h[16..20] == h[12..][4..];
  }

  /** A command is answered from port 7777 to the port it came from, without a checksum. */
  lemma CommandAnswered(frame: Bytes)
    requires FrameOk(frame) && !IsArp(frame) && AsksIp(frame) && frame[23] == 17
    ensures Reply(frame).Some? <==> CommandFor(frame).Some?
    ensures
      Reply(frame).Some? ==>
        var r, answer := Reply(frame).value, CommandFor(frame).value;
        && Framed(frame, r, 8 + |answer|)
        && r[34] == 0x1e && r[35] == 0x61 && r[36..38] == frame[34..36]
        && 256 * r[38] as nat + r[39] as nat == 8 + |answer| && r[40] == 0 && r[41] == 0
        && r[42..42 + |answer|] == answer
  {
    CommandExact(frame);
    if Command(frame).Some? {
      var p, answer := Payload(frame), Command(frame).value;
      ReplyFramed(frame, Udp(p, answer));
      UdpBytes(frame, IpReply(frame, Udp(p, answer)), p, answer);
    }
  }

  lemma UdpBytes(frame: Bytes, r: Bytes, p: Bytes, answer: Bytes)
    requires |frame| >= 42 && |p| >= 8 && p[0] == frame[34] && p[1] == frame[35] && |answer| <= 64
    requires |r| >= 42 + |answer| && r[34..42 + |answer|] == Udp(p, answer)
    ensures r[34] == 0x1e && r[35] == 0x61 && r[36..38] == frame[34..36]
    ensures 256 * r[38] as nat + r[39] as nat == 8 + |answer| && r[40] == 0 && r[41] == 0
    ensures r[42..42 + |answer|] == answer
  {
    var u := Udp(p, answer);
    assert forall i: nat :: i < 8 ==> r[34 + i] == u[i] by {
      forall i: nat | i < 8 ensures r[34 + i] == u[i] { assert r[34..42 + |answer|][i] == u[i]; }
    }
    assert r[34] == u[0] && r[35] == u[1] && r[36] == u[2] && r[37] == u[3];
    assert r[38] == u[4] && r[39] == u[5] && r[40] == u[6] && r[41] == u[7];
    assert r[42..42 + |answer|] == r[34..42 + |answer|][8..] == u[8..];
  }

  /** An echo comes back with type and code zero and everything after its checksum as it was. */
  lemma EchoAnswered(frame: Bytes)
    requires FrameOk(frame) && !IsArp(frame) && AsksIp(frame) && frame[23] == 1 && Reply(frame).Some?
    ensures
      var r, n := Reply(frame).value, End(frame) - 34;
      Framed(frame, r, n) && r[34] == 0 && r[35] == 0 && r[38..34 + n] == frame[38..34 + n]
  {
    var p, e := Payload(frame), Echo(Payload(frame));
    var r := Reply(frame).value;
    ReplyFramed(frame, e);
    assert p[..2][1] == p[1] == 0;
    assert r[34] == r[34..34 + |e|][0] && r[35] == r[34..34 + |e|][1];
    assert r[38..34 + |e|] == r[34..34 + |e|][4..] && e[4..] == p[4..] && p[4..] == frame[38..34 + |p|];
  }
}
