/** The management endpoint: ARP, ICMP echo and two UDP commands, answered into a reused frame slot. */
module Management {
  import opened Types
  import opened Checksum

  const MANAGEMENT_MAC: Bytes := [0x02, 0x53, 0x56, 0, 0, 3]
  const MANAGEMENT_IP: Bytes := [192, 168, 77, 1]
  const MANAGEMENT_PORT := 7777
  const ARP_REQUEST: Bytes := [0, 1, 8, 0, 6, 4, 0, 1]

  const PING := Ascii("ping")
  const PONG := Ascii("pong\n")
  const STATUS := Ascii("status")
  const REPORT := Ascii("switchvisor usb-net ") + Ascii("management=192.168.77.1 ") + Ascii("mtu=1500\n")

  // ---- ARP --------------------------------------------------------------------------------------

  predicate IsArp(frame: Bytes)
    requires FrameOk(frame)
  {
    frame[12..14] == [8, 6]
  }

  predicate AsksArp(frame: Bytes)
    requires FrameOk(frame)
  {
    && |frame| >= 42 && frame[14..22] == ARP_REQUEST && frame[38..42] == MANAGEMENT_IP
    && frame[22..28] == frame[6..12]
  }

  function ArpReply(frame: Bytes): (r: Bytes)
    requires FrameOk(frame) && AsksArp(frame)
    ensures |r| == 60
  {
    frame[6..12] + MANAGEMENT_MAC + frame[12..21] + [2] + MANAGEMENT_MAC + MANAGEMENT_IP + frame[22..32] + Zeros(18)
  }

  // ---- IPv4 --------------------------------------------------------------------------------------

  function TotalLength(frame: Bytes): (n: nat)
    requires |frame| >= 18
    ensures n <= ONES
  {
    WordAt(frame, 16)
  }

  /** A whole unfragmented datagram for the management address with a correct header checksum. */
  predicate AsksIp(frame: Bytes)
    requires FrameOk(frame)
  {
    && |frame| >= 42 && frame[..6] == MANAGEMENT_MAC && frame[12..14] == [8, 0] && frame[14] == 0x45
    && frame[30..34] == MANAGEMENT_IP
    && 28 <= TotalLength(frame) && TotalLength(frame) + 14 <= |frame|
    && WordAt(frame, 20) % 0x4000 == 0 && WordAt(frame, 20) < 0x8000
    && frame[22] != 0 && Of(frame[14..34]) == 0
  }

  function Payload(frame: Bytes): (p: Bytes)
    requires FrameOk(frame) && AsksIp(frame)
    ensures |p| == TotalLength(frame) - 20 && 8 <= |p| <= 1480
  {
    frame[34..14 + TotalLength(frame)]
  }

  predicate AsksEcho(frame: Bytes)
    requires FrameOk(frame) && AsksIp(frame)
  {
    frame[23] == 1 && Payload(frame)[..2] == [8, 0] && Of(Payload(frame)) == 0
  }

  function Echo(p: Bytes): (r: Bytes)
    requires |p| >= 8
    ensures |r| == |p|
  {
    var head, tail := [0, p[1]], p[4..];
    head + Be16(Of(head + Be16(0) + tail)) + tail
  }

  /** The answer to a UDP command, if the datagram is one. */
  function Command(frame: Bytes): (c: Option<Bytes>)
    requires FrameOk(frame) && AsksIp(frame)
    ensures c.Some? ==> 0 < |c.value| <= 64
  {
    var p := Payload(frame);
    if frame[23] != 17 || WordAt(p, 2) != MANAGEMENT_PORT || WordAt(p, 4) != |p| then None
    else if WordAt(p, 6) != 0 && !SplitTest(frame[26..34], p) then None
    else if p[8..] == PING || p[8..] == PING + [10] then Some(PONG)
    else if p[8..] == STATUS || p[8..] == STATUS + [10] then Some(REPORT)
    else None
  }

  function Udp(p: Bytes, answer: Bytes): (r: Bytes)
    requires |p| >= 8 && |answer| <= 64
    ensures |r| == 8 + |answer|
  {
    Be16(MANAGEMENT_PORT) + p[..2] + Be16(8 + |answer|) + [0, 0] + answer
  }

  /** The transport part of the reply to an IPv4 request. */
  function Transport(frame: Bytes): (t: Option<Bytes>)
    requires FrameOk(frame) && AsksIp(frame)
    ensures t.Some? ==> 8 <= |t.value| <= 1480
  {
    var p := Payload(frame);
    if frame[23] == 1 then if AsksEcho(frame) then Some(Echo(p)) else None
    else
      match Command(frame)
      case None => None
      case Some(answer) => Some(Udp(p, answer))
  }

  function IpHead(frame: Bytes, length: nat): (a: Bytes)
    requires |frame| >= 42 && length <= ONES
    ensures |a| == 10
  {
    frame[14..16] + Be16(length) + frame[18..20] + [0, 0, 64, frame[23]]
  }

  function IpTail(frame: Bytes): (b: Bytes)
    requires |frame| >= 42
    ensures |b| == 8
  {
    MANAGEMENT_IP + frame[26..30]
  }

  function IpHeader(frame: Bytes, length: nat): (h: Bytes)
    requires |frame| >= 42 && length <= ONES
    ensures |h| == 20
  {
    var head, tail := IpHead(frame, length), IpTail(frame);
    head + Be16(Of(head + Be16(0) + tail)) + tail
  }

  function IpReply(frame: Bytes, transport: Bytes): (r: Bytes)
    requires |frame| >= 42 && 8 <= |transport| <= 1480
    ensures 60 <= |r| <= FRAME_SIZE
  {
    var body := frame[6..12] + MANAGEMENT_MAC + frame[12..14] + IpHeader(frame, 20 + |transport|) + transport;
    body + Zeros(if |body| < 60 then 60 - |body| else 0)
  }

  function Reply(frame: Bytes): (r: Option<Bytes>)
    requires FrameOk(frame)
    ensures r.Some? ==> 60 <= |r.value| <= FRAME_SIZE
  {
    if IsArp(frame) then if AsksArp(frame) then Some(ArpReply(frame)) else None
    else if !AsksIp(frame) then None
    else
      match Transport(frame)
      case None => None
      case Some(transport) => Some(IpReply(frame, transport))
  }

  // ---- What a requester can check ----------------------------------------------------------------------

  /** Every reply goes back to the asker from the management address. */
  lemma ReplyAddressed(frame: Bytes)
    requires FrameOk(frame) && Reply(frame).Some?
    ensures Reply(frame).value[..6] == frame[6..12] && Reply(frame).value[6..12] == MANAGEMENT_MAC
    ensures Reply(frame).value[12..14] == frame[12..14]
  {
    var r := Reply(frame).value;
    if IsArp(frame) {
      assert r[12..21] == frame[12..21];
      assert r[12..14] == r[12..21][..2] && frame[12..14] == frame[12..21][..2];
    }
  }

  /** An IPv4 reply's header verifies, names its own length and goes back to the source. */
  lemma IpReplyVerifies(frame: Bytes)
    requires FrameOk(frame) && !IsArp(frame) && Reply(frame).Some?
    ensures
      var r := Reply(frame).value;
      && Of(r[14..34]) == 0 && 14 + WordAt(r, 16) <= |r| && r[26..30] == MANAGEMENT_IP && r[30..34] == frame[26..30]
  {
    var t := Transport(frame).value;
    var r, h, n := Reply(frame).value, IpHeader(frame, 20 + |t|), 20 + |t|;
    InsertVerifies(IpHead(frame, n), IpTail(frame));
    IpReplyParts(frame, t);
    assert h[12..16] == MANAGEMENT_IP && h[16..20] == frame[26..30];
    assert r[26..30] == r[14..34][12..16] && r[30..34] == r[14..34][16..20];
    HeaderLength(frame, n);
    assert r[16] == r[14..34][2] && r[17] == r[14..34][3];
  }

  lemma HeaderLength(frame: Bytes, n: nat)
    requires |frame| >= 42 && n <= ONES
    ensures WordAt(IpHeader(frame, n), 2) == n
  {
    var h := IpHeader(frame, n);
    assert h[2] == Be16(n)[0] && h[3] == Be16(n)[1];
  }

  lemma IpReplyParts(frame: Bytes, t: Bytes)
    requires |frame| >= 42 && 8 <= |t| <= 1480
    ensures
      var r := IpReply(frame, t);
      r[14..34] == IpHeader(frame, 20 + |t|) && r[34..34 + |t|] == t && r[..6] == frame[6..12]
  {
  }

  /** An echo is answered with the same identifier, number and data, and the answer verifies. */
  lemma EchoVerifies(frame: Bytes)
    requires FrameOk(frame) && !IsArp(frame) && AsksIp(frame) && AsksEcho(frame)
    ensures Reply(frame).Some?
    ensures
      var r, n := Reply(frame).value, TotalLength(frame);
      14 + n <= |r| && Of(r[34..14 + n]) == 0 && r[34] == 0 && r[38..14 + n] == frame[38..14 + n]
  {
    var p := Payload(frame);
    var e, n := Echo(p), TotalLength(frame);
    InsertVerifies([0, p[1]], p[4..]);
    IpReplyParts(frame, e);
    var r := Reply(frame).value;
    assert r[34..14 + n] == e && r[34] == r[34..14 + n][0];
    assert e[4..] == p[4..] && r[38..14 + n] == r[34..14 + n][4..];
    assert p[4..] == frame[38..14 + n];
  }

  /** A UDP command with a checksum is answered only if pseudo-header and payload verify to zero. */
  lemma CommandVerified(frame: Bytes)
    requires FrameOk(frame) && AsksIp(frame) && Command(frame).Some? && WordAt(Payload(frame), 6) != 0
    ensures Of(PseudoHeader(frame[26..34], |Payload(frame)|) + Payload(frame)) == 0
  {
    SplitTestExact(frame[26..34], Payload(frame));
  }

  // ---- Into a slot -------------------------------------------------------------------------------------

  function Over(b: Bytes, at: nat, data: Bytes): (r: Bytes)
    requires at + |data| <= |b|
    ensures |r| == |b|
  {
    b[..at] + data + b[at + |data|..]
  }

  method Put(out: array<byte>, at: nat, data: Bytes)
    requires at + |data| <= out.Length
    modifies out
    ensures out[..] == Over(old(out[..]), at, data)
  {
    ghost var before := out[..];
    for i := 0 to |data|
      invariant forall j: nat :: j < out.Length ==> out[j] == if at <= j < at + i then data[j - at] else before[j]
    {
      out[at + i] := data[i];
    }
    assert out[..] == Over(before, at, data);
  }

  lemma OverMiddle(a: Bytes, x: Bytes, c: Bytes, at: nat, data: Bytes)
    requires at + |data| <= |x|
    ensures Over(a + x + c, |a| + at, data) == a + Over(x, at, data) + c
  {
  }

  /** A write inside the part `x` of the slot. */
  method PutIn(out: array<byte>, ghost a: Bytes, ghost x: Bytes, ghost c: Bytes, base: nat, at: nat, data: Bytes)
    requires out[..] == a + x + c && base == |a| && at + |data| <= |x|
    modifies out
    ensures out[..] == a + Over(x, at, data) + c
  {
    OverMiddle(a, x, c, at, data);
    Put(out, base + at, data);
  }

  lemma ArpFields(h: Bytes, frame: Bytes)
    requires |h| == 60 && |frame| >= 42
    ensures
      Over(Over(Over(Over(Over(Over(Over(Over(h, 0, frame[6..12]), 6, MANAGEMENT_MAC), 12, frame[12..22]), 21, [2]),
           22, MANAGEMENT_MAC), 28, MANAGEMENT_IP), 32, frame[22..32]), 42, Zeros(18))
      == frame[6..12] + MANAGEMENT_MAC + frame[12..21] + [2] + MANAGEMENT_MAC + MANAGEMENT_IP + frame[22..32]
         + Zeros(18)
  {
    var a := Over(h, 0, frame[6..12]);
    assert a == frame[6..12] + h[6..];
    var b := Over(a, 6, MANAGEMENT_MAC);
    assert b == frame[6..12] + MANAGEMENT_MAC + h[12..];
    var c := Over(b, 12, frame[12..22]);
    assert c == frame[6..12] + MANAGEMENT_MAC + frame[12..22] + h[22..];
    var d := Over(c, 21, [2]);
    assert d == frame[6..12] + MANAGEMENT_MAC + frame[12..21] + [2] + h[22..];
    var e := Over(d, 22, MANAGEMENT_MAC);
    assert e == frame[6..12] + MANAGEMENT_MAC + frame[12..21] + [2] + MANAGEMENT_MAC + h[28..];
    var f := Over(e, 28, MANAGEMENT_IP);
    assert f == frame[6..12] + MANAGEMENT_MAC + frame[12..21] + [2] + MANAGEMENT_MAC + MANAGEMENT_IP + h[32..];
    var g := Over(f, 32, frame[22..32]);
    assert g
        == frame[6..12] + MANAGEMENT_MAC + frame[12..21] + [2] + MANAGEMENT_MAC + MANAGEMENT_IP + frame[22..32]
           + h[42..];
  }

  /** Whatever the slot held before, the ARP reply fills its first sixty bytes. */
  method WriteArp(frame: Bytes, out: array<byte>)
    requires FrameOk(frame) && AsksArp(frame) && out.Length == FRAME_SIZE
    modifies out
    ensures out[..60] == ArpReply(frame)
  {
    ghost var x, c := out[..60], out[60..];
    ghost var h := x;
    assert out[..] == [] + x + c;
    PutIn(out, [], x, c, 0, 0, frame[6..12]);
    x := Over(x, 0, frame[6..12]);
    PutIn(out, [], x, c, 0, 6, MANAGEMENT_MAC);
    x := Over(x, 6, MANAGEMENT_MAC);
    PutIn(out, [], x, c, 0, 12, frame[12..22]);
    x := Over(x, 12, frame[12..22]);
    PutIn(out, [], x, c, 0, 21, [2]);
    x := Over(x, 21, [2]);
    PutIn(out, [], x, c, 0, 22, MANAGEMENT_MAC);
    x := Over(x, 22, MANAGEMENT_MAC);
    PutIn(out, [], x, c, 0, 28, MANAGEMENT_IP);
    x := Over(x, 28, MANAGEMENT_IP);
    PutIn(out, [], x, c, 0, 32, frame[22..32]);
    x := Over(x, 32, frame[22..32]);
    PutIn(out, [], x, c, 0, 42, Zeros(18));
    ArpFields(h, frame);
    assert out[..60] == out[..][..60];
  }

  lemma EchoFields(x: Bytes, p: Bytes, sum: nat)
    requires |x| == |p| >= 8 && sum <= ONES
    ensures
      var zeroed := Over(Over(Over(x, 0, p), 0, [0]), 2, [0, 0]);
      zeroed == [0, p[1]] + Be16(0) + p[4..] && Over(zeroed, 2, Be16(sum)) == [0, p[1]] + Be16(sum) + p[4..]
  {
    var a := Over(x, 0, p);
    assert a == p;
    var b := Over(a, 0, [0]);
    assert b == [0] + p[1..];
    var c := Over(b, 2, [0, 0]);
    assert Be16(0) == [0, 0];
    assert c == [0, p[1]] + Be16(0) + p[4..];
  }

  method WriteEcho(p: Bytes, out: array<byte>)
    requires 8 <= |p| <= 1480 && out.Length == FRAME_SIZE
    modifies out
    ensures out[..] == old(out[..34]) + Echo(p) + old(out[34 + |p|..])
  {
    ghost var a, x, c := out[..34], out[34..34 + |p|], out[34 + |p|..];
    ghost var h := x;
    assert out[..] == a + x + c;
    PutIn(out, a, x, c, 34, 0, p);
    x := Over(x, 0, p);
    PutIn(out, a, x, c, 34, 0, [0]);
    x := Over(x, 0, [0]);
    PutIn(out, a, x, c, 34, 2, [0, 0]);
    x := Over(x, 2, [0, 0]);
    assert out[34..34 + |p|] == out[..][34..34 + |p|] == x;
    var sum := Compute(out[34..34 + |p|]);
    EchoFields(h, p, sum);
    PutIn(out, a, x, c, 34, 2, Be16(sum));
  }

  lemma UdpFields(x: Bytes, p: Bytes, answer: Bytes)
    requires |x| == 8 + |answer| && |p| >= 8 && |answer| <= 64
    ensures
      Over(Over(Over(Over(Over(x, 0, Be16(MANAGEMENT_PORT)), 2, p[..2]), 4, Be16(8 + |answer|)), 6, [0, 0]), 8, answer)
      == Udp(p, answer)
  {
    var a := Over(x, 0, Be16(MANAGEMENT_PORT));
    assert a == Be16(MANAGEMENT_PORT) + x[2..];
    var b := Over(a, 2, p[..2]);
    assert b == Be16(MANAGEMENT_PORT) + p[..2] + x[4..];
    var c := Over(b, 4, Be16(8 + |answer|));
    assert c == Be16(MANAGEMENT_PORT) + p[..2] + Be16(8 + |answer|) + x[6..];
    var d := Over(c, 6, [0, 0]);
    assert d == Be16(MANAGEMENT_PORT) + p[..2] + Be16(8 + |answer|) + [0, 0] + x[8..];
  }

  method WriteUdp(p: Bytes, answer: Bytes, out: array<byte>)
    requires |p| >= 8 && |answer| <= 64 && out.Length == FRAME_SIZE
    modifies out
    ensures out[..] == old(out[..34]) + Udp(p, answer) + old(out[42 + |answer|..])
  {
    ghost var n := 8 + |answer|;
    ghost var a, x, c := out[..34], out[34..34 + n], out[34 + n..];
    ghost var h := x;
    assert out[..] == a + x + c;
    PutIn(out, a, x, c, 34, 0, Be16(MANAGEMENT_PORT));
    x := Over(x, 0, Be16(MANAGEMENT_PORT));
    PutIn(out, a, x, c, 34, 2, p[..2]);
    x := Over(x, 2, p[..2]);
    PutIn(out, a, x, c, 34, 4, Be16(8 + |answer|));
    x := Over(x, 4, Be16(8 + |answer|));
    PutIn(out, a, x, c, 34, 6, [0, 0]);
    x := Over(x, 6, [0, 0]);
    PutIn(out, a, x, c, 34, 8, answer);
    UdpFields(h, p, answer);
  }

  /** The header with its checksum word still zero, field by field over the request's. */
  lemma HeaderFields(x: Bytes, frame: Bytes, n: nat, sum: nat)
    requires |x| == 34 && |frame| >= 42 && n <= ONES && sum <= ONES
    ensures
      var a := Over(Over(Over(x, 0, frame[6..12]), 6, MANAGEMENT_MAC), 12, frame[12..34]);
      var b := Over(Over(Over(Over(a, 16, Be16(n)), 20, [0, 0]), 22, [64]), 24, [0, 0]);
      var c := Over(Over(b, 26, MANAGEMENT_IP), 30, frame[26..30]);
      var ether := frame[6..12] + MANAGEMENT_MAC + frame[12..14];
      && c == ether + (IpHead(frame, n) + Be16(0) + IpTail(frame))
      && Over(c, 24, Be16(sum)) == ether + (IpHead(frame, n) + Be16(sum) + IpTail(frame))
  {
    var ether := frame[6..12] + MANAGEMENT_MAC + frame[12..14];
    var a := Over(Over(Over(x, 0, frame[6..12]), 6, MANAGEMENT_MAC), 12, frame[12..34]);
    assert a == frame[6..12] + MANAGEMENT_MAC + frame[12..34];
    var b1 := Over(a, 16, Be16(n));
    assert b1 == ether + frame[14..16] + Be16(n) + frame[18..34];
    var b2 := Over(b1, 20, [0, 0]);
    assert b2 == ether + frame[14..16] + Be16(n) + frame[18..20] + [0, 0] + frame[22..34];
    HeaderTail(x, frame, n, sum, b2);
  }

  lemma HeaderTail(x: Bytes, frame: Bytes, n: nat, sum: nat, b2: Bytes)
    requires |frame| >= 42 && n <= ONES && sum <= ONES
    requires
      b2 == frame[6..12] + MANAGEMENT_MAC + frame[12..14] + frame[14..16] + Be16(n) + frame[18..20] + [0, 0]
            + frame[22..34]
    ensures |b2| == 34
    ensures
      var c := Over(Over(Over(Over(b2, 22, [64]), 24, [0, 0]), 26, MANAGEMENT_IP), 30, frame[26..30]);
      var ether := frame[6..12] + MANAGEMENT_MAC + frame[12..14];
      && c == ether + (IpHead(frame, n) + Be16(0) + IpTail(frame))
      && Over(c, 24, Be16(sum)) == ether + (IpHead(frame, n) + Be16(sum) + IpTail(frame))
  {
    var ether := frame[6..12] + MANAGEMENT_MAC + frame[12..14];
    var start := ether + frame[14..16] + Be16(n) + frame[18..20] + [0, 0];
    var b3 := Over(b2, 22, [64]);
    assert b3 == start + [64] + frame[23..34];
    var b4 := Over(b3, 24, [0, 0]);
    assert b4 == start + [64, frame[23]] + [0, 0] + frame[26..34];
    var c1 := Over(b4, 26, MANAGEMENT_IP);
    assert c1 == start + [64, frame[23]] + [0, 0] + MANAGEMENT_IP + frame[30..34];
    var c := Over(c1, 30, frame[26..30]);
    assert Be16(0) == [0, 0];
    assert start + [64, frame[23]] == ether + IpHead(frame, n);
    assert c == ether + (IpHead(frame, n) + Be16(0) + IpTail(frame));
  }

  /** Ethernet and IPv4 headers over whatever the first 34 bytes held. */
  method WriteHeader(frame: Bytes, n: nat, out: array<byte>)
    requires |frame| >= 42 && n <= ONES && out.Length == FRAME_SIZE
    modifies out
    ensures out[..] == frame[6..12] + MANAGEMENT_MAC + frame[12..14] + IpHeader(frame, n) + old(out[34..])
  {
    ghost var x, c := out[..34], out[34..];
    ghost var h, ether := x, frame[6..12] + MANAGEMENT_MAC + frame[12..14];
    assert out[..] == [] + x + c;
    PutIn(out, [], x, c, 0, 0, frame[6..12]);
    x := Over(x, 0, frame[6..12]);
    PutIn(out, [], x, c, 0, 6, MANAGEMENT_MAC);
    x := Over(x, 6, MANAGEMENT_MAC);
    PutIn(out, [], x, c, 0, 12, frame[12..34]);
    x := Over(x, 12, frame[12..34]);
    PutIn(out, [], x, c, 0, 16, Be16(n));
    x := Over(x, 16, Be16(n));
    PutIn(out, [], x, c, 0, 20, [0, 0]);
    x := Over(x, 20, [0, 0]);
    PutIn(out, [], x, c, 0, 22, [64]);
    x := Over(x, 22, [64]);
    PutIn(out, [], x, c, 0, 24, [0, 0]);
    x := Over(x, 24, [0, 0]);
    PutIn(out, [], x, c, 0, 26, MANAGEMENT_IP);
    x := Over(x, 26, MANAGEMENT_IP);
    PutIn(out, [], x, c, 0, 30, frame[26..30]);
    x := Over(x, 30, frame[26..30]);
    HeaderFields(h, frame, n, 0);
    var sum := SumHeader(out, ether, IpHead(frame, n) + Be16(0) + IpTail(frame), c);
    HeaderFields(h, frame, n, sum);
    PutIn(out, [], x, c, 0, 24, Be16(sum));
    assert [] + (ether + IpHeader(frame, n)) + c == ether + IpHeader(frame, n) + c;
  }

  method SumHeader(out: array<byte>, ghost ether: Bytes, ghost header: Bytes, ghost c: Bytes) returns (sum: nat)
    requires out[..] == [] + (ether + header) + c && |ether| == 14 && |header| == 20
    ensures sum == Of(header)
  {
    assert out[14..34] == out[..][14..34] == header;
    sum := Compute(out[14..34]);
  }

  /** The transport part from byte 34 on; 0 if the request is not one to answer. */
  method WriteTransport(frame: Bytes, out: array<byte>) returns (length: nat)
    requires FrameOk(frame) && AsksIp(frame) && out.Length == FRAME_SIZE
    modifies out
    ensures Transport(frame).None? ==> length == 0
    ensures Transport(frame).Some? ==>
              var t := Transport(frame).value;
              length == 20 + |t| && out[34..34 + |t|] == t
  {
    var p := frame[34..14 + TotalLength(frame)];
    if frame[23] == 1 {
      if p[..2] != [8, 0] { return 0; }
      var sum := Compute(p);
      if sum != 0 { return 0; }
      WriteEcho(p, out);
      assert out[34..34 + |p|] == out[..][34..34 + |p|];
      return 20 + |p|;
    }
    var answer := ReadCommand(frame, p);
    if answer == [] { return 0; }
    WriteUdp(p, answer, out);
    assert out[34..42 + |answer|] == out[..][34..42 + |answer|];
    return 28 + |answer|;
  }

  /** The answer to the command in a datagram, or nothing. */
  method ReadCommand(frame: Bytes, p: Bytes) returns (answer: Bytes)
    requires FrameOk(frame) && AsksIp(frame) && p == Payload(frame)
    ensures answer == match Command(frame) case None => [] case Some(a) => a
  {
    if frame[23] != 17 || WordAt(p, 2) != MANAGEMENT_PORT || WordAt(p, 4) != |p| { return []; }
    if WordAt(p, 6) != 0 {
      var addresses := Compute(frame[26..34]);
      var payload := Compute(p);
      var sum := Carry(ONES - addresses + 17 + |p| + (ONES - payload));
      if sum != ONES { return []; }
    }
    return if p[8..] == PING || p[8..] == PING + [10] then PONG
           else if p[8..] == STATUS || p[8..] == STATUS + [10] then REPORT else [];
  }

  method Pad(out: array<byte>, from: nat) returns (end: nat)
    requires from <= out.Length == FRAME_SIZE
    modifies out
    ensures end == (if from < 60 then 60 else from) && out[..from] == old(out[..from])
    ensures out[from..end] == Zeros(end - from)
  {
    end := if from < 60 then 60 else from;
    ghost var before := out[..];
    Put(out, from, Zeros(end - from));
    assert out[..from] == out[..][..from] == before[..from];
    assert out[from..end] == out[..][from..end];
  }

  /**
   The reply to `frame` at the front of a slot, or 0. What is there depends on the request alone, not
   on the frames the slot held before.
   */
  method Manage(frame: Bytes, out: array<byte>) returns (length: nat)
    requires FrameOk(frame) && out.Length == FRAME_SIZE
    modifies out
    ensures length == match Reply(frame) case None => 0 case Some(r) => |r|
    ensures Reply(frame).Some? ==> out[..length] == Reply(frame).value
  {
    if frame[12..14] == [8, 6] {
      if !AsksArp(frame) { return 0; }
      WriteArp(frame, out);
      return 60;
    }
    if !AsksIp(frame) { return 0; }
    var n := WriteTransport(frame, out);
    if n == 0 { return 0; }
    length := FinishIp(frame, n, out, Transport(frame).value);
  }

  /** The headers before a transport part and the padding after it. */
  method FinishIp(frame: Bytes, n: nat, out: array<byte>, ghost t: Bytes) returns (length: nat)
    requires |frame| >= 42 && out.Length == FRAME_SIZE && 8 <= |t| <= 1480 && n == 20 + |t|
    requires out[34..34 + |t|] == t
    modifies out
    ensures length == |IpReply(frame, t)| && out[..length] == IpReply(frame, t)
  {
    WriteHeader(frame, n, out);
    ghost var head := frame[6..12] + MANAGEMENT_MAC + frame[12..14] + IpHeader(frame, n);
    assert out[..14 + n] == head + t;
    length := Pad(out, 14 + n);
    assert out[..length] == out[..14 + n] + out[14 + n..length];
  }
}
