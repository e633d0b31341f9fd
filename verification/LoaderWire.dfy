/** Where each field of the loader's messages lies, and the number each request is answered with. */
module LoaderWire {
  import opened Types
  import opened Loader
  import opened LoaderCodec
  import opened LoaderRuns
  import Crc

  // ---- Numbers ------------------------------------------------------------------------------

  /** Words are stored with the lowest byte first. */
  lemma WordBytes(b: seq<byte>, at: nat)
    requires at + 8 <= |b|
    ensures U16(b, at) == b[at] as nat + 0x100 * b[at + 1] as nat
    ensures U32(b, at)
         == b[at] as nat + 0x100 * b[at + 1] as nat + 0x1_0000 * b[at + 2] as nat + 0x100_0000 * b[at + 3] as nat
    ensures U64(b, at)
         == b[at] as nat + 0x100 * b[at + 1] as nat + 0x1_0000 * b[at + 2] as nat + 0x100_0000 * b[at + 3] as nat
            + 0x1_0000_0000 * (b[at + 4] as nat + 0x100 * b[at + 5] as nat + 0x1_0000 * b[at + 6] as nat
                               + 0x100_0000 * b[at + 7] as nat)
  {
  }

  /** The nine requests by number. */
  lemma Opcodes(v: nat)
    ensures
      DecodeOpcode(v)
      == var ops := [Hello, BeginBundle, BeginImage, Data, EndImage, CommitBundle, Abort, Boot, Status];
         if 1 <= v <= 9 then Some(ops[v - 1]) else None
  {
  }

  /** The checksum is CRC-32 with the usual check value. */
  lemma ChecksumChecks()
    ensures ChecksumOf([0x31, 0x32, 0x33, 0x34, 0x35, 0x36, 0x37, 0x38, 0x39]) == 0xcbf4_3926
  {
    Crc.CheckValue();
    var b: seq<byte> := [0x31, 0x32, 0x33, 0x34, 0x35, 0x36, 0x37, 0x38, 0x39];
    assert Octets(b) == [0x31, 0x32, 0x33, 0x34, 0x35, 0x36, 0x37, 0x38, 0x39];
  }

  // ---- Layouts ----------------------------------------------------------------------------------

  lemma HeaderLayout(h: Header, body: seq<byte>)
    requires h.Fits()
    ensures
      var b := EncodeHeader(h) + body;
      && |b| == 32 + |body| && b[..4] == Ascii("SWVL") && U16(b, 4) == 2 && U16(b, 6) == h.opcode
      && U32(b, 8) == h.requestId && U32(b, 12) == h.length && U64(b, 16) == h.arg0 && U64(b, 24) == h.arg1
      && b[32..] == body
  {
    var b := EncodeHeader(h) + body;
    HeaderParts(h, body);
    Reads16(b, 4, VERSION);
    Reads16(b, 6, h.opcode);
    Reads32(b, 8, h.requestId);
    Reads32(b, 12, h.length);
    Reads64(b, 16, h.arg0);
    Reads64(b, 24, h.arg1);
  }

  /** Which messages are read, and what is wrong with the others, the first fault first. */
  lemma HeaderExact(b: seq<byte>)
    ensures
      match DecodeHeader(b)
      case Ok(h) =>
        && |b| >= 32 && b[..4] == Ascii("SWVL") && U16(b, 4) == 2 && |b| - 32 == U32(b, 12) <= 4064
        && h == Header(U16(b, 6), U32(b, 8), U32(b, 12), U64(b, 16), U64(b, 24))
      case Err(e) =>
        && (e == Truncated <==> |b| < 32)
        && (e == Magic <==> |b| >= 32 && b[..4] != Ascii("SWVL"))
        && (e == Version <==> |b| >= 32 && b[..4] == Ascii("SWVL") && U16(b, 4) != 2)
        && (e == Length <==>
              && |b| >= 32 && b[..4] == Ascii("SWVL") && U16(b, 4) == 2
              && (U32(b, 12) > 4064 || |b| != 32 + U32(b, 12)))
        && e != Reply
  {
    assert Ascii("SWVL") == MAGIC;
  }

  lemma BundleLayout(d: BundleDescriptor, i: nat)
    requires d.Fits() && i < 8
    ensures
      var b := EncodeBundle(d);
      && |b| == 80 && U64(b, 0) == d.entry && U32(b, 8) == d.imageCount && U32(b, 12) == d.flags
      && U64(b, 16 + 8 * i) == d.registers[i]
  {
    BundleHeadReads(d);
    RegisterReads(d, i);
  }

  lemma ImageLayout(d: ImageDescriptor)
    requires d.Fits()
    ensures
      var b := EncodeImage(d);
      && |b| == 32 && U64(b, 0) == d.address && U64(b, 8) == d.fileSize && U64(b, 16) == d.runtimeSize
      && U32(b, 24) == d.crc32 && U32(b, 28) == d.flags
  {
    var b := EncodeImage(d);
    assert b[0..8] == Le64(d.address) && b[8..16] == Le64(d.fileSize) && b[16..24] == Le64(d.runtimeSize)
        && b[24..28] == Le32(d.crc32) && b[28..32] == Le32(d.flags);
    Reads64(b, 0, d.address);
    Reads64(b, 8, d.fileSize);
    Reads64(b, 16, d.runtimeSize);
    Reads32(b, 24, d.crc32);
    Reads32(b, 28, d.flags);
  }

  /** Hello states guest RAM, the longest body, the two descriptor sizes and the most images. */
  lemma HelloLayout()
    ensures
      var b := HelloBody();
      && |b| == 32 && U64(b, 0) == 0x8000_0000 && U64(b, 8) == 0xfec0_0000 && U32(b, 16) == 4064
      && U32(b, 20) == 80 && U32(b, 24) == 32 && U32(b, 28) == 16
  {
    var b := HelloBody();
    assert |Le64(0)| == 8;
    assert b[0..8] == Le64(GUEST_RAM_BASE) && b[8..16] == Le64(GUEST_RAM_END) && b[16..20] == Le32(MAX_BODY_SIZE)
        && b[20..24] == Le32(80) && b[24..28] == Le32(32) && b[28..32] == Le32(16);
    Reads64(b, 0, 0x8000_0000);
    Reads64(b, 8, 0xfec0_0000);
    Reads32(b, 16, 4064);
    Reads32(b, 20, 80);
    Reads32(b, 24, 32);
    Reads32(b, 28, 16);
  }

  function Number(p: Phase): nat {
    match p case Idle => 0 case Bundle => 1 case Receiving => 2 case Ready => 3 case Disabled => 4
  }

  /** Status states the phase by number, the claim, and how far the current image has come. */
  lemma StatusLayout(s: State)
    requires s.received < U64_LIMIT && (s.current.Some? ==> s.current.value.Fits())
    requires |s.images| < 0x1_0000_0000 && (s.bundle.Some? ==> s.bundle.value.Fits())
    ensures
      var b := StatusBody(s);
      && |b| == 48
      && U32(b, 0) == Number(s.phase)
      && U32(b, 4) == (if s.claimed then 1 else 0) && U64(b, 8) == s.received
      && U32(b, 16) == (if s.bundle.Some? then s.bundle.value.imageCount else 0) && U32(b, 20) == |s.images|
      && U64(b, 24) == (if s.current.Some? then s.current.value.address else 0)
      && U64(b, 32) == (if s.current.Some? then s.current.value.fileSize else 0)
      && U64(b, 40) == (if s.current.Some? then s.current.value.runtimeSize else 0)
  {
    var b := StatusBody(s);
    var count := if s.bundle.Some? then s.bundle.value.imageCount else 0;
    assert b[0..4] == Le32(PhaseNumber(s.phase)) && b[4..8] == Le32(if s.claimed then 1 else 0)
        && b[8..16] == Le64(s.received) && b[16..20] == Le32(count) && b[20..24] == Le32(|s.images|);
    Reads32(b, 0, PhaseNumber(s.phase));
    Reads32(b, 4, if s.claimed then 1 else 0);
    Reads64(b, 8, s.received);
    Reads32(b, 16, count);
    Reads32(b, 20, |s.images|);
    CurrentLayout(b, s.current);
  }

  lemma CurrentLayout(b: seq<byte>, current: Option<ImageDescriptor>)
    requires |b| == 48 && (current.Some? ==> current.value.Fits())
    requires
      b[24..] == match current
                 case Some(i) => Le64(i.address) + Le64(i.fileSize) + Le64(i.runtimeSize)
                 case None => Zeros(24)
    ensures U64(b, 24) == if current.Some? then current.value.address else 0
    ensures U64(b, 32) == if current.Some? then current.value.fileSize else 0
    ensures U64(b, 40) == if current.Some? then current.value.runtimeSize else 0
  {
    assert b[24..32] == b[24..][..8] && b[32..40] == b[24..][8..16] && b[40..48] == b[24..][16..];
    match current
    case Some(i) =>
      Reads64(b, 24, i.address);
      Reads64(b, 32, i.fileSize);
      Reads64(b, 40, i.runtimeSize);
    case None =>
      assert Le64(0) == Zeros(8);
      assert Zeros(24)[..8] == Zeros(8) && Zeros(24)[8..16] == Zeros(8) && Zeros(24)[16..] == Zeros(8);
      Reads64(b, 24, 0);
      Reads64(b, 32, 0);
      Reads64(b, 40, 0);
  }

  // ---- Answers ----------------------------------------------------------------------------------

  /** The fault a request is answered with, by number: the first that applies, or 0. */
  function Verdict(s: State, h: Header, body: seq<byte>, fault: Option<Memory>): nat
    requires Shaped(s)
  {
    if h.opcode == 0 || h.opcode > 9 then 1
    else if h.opcode > 4 && (body != [] || h.arg0 != 0 || h.arg1 != 0) then 2
    else if h.opcode == 1 then if body != [] || h.arg0 != 0 || h.arg1 != 0 then 2 else 0
    else if h.opcode == 2 then BeginVerdict(s, h, DecodeBundle(body).Some?)
    else if h.opcode == 3 then ImageVerdict(s, h, DecodeImage(body))
    else if h.opcode == 4 then DataVerdict(s, h, |body|, fault.Some?)
    else if h.opcode == 5 then EndVerdict(s, fault.Some?)
    else if h.opcode == 6 then CommitVerdict(s)
    else if h.opcode == 7 then if s.phase in {Idle, Disabled} then 3 else 0
    else if h.opcode == 8 then if s.phase != Ready then 3 else 0
    else 0
  }

  function BeginVerdict(s: State, h: Header, sound: bool): nat {
    if s.phase == Disabled then 8 else if s.phase != Idle then 3
    else if h.arg0 != 0 || h.arg1 != 0 then 2
    else if !sound then 4 else 0
  }

  function ImageVerdict(s: State, h: Header, d: Option<ImageDescriptor>): nat
    requires Shaped(s)
  {
    if s.phase != Bundle then 3
    else if h.arg0 != 0 || h.arg1 != 0 then 2
    else if |s.images| == s.bundle.value.imageCount then 9
    else if d.None? then 4
    else if exists i: nat :: i < |s.images| && Crosses(d.value, s.images[i]) then 10 else 0
  }

  predicate Crosses(d: ImageDescriptor, other: ImageDescriptor) {
    d.address < other.address + other.runtimeSize && other.address < d.address + d.runtimeSize
  }

  function DataVerdict(s: State, h: Header, n: nat, broken: bool): nat
    requires Shaped(s)
  {
    if s.phase != Receiving then 3
    else if n == 0 then 2
    else if h.arg0 != s.received || h.arg1 != 0 || s.received + n > s.current.value.fileSize then 5
    else if broken then 7 else 0
  }

  function EndVerdict(s: State, broken: bool): nat
    requires Shaped(s)
  {
    if s.phase != Receiving then 3
    else if s.received < s.current.value.fileSize then 2
    else if (!s.crc) as nat != s.current.value.crc32 then 6
    else if broken && s.current.value.runtimeSize > s.current.value.fileSize then 7 else 0
  }

  function CommitVerdict(s: State): nat
    requires Shaped(s)
  {
    if s.phase != Bundle then 3
    else if |s.images| < s.bundle.value.imageCount then 9
    else if forall i: nat :: i < |s.images| ==> !Enters(s.images[i], s.bundle.value.entry) then 11 else 0
  }

  predicate Enters(d: ImageDescriptor, entry: nat) {
    entry % 4 == 0 && d.address <= entry && entry + 3 < d.address + d.fileSize
  }

  /**
   An answer under the request's own opcode with the top bit set, and the request's own number; it states
   the phase the loader is in now, but for a chunk stored, which states how far the image has come.
   */
  predicate Answers(h: Header, o: Outcome, code: nat) {
    var r := o.response.header;
    && r.arg0 == code && r.opcode == h.opcode + 0x8000 && r.requestId == h.requestId
    && r.length == |o.response.body|
    && r.arg1 == if h.opcode == 4 && code == 0 then o.state.received else Number(o.state.phase)
  }

  lemma BeginAnswered(s: State, m: Memory, h: Header, body: seq<byte>)
    requires h.opcode == 2
    ensures
      var o := BeginBundleStep(s, m, h, body);
      Answers(h, o, BeginVerdict(s, h, DecodeBundle(body).Some?)) && o.response.body == []
  {
  }

  lemma ImageAnswered(s: State, m: Memory, h: Header, body: seq<byte>)
    requires Shaped(s) && h.opcode == 3
    ensures
      var o := BeginImageStep(s, m, h, body);
      Answers(h, o, ImageVerdict(s, h, DecodeImage(body))) && o.response.body == []
  {
    var d := DecodeImage(body);
    if s.phase == Bundle && d.Some? {
      assert forall i: nat :: i < |s.images| ==> (d.value.Overlaps(s.images[i]) <==> Crosses(d.value, s.images[i]));
    }
  }

  lemma DataAnswered(s: State, m: Memory, h: Header, body: seq<byte>, fault: Option<Memory>)
    requires Shaped(s) && h.opcode == 4
    ensures
      var o := DataStep(s, m, h, body, fault);
      Answers(h, o, DataVerdict(s, h, |body|, fault.Some?)) && o.response.body == []
  {
  }

  lemma EndAnswered(s: State, m: Memory, h: Header, fault: Option<Memory>)
    requires Shaped(s) && h.opcode == 5
    ensures
      var o := EndImageStep(s, m, h, fault);
      Answers(h, o, EndVerdict(s, fault.Some?)) && o.response.body == []
  {
  }

  lemma CommitAnswered(s: State, m: Memory, h: Header)
    requires Shaped(s) && h.opcode == 6
    ensures
      var o := CommitStep(s, m, h);
      Answers(h, o, CommitVerdict(s)) && o.response.body == []
  {
    if s.phase == Bundle {
      var entry := s.bundle.value.entry;
      assert forall i: nat :: i < |s.images| ==> (s.images[i].ContainsEntry(entry) <==> Enters(s.images[i], entry));
    }
  }

  lemma EndingAnswered(s: State, m: Memory, h: Header)
    requires Shaped(s) && h.opcode in {7, 8}
    ensures
      var o := AbortStep(s, m, h);
      Answers(h, o, if s.phase in {Idle, Disabled} then 3 else 0) && o.response.body == []
    ensures
      var o := BootStep(s, m, h);
      Answers(h, o, if s.phase != Ready then 3 else 0) && o.response.body == []
  {
  }

  lemma ShortAnswered(s: State, m: Memory, h: Header, body: seq<byte>, fault: Option<Memory>)
    requires Shaped(s) && 5 <= h.opcode <= 8
    ensures
      var o := Dispatch(s, m, h, body, fault);
      Answers(h, o, Verdict(s, h, body, fault)) && o.response.body == []
  {
    Opcodes(h.opcode);
    if h.opcode == 5 { EndAnswered(s, m, h, fault); }
    else if h.opcode == 6 { CommitAnswered(s, m, h); }
    else { EndingAnswered(s, m, h); }
  }

  lemma LongAnswered(s: State, m: Memory, h: Header, body: seq<byte>, fault: Option<Memory>)
    requires Shaped(s) && 2 <= h.opcode <= 4
    ensures
      var o := Dispatch(s, m, h, body, fault);
      Answers(h, o, Verdict(s, h, body, fault)) && o.response.body == []
  {
    Opcodes(h.opcode);
    if h.opcode == 2 { BeginAnswered(s, m, h, body); }
    else if h.opcode == 3 { ImageAnswered(s, m, h, body); }
    else { DataAnswered(s, m, h, body, fault); }
  }

  /** The two requests with something to tell, and those nobody knows. */
  lemma PlainAnswered(s: State, m: Memory, h: Header, body: seq<byte>, fault: Option<Memory>)
    requires Shaped(s) && h.opcode < 0x8000 && !(2 <= h.opcode <= 8)
    ensures
      var o := Dispatch(s, m, h, body, fault);
      && Answers(h, o, Verdict(s, h, body, fault))
      && o.response.body == (if o.response.header.arg0 != 0 then []
                             else if h.opcode == 1 then HelloBody() else StatusBody(s))
  {
    Opcodes(h.opcode);
  }

  /** Every request is answered with its verdict, and a body only where one was asked for. */
  lemma AnswersExact(s: State, m: Memory, h: Header, body: seq<byte>, fault: Option<Memory>)
    requires Shaped(s) && h.opcode < 0x8000
    ensures
      var o := Dispatch(s, m, h, body, fault);
      && Answers(h, o, Verdict(s, h, body, fault))
      && o.response.body == (if h.opcode !in {1, 9} || o.response.header.arg0 != 0 then []
                    else if h.opcode == 1 then HelloBody() else StatusBody(s))
  {
    if 2 <= h.opcode <= 4 { LongAnswered(s, m, h, body, fault); }
    else if 5 <= h.opcode <= 8 { ShortAnswered(s, m, h, body, fault); }
    else { PlainAnswered(s, m, h, body, fault); }
  }
}
