/**
 The bundle upload protocol: wire format, descriptors and the state machine that answers one
 message at a time. `Handle` is one request; guest memory is a function from addresses to bytes.
 */
module Loader {
  import opened Types
  import Crc

  const MAGIC: seq<byte> := [83, 87, 86, 76]
  const VERSION := 2
  const HEADER_SIZE := 32
  const MAX_BODY_SIZE := 4064
  const BUNDLE_DESCRIPTOR_SIZE := 80
  const IMAGE_DESCRIPTOR_SIZE := 32
  const MAX_IMAGES := 16
  const REPLY_FLAG := 0x8000
  const GUEST_RAM_BASE := 0x8000_0000
  const GUEST_RAM_END := 0xfec0_0000
  const STACK_TOP := 0x8a80_0000
  const BOOT_STACK_SIZE := 0x1_0000
  const FRAMEBUFFER_BASE := 0xf5a0_0000
  const FRAMEBUFFER_SIZE := 0x40_0000

  // ---- Little-endian words ------------------------------------------------------------

  function Le32(v: nat): (b: seq<byte>)
    ensures |b| == 4
  {
    Le16(v % 65536) + Le16(v / 65536 % 65536)
  }

  function Le64(v: nat): (b: seq<byte>)
    ensures |b| == 8
  {
    Le32(v % 0x1_0000_0000) + Le32(v / 0x1_0000_0000 % 0x1_0000_0000)
  }

  function U16(b: seq<byte>, at: nat): (v: nat)
    requires at + 2 <= |b|
    ensures v < 65536
  {
    b[at] as nat + 256 * b[at + 1] as nat
  }

  function U32(b: seq<byte>, at: nat): (v: nat)
    requires at + 4 <= |b|
    ensures v < 0x1_0000_0000
  {
    U16(b, at) + 65536 * U16(b, at + 2)
  }

  function U64(b: seq<byte>, at: nat): (v: nat)
    requires at + 8 <= |b|
    ensures v < U64_LIMIT
  {
    U32(b, at) + 0x1_0000_0000 * U32(b, at + 4)
  }

  // ---- Messages ---------------------------------------------------------------------------

  datatype Opcode = Hello | BeginBundle | BeginImage | Data | EndImage | CommitBundle | Abort | Boot | Status

  function OpcodeNumber(op: Opcode): nat {
    match op
    case Hello => 1
    case BeginBundle => 2
    case BeginImage => 3
    case Data => 4
    case EndImage => 5
    case CommitBundle => 6
    case Abort => 7
    case Boot => 8
    case Status => 9
  }

  function DecodeOpcode(v: nat): (op: Option<Opcode>)
    ensures op.Some? ==> OpcodeNumber(op.value) == v
    ensures 1 <= v <= 9 <==> op.Some?
  {
    if v == 1 then Some(Hello) else if v == 2 then Some(BeginBundle) else if v == 3 then Some(BeginImage)
    else if v == 4 then Some(Data) else if v == 5 then Some(EndImage) else if v == 6 then Some(CommitBundle)
    else if v == 7 then Some(Abort) else if v == 8 then Some(Boot) else if v == 9 then Some(Status) else None
  }

  datatype StatusCode =
    | Ok0 | UnknownOpcode | BadLength | BadState | InvalidDescriptor | BadOffset
    | Checksum | StorageFault | GuestRunning | ImageCount | Overlap | EntryPoint

  datatype ProtocolError = Truncated | Magic | Version | Length | Reply

  datatype Header = Header(opcode: nat, requestId: nat, length: nat, arg0: nat, arg1: nat) {
    predicate Fits() {
      opcode < 65536 && requestId < 0x1_0000_0000 && length < 0x1_0000_0000 && arg0 < U64_LIMIT && arg1 < U64_LIMIT
    }
  }

  function EncodeHeader(h: Header): (b: seq<byte>)
    ensures |b| == HEADER_SIZE
  {
    MAGIC + Le16(VERSION) + Le16(h.opcode) + Le32(h.requestId) + Le32(h.length) + Le64(h.arg0) + Le64(h.arg1)
  }

  function DecodeHeader(b: seq<byte>): (r: Result<Header, ProtocolError>)
    ensures r.Ok? ==> r.value.Fits() && |b| == HEADER_SIZE + r.value.length
  {
    if |b| < HEADER_SIZE then Err(Truncated)
    else if b[..4] != MAGIC then Err(Magic)
    else if U16(b, 4) != VERSION then Err(Version)
    else
      var h := Header(U16(b, 6), U32(b, 8), U32(b, 12), U64(b, 16), U64(b, 24));
      if h.length > MAX_BODY_SIZE || |b| != HEADER_SIZE + h.length then Err(Length) else Ok(h)
  }

  // ---- Descriptors --------------------------------------------------------------------------

  predicate RangesMeet(a: nat, aSize: nat, b: nat, bSize: nat) { a < b + bSize && b < a + aSize }

  /** A nonempty range in guest RAM that avoids the boot stack and the framebuffer. */
  predicate GuestRange(address: nat, size: nat) {
    && size != 0 && address + size < U64_LIMIT
    && GUEST_RAM_BASE <= address && address + size <= GUEST_RAM_END
    && !RangesMeet(address, size, STACK_TOP - BOOT_STACK_SIZE, BOOT_STACK_SIZE)
    && !RangesMeet(address, size, FRAMEBUFFER_BASE, FRAMEBUFFER_SIZE)
  }

  datatype BundleDescriptor = BundleDescriptor(entry: nat, imageCount: nat, flags: nat, registers: seq<nat>) {
    predicate Fits() {
      && entry < U64_LIMIT && imageCount < 0x1_0000_0000 && flags < 0x1_0000_0000
      && |registers| == 8 && forall i: nat :: i < 8 ==> registers[i] < U64_LIMIT
    }

    predicate Valid() {
      && 1 <= imageCount <= MAX_IMAGES && entry % 4 == 0 && GuestRange(entry, 4) && flags <= 1
      && (flags == 1 ==> forall i: nat :: i < |registers| ==> registers[i] == 0)
    }
  }

  datatype ImageDescriptor = ImageDescriptor(address: nat, fileSize: nat, runtimeSize: nat, crc32: nat, flags: nat) {
    predicate Fits() {
      && address < U64_LIMIT && fileSize < U64_LIMIT && runtimeSize < U64_LIMIT
      && crc32 < 0x1_0000_0000 && flags < 0x1_0000_0000
    }

    predicate Valid() {
      fileSize != 0 && runtimeSize >= fileSize && flags == 0 && GuestRange(address, runtimeSize)
    }

    predicate ContainsEntry(entry: nat) {
      entry % 4 == 0 && address <= entry && entry + 4 <= address + fileSize
    }

    predicate Overlaps(other: ImageDescriptor) {
      RangesMeet(address, runtimeSize, other.address, other.runtimeSize)
    }
  }

  function Le64s(vs: seq<nat>): (b: seq<byte>)
    ensures |b| == 8 * |vs|
  {
    if vs == [] then [] else Le64s(vs[..|vs| - 1]) + Le64(vs[|vs| - 1])
  }

  function EncodeBundle(d: BundleDescriptor): (b: seq<byte>)
    ensures |b| == 16 + 8 * |d.registers|
  {
    Le64(d.entry) + Le32(d.imageCount) + Le32(d.flags) + Le64s(d.registers)
  }

  function DecodeBundle(b: seq<byte>): (d: Option<BundleDescriptor>)
    ensures d.Some? ==> d.value.Valid() && d.value.Fits()
  {
    if |b| != BUNDLE_DESCRIPTOR_SIZE then None
    else
      var d := BundleDescriptor(U64(b, 0), U32(b, 8), U32(b, 12),
        seq(8, i requires 0 <= i < 8 => U64(b, 16 + 8 * i)));
      if d.Valid() then Some(d) else None
  }

  function EncodeImage(d: ImageDescriptor): (b: seq<byte>)
    ensures |b| == IMAGE_DESCRIPTOR_SIZE
  {
    Le64(d.address) + Le64(d.fileSize) + Le64(d.runtimeSize) + Le32(d.crc32) + Le32(d.flags)
  }

  function DecodeImage(b: seq<byte>): (d: Option<ImageDescriptor>)
    ensures d.Some? ==> d.value.Valid() && d.value.Fits()
  {
    if |b| != IMAGE_DESCRIPTOR_SIZE then None
    else
      var d := ImageDescriptor(U64(b, 0), U64(b, 8), U64(b, 16), U32(b, 24), U32(b, 28));
      if d.Valid() then Some(d) else None
  }

  // ---- Guest memory -----------------------------------------------------------------------

  type Memory = nat -> byte

  /** A store of `bytes` at `address`; when it fails, the range is left as `fault` says. */
  function Store(m: Memory, address: nat, bytes: seq<byte>, fault: Option<Memory>): Memory {
    (a: nat) =>
      if address <= a < address + |bytes| then
        match fault case None => bytes[a - address] case Some(left) => left(a)
      else m(a)
  }

  // ---- The state machine ----------------------------------------------------------------------

  datatype Phase = Idle | Bundle | Receiving | Ready | Disabled

  function PhaseNumber(p: Phase): nat {
    match p
    case Idle => 0
    case Bundle => 1
    case Receiving => 2
    case Ready => 3
    case Disabled => 4
  }

  /** The loader between messages: `received` and `crc` describe the image being received. */
  datatype State = State(
    phase: Phase,
    bundle: Option<BundleDescriptor>,
    images: seq<ImageDescriptor>,
    current: Option<ImageDescriptor>,
    received: nat,
    crc: bv32,
    claimed: bool)

  function Octets(bytes: seq<byte>): (o: seq<Crc.Octet>)
    ensures |o| == |bytes|
  {
    seq(|bytes|, i requires 0 <= i < |bytes| => bytes[i] as bv8)
  }

  function Feed(crc: bv32, bytes: seq<byte>): bv32 { Crc.Fold(crc, Octets(bytes)) }

  function Finish(crc: bv32): nat { (!crc) as nat }

  function ChecksumOf(bytes: seq<byte>): nat { Finish(Feed(Crc.START, bytes)) }

  datatype Action = NoAction | BootGuest(bundle: BundleDescriptor)

  datatype Response = Response(header: Header, body: seq<byte>)

  datatype Outcome = Outcome(state: State, memory: Memory, response: Response, action: Action)

  function Clear(s: State, phase: Phase): State {
    State(phase, None, [], None, 0, Crc.START, s.claimed)
  }

  function CodeNumber(c: StatusCode): nat {
    match c
    case Ok0 => 0
    case UnknownOpcode => 1
    case BadLength => 2
    case BadState => 3
    case InvalidDescriptor => 4
    case BadOffset => 5
    case Checksum => 6
    case StorageFault => 7
    case GuestRunning => 8
    case ImageCount => 9
    case Overlap => 10
    case EntryPoint => 11
  }

  function Answer(s: State, h: Header, code: StatusCode, body: seq<byte>): Response {
    Response(Header(if h.opcode < REPLY_FLAG then h.opcode + REPLY_FLAG else h.opcode, h.requestId, |body|,
                    CodeNumber(code), PhaseNumber(s.phase)), body)
  }

  function Say(s: State, m: Memory, h: Header, code: StatusCode): Outcome {
    Outcome(s, m, Answer(s, h, code, []), NoAction)
  }

  function HelloBody(): seq<byte> {
    Le64(GUEST_RAM_BASE) + Le64(GUEST_RAM_END) + Le32(MAX_BODY_SIZE) + Le32(BUNDLE_DESCRIPTOR_SIZE)
    + Le32(IMAGE_DESCRIPTOR_SIZE) + Le32(MAX_IMAGES)
  }

  function StatusBody(s: State): seq<byte> {
    Le32(PhaseNumber(s.phase)) + Le32(if s.claimed then 1 else 0) + Le64(s.received)
    + Le32(if s.bundle.Some? then s.bundle.value.imageCount else 0) + Le32(|s.images|)
    + (match s.current
       case Some(i) => Le64(i.address) + Le64(i.fileSize) + Le64(i.runtimeSize)
       case None => Zeros(24))
  }

  function BeginBundleStep(s: State, m: Memory, h: Header, body: seq<byte>): Outcome {
    if s.phase == Disabled then Say(s, m, h, GuestRunning)
    else if s.phase != Idle then Say(s, m, h, BadState)
    else if h.arg0 != 0 || h.arg1 != 0 then Say(s, m, h, BadLength)
    else
      match DecodeBundle(body)
      case None => Say(s, m, h, InvalidDescriptor)
      case Some(d) => Say(s.(bundle := Some(d), phase := Bundle, claimed := true), m, h, Ok0)
  }

  function BeginImageStep(s: State, m: Memory, h: Header, body: seq<byte>): Outcome {
    if s.phase != Bundle then Say(s, m, h, BadState)
    else if h.arg0 != 0 || h.arg1 != 0 then Say(s, m, h, BadLength)
    else if s.bundle.None? then Say(Clear(s, Idle), m, h, BadState)
    else if |s.images| >= s.bundle.value.imageCount then Say(s, m, h, ImageCount)
    else
      match DecodeImage(body)
      case None => Say(s, m, h, InvalidDescriptor)
      case Some(d) =>
        if exists i: nat :: i < |s.images| && d.Overlaps(s.images[i]) then Say(s, m, h, Overlap)
        else Say(s.(current := Some(d), received := 0, crc := Crc.START, phase := Receiving), m, h, Ok0)
  }

  function DataStep(s: State, m: Memory, h: Header, body: seq<byte>, fault: Option<Memory>): Outcome {
    if s.phase != Receiving then Say(s, m, h, BadState)
    else if s.current.None? then Say(Clear(s, Idle), m, h, BadState)
    else if body == [] then Say(s, m, h, BadLength)
    else
      var image := s.current.value;
      if h.arg0 != s.received || h.arg1 != 0 || s.received + |body| > image.fileSize then Say(s, m, h, BadOffset)
      else if image.address + s.received >= U64_LIMIT then Say(s, m, h, BadOffset)
      else
        var stored := Store(m, image.address + s.received, body, fault);
        if fault.Some? then Say(s, stored, h, StorageFault)
        else
          var next := s.(crc := Feed(s.crc, body), received := s.received + |body|);
          var answer := Answer(next, h, Ok0, []);
          Outcome(next, stored, answer.(header := answer.header.(arg1 := next.received)), NoAction)
  }

  function EndImageStep(s: State, m: Memory, h: Header, fault: Option<Memory>): Outcome {
    if s.phase != Receiving then Say(s, m, h, BadState)
    else if s.current.None? then Say(Clear(s, Idle), m, h, BadState)
    else
      var image := s.current.value;
      if s.received != image.fileSize then Say(s, m, h, BadLength)
      else if Finish(s.crc) != image.crc32 then Say(s, m, h, Checksum)
      else
        var size := image.runtimeSize - image.fileSize;
        var zeroed := if size > 0 then Store(m, image.address + image.fileSize, Zeros(size), fault) else m;
        if size > 0 && fault.Some? then Say(s, zeroed, h, StorageFault)
        else Say(s.(images := s.images + [image], current := None, received := 0, crc := Crc.START, phase := Bundle),
                 zeroed, h, Ok0)
  }

  function CommitStep(s: State, m: Memory, h: Header): Outcome {
    if s.phase != Bundle then Say(s, m, h, BadState)
    else if s.bundle.None? then Say(Clear(s, Idle), m, h, BadState)
    else if |s.images| != s.bundle.value.imageCount then Say(s, m, h, ImageCount)
    else if !exists i: nat :: i < |s.images| && s.images[i].ContainsEntry(s.bundle.value.entry)
    then Say(s, m, h, EntryPoint)
    else Say(s.(phase := Ready), m, h, Ok0)
  }

  function AbortStep(s: State, m: Memory, h: Header): Outcome {
    if s.phase == Idle || s.phase == Disabled then Say(s, m, h, BadState) else Say(Clear(s, Idle), m, h, Ok0)
  }

  function BootStep(s: State, m: Memory, h: Header): Outcome {
    if s.phase != Ready then Say(s, m, h, BadState)
    else if s.bundle.None? then Say(Clear(s, Idle), m, h, BadState)
    else
      var done := Clear(s, Disabled);
      Outcome(done, m, Answer(done, h, Ok0, []), BootGuest(s.bundle.value))
  }

  function Handle(s: State, m: Memory, message: seq<byte>, fault: Option<Memory>): Result<Outcome, ProtocolError> {
    match DecodeHeader(message)
    case Err(e) => Err(e)
    case Ok(h) => if h.opcode >= REPLY_FLAG then Err(Reply) else Ok(Dispatch(s, m, h, message[HEADER_SIZE..], fault))
  }

  function Dispatch(s: State, m: Memory, h: Header, body: seq<byte>, fault: Option<Memory>): Outcome {
    var empty := body == [] && h.arg0 == 0 && h.arg1 == 0;
    match DecodeOpcode(h.opcode)
    case None => Say(s, m, h, UnknownOpcode)
    case Some(BeginBundle) => BeginBundleStep(s, m, h, body)
    case Some(BeginImage) => BeginImageStep(s, m, h, body)
    case Some(Data) => DataStep(s, m, h, body, fault)
    case Some(op) =>
      if !empty then Say(s, m, h, BadLength)
      else
        match op
        case Hello => Outcome(s, m, Answer(s, h, Ok0, HelloBody()), NoAction)
        case Status => Outcome(s, m, Answer(s, h, Ok0, StatusBody(s)), NoAction)
        case EndImage => EndImageStep(s, m, h, fault)
        case CommitBundle => CommitStep(s, m, h)
        case Abort => AbortStep(s, m, h)
        case _ => BootStep(s, m, h)
  }

  function Initial(): State { State(Idle, None, [], None, 0, Crc.START, false) }
}
