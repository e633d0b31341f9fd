/**
 The host's half of the upload: checking a manifest, then sending it. Every request goes through the
 encoded bytes of both directions. A ghost world records the run, so what the host was told and what
 guest memory holds can be compared at the end.
 */
module LoaderUpload {
  import opened Types
  import opened L = Loader
  import opened LoaderCodec
  import opened LoaderRuns
  import LoaderService
  import Crc

  // ---- Preparing a bundle ---------------------------------------------------------------------

  datatype ManifestImage = ManifestImage(address: nat, runtimeSize: Option<nat>, data: seq<byte>) {
    predicate Fits() {
      address < U64_LIMIT && |data| < U64_LIMIT && (runtimeSize.Some? ==> runtimeSize.value < U64_LIMIT)
    }

    function Described(): ImageDescriptor {
      ImageDescriptor(address, |data|, if runtimeSize.Some? then runtimeSize.value else |data|, ChecksumOf(data), 0)
    }

    function Prepared(): Image { Image(Described(), data) }
  }

  datatype Manifest = Manifest(
    version: nat, entry: nat, preserve: Option<bool>, registers: Option<seq<nat>>, images: seq<ManifestImage>) {
    predicate Fits() {
      && entry < U64_LIMIT && (forall i: nat :: i < |images| ==> images[i].Fits())
      && (registers.Some? ==> forall i: nat :: i < |registers.value| ==> registers.value[i] < U64_LIMIT)
    }
  }

  datatype Upload = Upload(descriptor: BundleDescriptor, images: seq<Image>)

  function PreparedImages(images: seq<ManifestImage>): (r: seq<Image>)
    ensures |r| == |images| && forall i: nat :: i < |images| ==> r[i] == images[i].Prepared()
  {
    seq(|images|, i requires 0 <= i < |images| => images[i].Prepared())
  }

  /** The register policy a manifest asks for, unless it contradicts itself. */
  function Policy(m: Manifest): Option<(nat, seq<nat>)> {
    match m.registers
    case None => Some((if m.preserve == Some(false) then 0 else 1, seq(8, _ => 0)))
    case Some(values) => if m.preserve == Some(true) || |values| != 8 then None else Some((0, values))
  }

  /** A bundle the loader has no reason to refuse. */
  ghost predicate Uploadable(b: Upload) {
    && b.descriptor.Valid() && b.descriptor.Fits() && b.descriptor.imageCount == |b.images|
    && (forall i: nat :: i < |b.images| ==> Sound(b.images[i])) && Apart(b.images)
    && exists i: nat :: i < |b.images| && b.images[i].descriptor.ContainsEntry(b.descriptor.entry)
  }

  ghost predicate Sound(image: Image) {
    && image.descriptor.Valid() && image.descriptor.Fits() && |image.data| == image.descriptor.fileSize
    && ChecksumOf(image.data) == image.descriptor.crc32
  }

  /** The bundle a manifest stands for. */
  function Meant(m: Manifest): Upload
    requires Policy(m).Some?
  {
    Upload(BundleDescriptor(m.entry, |m.images|, Policy(m).value.0, Policy(m).value.1), PreparedImages(m.images))
  }

  /**
   Eight registers are passed as given, unless boot arguments are to be kept; without registers boot
   arguments are kept unless the manifest says not to.
   */
  lemma MeantExact(m: Manifest)
    ensures Policy(m).None? <==> m.registers.Some? && (m.preserve == Some(true) || |m.registers.value| != 8)
    ensures
      Policy(m).Some? ==>
        Meant(m).descriptor
        == BundleDescriptor(m.entry, |m.images|, if m.registers.None? && m.preserve != Some(false) then 1 else 0,
                            if m.registers.None? then [0, 0, 0, 0, 0, 0, 0, 0] else m.registers.value)
  {
  }

  /** Each image is its file at its address, in memory as large as the manifest says or as the file. */
  lemma MeantImage(m: Manifest, i: nat)
    requires Policy(m).Some? && i < |m.images|
    ensures i < |Meant(m).images|
    ensures
      var from, image := m.images[i], Meant(m).images[i];
      && image.data == from.data && image.descriptor.address == from.address
      && image.descriptor.fileSize == |from.data| && image.descriptor.flags == 0
      && image.descriptor.runtimeSize == (match from.runtimeSize case Some(size) => size case None => |from.data|)
      && image.descriptor.crc32 == ChecksumOf(from.data)
  {
  }

  /** A file read piece by piece has the length and checksum of its contents. */
  method FileCrc(data: seq<byte>) returns (length: nat, crc: nat)
    ensures length == |data| && crc == ChecksumOf(data)
  {
    length := 0;
    var c := Crc.START;
    while length < |data|
      invariant length <= |data| && c == Feed(Crc.START, data[..length])
    {
      var count: nat :| 0 < count <= |data| - length;
      c := Crc.Update(c, Octets(data[length..length + count]));
      FeedAppend(Crc.START, data[..length], data[length..length + count]);
      assert data[..length] + data[length..length + count] == data[..length + count];
      length := length + count;
    }
    assert data[..length] == data;
    crc := Finish(c);
  }

  lemma DescribedFits(image: ManifestImage)
    requires image.Fits()
    ensures image.Described().Fits()
  {
  }

  method Prepare(image: ManifestImage, known: seq<Image>) returns (r: Option<Image>)
    ensures r.Some? <==>
              image.Described().Valid()
              && forall j: nat :: j < |known| ==> !image.Described().Overlaps(known[j].descriptor)
    ensures r.Some? ==> r.value == image.Prepared()
  {
    var length, crc := FileCrc(image.data);
    var size := if image.runtimeSize.Some? then image.runtimeSize.value else length;
    var d := ImageDescriptor(image.address, length, size, crc, 0);
    assert d == image.Described();
    if !d.Valid() { return None; }
    for j := 0 to |known|
      invariant forall i: nat :: i < j ==> !d.Overlaps(known[i].descriptor)
    {
      if d.Overlaps(known[j].descriptor) { return None; }
    }
    return Some(Image(d, image.data));
  }

  /** The images, if each is valid and apart from those before it. */
  method PrepareAll(images: seq<ManifestImage>) returns (r: Option<seq<Image>>)
    ensures r.Some? <==> AllValid(images) && Apart(PreparedImages(images))
    ensures r.Some? ==> r.value == PreparedImages(images)
  {
    ghost var all := PreparedImages(images);
    var known: seq<Image> := [];
    for i := 0 to |images|
      invariant known == all[..i] && Apart(known)
      invariant forall j: nat :: j < i ==> images[j].Described().Valid()
    {
      ghost var d := images[i].Described();
      assert all[i].descriptor == d && forall j: nat :: j < i ==> known[j] == all[j];
      var image := Prepare(images[i], known);
      if image.None? { return None; }
      known := known + [image.value];
    }
    assert known == all;
    return Some(known);
  }

  ghost predicate AllValid(images: seq<ManifestImage>) {
    forall i: nat :: i < |images| ==> images[i].Described().Valid()
  }

  lemma MeantUploadable(m: Manifest)
    requires m.Fits() && Policy(m).Some?
    ensures
      var b := Meant(m);
      Uploadable(b) <==>
      && b.descriptor.Valid() && AllValid(m.images) && Apart(b.images)
      && exists i: nat :: i < |b.images| && b.images[i].descriptor.ContainsEntry(m.entry)
  {
    var b := Meant(m);
    forall i: nat | i < |m.images| ensures Sound(b.images[i]) <==> m.images[i].Described().Valid() {
      DescribedFits(m.images[i]);
    }
  }

  /** A manifest is accepted exactly when the bundle it stands for is uploadable. */
  method FromManifest(m: Manifest) returns (r: Option<Upload>)
    requires m.Fits()
    ensures r.Some? <==> m.version == 1 && Policy(m).Some? && Uploadable(Meant(m))
    ensures r.Some? ==> r.value == Meant(m)
  {
    if Policy(m).Some? { MeantUploadable(m); }
    if m.version != 1 || m.images == [] || |m.images| > MAX_IMAGES { return None; }
    var images := PrepareAll(m.images);
    if images.None? { return None; }
    var policy := Policy(m);
    if policy.None? { return None; }
    var d := BundleDescriptor(m.entry, |m.images|, policy.value.0, policy.value.1);
    var found := Inside(images.value, m.entry);
    return if !d.Valid() || !found then None else Some(Upload(d, images.value));
  }

  method Inside(images: seq<Image>, entry: nat) returns (found: bool)
    ensures found <==> exists i: nat :: i < |images| && images[i].descriptor.ContainsEntry(entry)
  {
    for i := 0 to |images|
      invariant forall j: nat :: j < i ==> !images[j].descriptor.ContainsEntry(entry)
    {
      if images[i].descriptor.ContainsEntry(entry) { return true; }
    }
    return false;
  }

  // ---- Requests the loader accepts ----------------------------------------------------------------

  function Sent(op: Opcode, id: nat, arg0: nat, body: seq<byte>): Header {
    Header(OpcodeNumber(op), id, |body|, arg0, 0)
  }

  function Answered(w: World, h: Header, body: seq<byte>, fault: Option<Memory>): Outcome {
    Dispatch(w.state, w.memory, h, body, fault)
  }

  function After(w: World, h: Header, body: seq<byte>, fault: Option<Memory>): World {
    Settle(w, h, body, Answered(w, h, body, fault))
  }

  predicate Accepted(o: Outcome) { o.response.header.arg0 == CodeNumber(Ok0) }

  /** `k` images are in, and none is being sent. */
  ghost predicate Between(w: World, b: Upload, k: nat) {
    && k <= |b.images| && Inv(w) && w.launches == [] && w.state.phase == L.Bundle
    && w.ledger == Ledger(Some(b.descriptor), b.images[..k], None, [])
  }

  /** `n` bytes of image `k` are in. */
  ghost predicate Sending(w: World, b: Upload, k: nat, n: nat) {
    && k < |b.images| && n <= |b.images[k].data| && Inv(w) && w.launches == [] && w.state.phase == Receiving
    && w.ledger == Ledger(Some(b.descriptor), b.images[..k], Some(b.images[k].descriptor), b.images[k].data[..n])
  }

  lemma OpenAccepted(w: World, b: Upload, id: nat)
    requires Inv(w) && w.state.phase == Idle && w.launches == [] && Uploadable(b)
    ensures
      var body := EncodeBundle(b.descriptor);
      var h := Sent(BeginBundle, id, 0, body);
      Accepted(Answered(w, h, body, None)) && Between(After(w, h, body, None), b, 0)
  {
    var body := EncodeBundle(b.descriptor);
    var h := Sent(BeginBundle, id, 0, body);
    BundleRoundTrip(b.descriptor);
    DispatchKeeps(w, h, body, None);
  }

  lemma BeginAccepted(w: World, b: Upload, k: nat, id: nat)
    requires Between(w, b, k) && Uploadable(b) && k < |b.images|
    ensures
      var body := EncodeImage(b.images[k].descriptor);
      var h := Sent(BeginImage, id, 0, body);
      Accepted(Answered(w, h, body, None)) && Sending(After(w, h, body, None), b, k, 0)
  {
    var d := b.images[k].descriptor;
    var body := EncodeImage(d);
    var h := Sent(BeginImage, id, 0, body);
    assert Sound(b.images[k]);
    ImageRoundTrip(d);
    DispatchKeeps(w, h, body, None);
    forall i: nat | i < k ensures !d.Overlaps(w.state.images[i]) {
      assert w.state.images[i] == b.images[..k][i].descriptor;
    }
  }

  lemma ChunkAccepted(w: World, b: Upload, k: nat, n: nat, count: nat, id: nat)
    requires Sending(w, b, k, n) && Uploadable(b) && 0 < count && n + count <= |b.images[k].data|
    ensures
      var body := b.images[k].data[n..n + count];
      var h := Sent(Data, id, n, body);
      && Accepted(Answered(w, h, body, None)) && Sending(After(w, h, body, None), b, k, n + count)
      && Answered(w, h, body, None).response.header.arg1 == n + count
  {
    var data := b.images[k].data;
    var body := data[n..n + count];
    assert Sound(b.images[k]);
    assert data[..n] + body == data[..n + count];
    DispatchKeeps(w, Sent(Data, id, n, body), body, None);
  }

  lemma EndSays(w: World, b: Upload, k: nat)
    requires k < |b.images| && Sending(w, b, k, |b.images[k].data|) && Uploadable(b)
    ensures TakesEnd(w.state)
  {
    assert Sound(b.images[k]);
    assert b.images[k].data[..|b.images[k].data|] == b.images[k].data;
  }

  lemma EndAccepted(w: World, b: Upload, k: nat, id: nat)
    requires k < |b.images| && Sending(w, b, k, |b.images[k].data|) && Uploadable(b)
    ensures
      var h := Sent(EndImage, id, 0, []);
      Accepted(Answered(w, h, [], None)) && Between(After(w, h, [], None), b, k + 1)
  {
    var image, h := b.images[k], Sent(EndImage, id, 0, []);
    EndSays(w, b, k);
    EndSplits(w.state, w.memory, h, None);
    EndImageKeeps(w, h, [], None);
    assert Answered(w, h, [], None) == EndImageStep(w.state, w.memory, h, None);
    assert image.data[..|image.data|] == image.data;
    EndedBetween(w, b, k, After(w, h, [], None));
  }

  lemma EndedBetween(w: World, b: Upload, k: nat, v: World)
    requires k < |b.images| && Inv(v) && v.launches == [] && v.state.phase == L.Bundle
    requires w.ledger.open == Some(b.descriptor) && w.ledger.done == b.images[..k]
    requires v.ledger == w.ledger.(done := w.ledger.done + [b.images[k]], current := None, partial := [])
    ensures Between(v, b, k + 1)
  {
    assert b.images[..k] + [b.images[k]] == b.images[..k + 1];
  }

  lemma CommitSays(w: World, b: Upload, h: Header)
    requires Between(w, b, |b.images|) && Uploadable(b)
    ensures CommitStep(w.state, w.memory, h) == Say(w.state.(phase := Ready), w.memory, h, Ok0)
  {
    assert b.images[..|b.images|] == b.images;
    var i: nat :| i < |b.images| && b.images[i].descriptor.ContainsEntry(b.descriptor.entry);
    assert w.state.images[i] == b.images[i].descriptor;
  }

  lemma CommitAccepted(w: World, b: Upload, id: nat)
    requires Between(w, b, |b.images|) && Uploadable(b)
    ensures
      var h := Sent(CommitBundle, id, 0, []);
      var after := After(w, h, [], None);
      && Accepted(Answered(w, h, [], None)) && Inv(after)
      && after == w.(state := w.state.(phase := Ready))
      && after.ledger == Ledger(Some(b.descriptor), b.images, None, [])
  {
    CommitSettles(w, b, id);
    CommittedKeeps(w);
  }

  lemma CommitSettles(w: World, b: Upload, id: nat)
    requires Between(w, b, |b.images|) && Uploadable(b)
    ensures
      var h := Sent(CommitBundle, id, 0, []);
      && Accepted(Answered(w, h, [], None)) && After(w, h, [], None) == w.(state := w.state.(phase := Ready))
    ensures w.ledger == Ledger(Some(b.descriptor), b.images, None, [])
    ensures |w.state.images| == w.state.bundle.value.imageCount
    ensures exists i: nat :: i < |w.state.images| && w.state.images[i].ContainsEntry(w.state.bundle.value.entry)
  {
    var h := Sent(CommitBundle, id, 0, []);
    assert b.images[..|b.images|] == b.images;
    CommitSays(w, b, h);
    assert Answered(w, h, [], None) == CommitStep(w.state, w.memory, h);
  }

  lemma BootAccepted(w: World, id: nat, fault: Option<Memory>)
    requires Inv(w) && w.state.phase == Ready
    ensures
      var h := Sent(Boot, id, 0, []);
      && Accepted(Answered(w, h, [], fault))
      && After(w, h, [], fault).launches == w.launches + [Launch(w.state.bundle.value, w.memory, w.ledger)]
  {
  }

  // ---- The transfer ------------------------------------------------------------------------------------

  /** What becomes of one exchange: both ways work, the loader never acts on it, or its reply is lost. */
  datatype Link = Through | Unsent | Unheard

  function Reached(w: World, h: Header, body: seq<byte>, fault: Option<Memory>, link: Link): World {
    if link == Unsent then w else After(w, h, body, fault)
  }

  function Heard(w: World, h: Header, body: seq<byte>, fault: Option<Memory>, link: Link)
    : Result<Response, ClientError>
  {
    var o := Answered(w, h, body, fault);
    if link != Through then Err(Broken)
    else if Accepted(o) then Ok(o.response)
    else Err(Rejected(o.response.header.arg0))
  }

  datatype ClientError = TooLarge | Broken | Malformed | Rejected(code: nat) | Mismatch | FileChanged

  ghost predicate Fitting(h: Header, r: Response) {
    && r.header.Fits() && r.header.length == |r.body| <= MAX_BODY_SIZE
    && r.header.opcode == h.opcode + REPLY_FLAG && r.header.requestId == h.requestId
  }

  lemma SayFits(s: State, h: Header, code: StatusCode, body: seq<byte>)
    requires h.Fits() && h.opcode < REPLY_FLAG && |body| <= MAX_BODY_SIZE
    ensures Fitting(h, Answer(s, h, code, body))
  {
  }

  lemma OpenReplies(s: State, m: Memory, h: Header, body: seq<byte>)
    requires h.Fits() && h.opcode < REPLY_FLAG
    ensures Fitting(h, BeginBundleStep(s, m, h, body).response)
  {
  }

  lemma BeginReplies(s: State, m: Memory, h: Header, body: seq<byte>)
    requires h.Fits() && h.opcode < REPLY_FLAG
    ensures Fitting(h, BeginImageStep(s, m, h, body).response)
  {
  }

  lemma DataReplies(s: State, m: Memory, h: Header, body: seq<byte>, fault: Option<Memory>)
    requires Shaped(s) && h.Fits() && h.opcode < REPLY_FLAG
    ensures Fitting(h, DataStep(s, m, h, body, fault).response)
  {
  }

  lemma StepReplies(s: State, m: Memory, h: Header, body: seq<byte>, fault: Option<Memory>)
    requires Shaped(s) && h.Fits() && h.opcode < REPLY_FLAG
    ensures Fitting(h, EndImageStep(s, m, h, fault).response) && Fitting(h, CommitStep(s, m, h).response)
    ensures Fitting(h, AbortStep(s, m, h).response) && Fitting(h, BootStep(s, m, h).response)
  {
  }

  lemma DispatchReplies(s: State, m: Memory, h: Header, body: seq<byte>, fault: Option<Memory>)
    requires Shaped(s) && h.Fits() && h.opcode < REPLY_FLAG
    ensures Fitting(h, Dispatch(s, m, h, body, fault).response)
  {
    var r := Dispatch(s, m, h, body, fault).response;
    var op := DecodeOpcode(h.opcode);
    if op == Some(BeginBundle) {
      OpenReplies(s, m, h, body);
    } else if op == Some(BeginImage) {
      BeginReplies(s, m, h, body);
    } else if op == Some(Data) {
      DataReplies(s, m, h, body, fault);
    } else if op.Some? && Wordless(h, body) && op.value !in {Hello, Status} {
      StepReplies(s, m, h, body, fault);
    } else {
      PlainReplies(s, m, h, body, fault);
    }
  }

  lemma PlainReplies(s: State, m: Memory, h: Header, body: seq<byte>, fault: Option<Memory>)
    requires h.Fits() && h.opcode < REPLY_FLAG
    requires DecodeOpcode(h.opcode) !in {Some(BeginBundle), Some(BeginImage), Some(Data)}
    requires DecodeOpcode(h.opcode) in {None, Some(Hello), Some(Status)} || !Wordless(h, body)
    ensures Fitting(h, Dispatch(s, m, h, body, fault).response)
  {
    SayFits(s, h, Ok0, StatusBody(s));
    assert |HelloBody()| == 32;
  }

  /** An upload of `d` is under way: whatever was refused, aborting it is still possible. */
  ghost predicate InProgress(w: World, d: BundleDescriptor) {
    Inv(w) && w.launches == [] && w.state.bundle == Some(d)
  }

  lemma StaysInProgress(w: World, d: BundleDescriptor, op: Opcode, id: nat, arg0: nat, body: seq<byte>,
                        fault: Option<Memory>)
    requires InProgress(w, d) && op in {BeginImage, Data, EndImage, CommitBundle}
    ensures InProgress(After(w, Sent(op, id, arg0, body), body, fault), d)
  {
    DispatchKeeps(w, Sent(op, id, arg0, body), body, fault);
  }

  lemma AbortAccepted(w: World, d: BundleDescriptor, id: nat, fault: Option<Memory>)
    requires InProgress(w, d)
    ensures After(w, Sent(Abort, id, 0, []), [], fault).state.phase == Idle
    ensures After(w, Sent(Abort, id, 0, []), [], fault).launches == []
  {
  }

  lemma OpenStarts(w: World, d: BundleDescriptor, id: nat, fault: Option<Memory>)
    requires Inv(w) && w.launches == [] && d.Fits()
    ensures
      var body := EncodeBundle(d);
      var h := Sent(BeginBundle, id, 0, body);
      var after := After(w, h, body, fault);
      && (Accepted(Answered(w, h, body, fault)) ==>
            InProgress(after, d) && after.state.phase == L.Bundle && w.state.phase == Idle)
      && (!Accepted(Answered(w, h, body, fault)) ==> after == w)
  {
    var body := EncodeBundle(d);
    BundleRoundTrip(d);
    DispatchKeeps(w, Sent(BeginBundle, id, 0, body), body, fault);
  }

  /** A guest that runs is not disturbed by an upload being abandoned. */
  lemma AbortRefused(w: World, id: nat, fault: Option<Memory>)
    requires w.state.phase == Disabled
    ensures After(w, Sent(Abort, id, 0, []), [], fault) == w
  {
  }

  lemma HelloAccepted(w: World, id: nat, fault: Option<Memory>)
    ensures
      var h := Sent(Hello, id, 0, []);
      var o := Answered(w, h, [], fault);
      Accepted(o) && After(w, h, [], fault) == w && o.response.body == HelloBody()
  {
  }

  lemma CommitReadies(w: World, id: nat, fault: Option<Memory>)
    ensures
      var h := Sent(CommitBundle, id, 0, []);
      Accepted(Answered(w, h, [], fault)) ==> After(w, h, [], fault).state.phase == Ready
  {
  }

  /** The files sent are still the ones the bundle was prepared from. */
  ghost predicate Unchanged(b: Upload, files: seq<seq<byte>>) {
    && Uploadable(b) && |files| == |b.images| && forall k: nat :: k < |files| ==> files[k] == b.images[k].data
  }

  datatype Capabilities = Capabilities(base: nat, end: nat, chunk: nat, bundleSize: nat, imageSize: nat, images: nat)

  function ReadCapabilities(body: seq<byte>): Option<Capabilities> {
    if |body| != 32 then None
    else Some(Capabilities(U64(body, 0), U64(body, 8), U32(body, 16), U32(body, 20), U32(body, 24), U32(body, 28)))
  }

  predicate Suitable(c: Capabilities, images: nat) {
    && c.base == GUEST_RAM_BASE && c.end == GUEST_RAM_END && c.bundleSize == BUNDLE_DESCRIPTOR_SIZE
    && c.imageSize == IMAGE_DESCRIPTOR_SIZE && 0 < c.chunk <= MAX_BODY_SIZE && c.images <= MAX_IMAGES
    && images <= c.images
  }

  /** The loader the client goes on with: the same guest RAM and descriptors, usable chunks, enough images. */
  lemma SuitableExact(c: Capabilities, images: nat)
    ensures
      Suitable(c, images) <==>
        && c.base == 0x8000_0000 && c.end == 0xfec0_0000 && c.bundleSize == 80 && c.imageSize == 32
        && 1 <= c.chunk <= 4064 && images <= c.images <= 16
  {
  }

  const STATED := Capabilities(GUEST_RAM_BASE, GUEST_RAM_END, MAX_BODY_SIZE, BUNDLE_DESCRIPTOR_SIZE,
                               IMAGE_DESCRIPTOR_SIZE, MAX_IMAGES)

  function Offered(c: Capabilities): (b: seq<byte>)
    ensures |b| == 32
  {
    Le64(c.base) + Le64(c.end) + Le32(c.chunk) + Le32(c.bundleSize) + Le32(c.imageSize) + Le32(c.images)
  }

  /** The client reads the capabilities the loader states. */
  lemma CapabilitiesRoundTrip(c: Capabilities)
    requires c.base < U64_LIMIT && c.end < U64_LIMIT && c.chunk < 0x1_0000_0000 && c.bundleSize < 0x1_0000_0000
    requires c.imageSize < 0x1_0000_0000 && c.images < 0x1_0000_0000
    ensures ReadCapabilities(Offered(c)) == Some(c)
  {
    var b := Offered(c);
    assert b[0..8] == Le64(c.base) && b[8..16] == Le64(c.end);
    Reads64(b, 0, c.base);
    Reads64(b, 8, c.end);
    assert b[16..20] == Le32(c.chunk) && b[20..24] == Le32(c.bundleSize);
    assert b[24..28] == Le32(c.imageSize) && b[28..32] == Le32(c.images);
    Reads32(b, 16, c.chunk);
    Reads32(b, 20, c.bundleSize);
    Reads32(b, 24, c.imageSize);
    Reads32(b, 28, c.images);
  }

  class Client {
    const loader: LoaderService.Loader
    const storage: LoaderService.Storage
    var nextId: nat
    ghost var world: World

    ghost predicate Valid()
      reads this, loader, loader.images, storage
    {
      && loader.Valid() && 1 <= nextId < 0x1_0000_0000
      && Inv(world) && world.state == loader.View() && world.memory == storage.memory
    }

    constructor (l: LoaderService.Loader, s: LoaderService.Storage, ghost w: World)
      requires l.Valid() && Inv(w) && w.state == l.View() && w.memory == s.memory
      ensures Valid() && loader == l && storage == s && world == w
    {
      loader, storage, nextId, world := l, s, 1, w;
    }

    method Exchange(h: Header, body: seq<byte>, fault: Option<Memory>, link: Link)
      returns (r: Result<Response, ClientError>)
      requires Valid() && h.Fits() && h.opcode < REPLY_FLAG && h.length == |body| <= MAX_BODY_SIZE
      modifies this, loader, loader.images, storage
      ensures Valid() && nextId == old(nextId) && world == Reached(old(world), h, body, fault, link)
      ensures r == if link == Through then Ok(Answered(old(world), h, body, fault).response) else Err(Broken)
    {
      if link == Unsent { return Err(Broken); }
      HeaderRoundTrip(h, body);
      DispatchKeeps(world, h, body, fault);
      var answer := loader.Handle(EncodeHeader(h) + body, storage, fault);
      world := After(world, h, body, fault);
      if link == Unheard { return Err(Broken); }
      if answer.Err? { return Err(Malformed); }
      return Ok(answer.value.0);
    }

    /** One request: bytes out, one loader step, bytes back, unless the link loses either. */
    method Request(op: Opcode, arg0: nat, body: seq<byte>, fault: Option<Memory>, link: Link)
      returns (r: Result<Response, ClientError>)
      requires Valid() && arg0 < U64_LIMIT
      modifies this, loader, loader.images, storage
      ensures Valid()
      ensures |body| > MAX_BODY_SIZE ==> r == Err(TooLarge) && world == old(world)
      ensures |body| <= MAX_BODY_SIZE ==>
                world == Reached(old(world), Sent(op, old(nextId), arg0, body), body, fault, link)
      ensures |body| <= MAX_BODY_SIZE ==>
                r == Heard(old(world), Sent(op, old(nextId), arg0, body), body, fault, link)
    {
      if |body| > MAX_BODY_SIZE { return Err(TooLarge); }
      var h := Sent(op, nextId, arg0, body);
      nextId := if nextId + 1 < 0x1_0000_0000 then nextId + 1 else 1;
      DispatchReplies(world.state, world.memory, h, body, fault);
      var reply := Exchange(h, body, fault, link);
      if reply.Err? { return Err(reply.error); }
      r := ReadBack(h, reply.value);
    }

    /** A fitting response, through its bytes. */
    method ReadBack(h: Header, response: Response) returns (r: Result<Response, ClientError>)
      requires Fitting(h, response)
      ensures r == if response.header.arg0 == CodeNumber(Ok0) then Ok(response) else Err(Rejected(response.header.arg0))
    {
      HeaderRoundTrip(response.header, response.body);
      r := Received(h, EncodeHeader(response.header) + response.body);
    }

    /** What storage and the link do in one exchange; nothing amiss if all is `working`. */
    method Draw(working: bool) returns (fault: Option<Memory>, link: Link)
      ensures working ==> fault == None && link == Through
    {
      fault, link := *, *;
      if working { fault, link := None, Through; }
    }

    /** Send file `k` in pieces of any size the loader takes. */
    method SendImage(b: Upload, k: nat, file: seq<byte>, chunk: nat, working: bool) returns (r: Option<ClientError>)
      requires Valid() && k < |b.images| && 0 < chunk <= MAX_BODY_SIZE && |file| < U64_LIMIT
      requires InProgress(world, b.descriptor)
      modifies this, loader, loader.images, storage
      ensures Valid() && InProgress(world, b.descriptor)
      ensures old(working && Uploadable(b) && file == b.images[k].data && Between(world, b, k)) ==>
                r.None? && Between(world, b, k + 1)
    {
      ghost var good := working && Uploadable(b) && file == b.images[k].data && Between(world, b, k);
      r := BeginSending(b, k, working, good);
      if r.Some? { return; }
      r := SendFile(b, k, file, chunk, working, good);
      if r.Some? { return; }
      if |file| != b.images[k].descriptor.fileSize { return Some(FileChanged); }
      r := CloseImage(b, k, working, good);
    }

    method BeginSending(b: Upload, k: nat, working: bool, ghost good: bool) returns (r: Option<ClientError>)
      requires Valid() && k < |b.images| && InProgress(world, b.descriptor)
      requires good ==> working && Uploadable(b) && Between(world, b, k)
      modifies this, loader, loader.images, storage
      ensures Valid() && InProgress(world, b.descriptor)
      ensures good ==> r.None? && Sending(world, b, k, 0)
    {
      var fault, link := Draw(working);
      var body := EncodeImage(b.images[k].descriptor);
      if good { BeginAccepted(world, b, k, nextId); }
      StaysInProgress(world, b.descriptor, BeginImage, nextId, 0, body, fault);
      var reply := Request(BeginImage, 0, body, fault, link);
      return if reply.Err? then Some(reply.error) else None;
    }

    method CloseImage(b: Upload, k: nat, working: bool, ghost good: bool) returns (r: Option<ClientError>)
      requires Valid() && k < |b.images| && InProgress(world, b.descriptor)
      requires good ==> working && Uploadable(b) && Sending(world, b, k, |b.images[k].data|)
      modifies this, loader, loader.images, storage
      ensures Valid() && InProgress(world, b.descriptor)
      ensures good ==> r.None? && Between(world, b, k + 1)
    {
      var fault, link := Draw(working);
      if good { EndAccepted(world, b, k, nextId); }
      StaysInProgress(world, b.descriptor, EndImage, nextId, 0, [], fault);
      var reply := Request(EndImage, 0, [], fault, link);
      return if reply.Err? then Some(reply.error) else None;
    }

    method SendFile(b: Upload, k: nat, file: seq<byte>, chunk: nat, working: bool, ghost good: bool)
      returns (r: Option<ClientError>)
      requires Valid() && k < |b.images| && 0 < chunk <= MAX_BODY_SIZE && |file| < U64_LIMIT
      requires InProgress(world, b.descriptor)
      requires good ==> working && Uploadable(b) && file == b.images[k].data && Sending(world, b, k, 0)
      modifies this, loader, loader.images, storage
      ensures Valid() && InProgress(world, b.descriptor)
      ensures good ==> r.None? && Sending(world, b, k, |file|)
    {
      var offset := 0;
      while offset < |file|
        invariant Valid() && InProgress(world, b.descriptor) && offset <= |file|
        invariant good ==> Sending(world, b, k, offset)
        decreases |file| - offset
      {
        var count: nat :| 0 < count <= chunk && count <= |file| - offset;
        r := SendChunk(b, k, file, offset, count, working, good);
        if r.Some? { return; }
        offset := offset + count;
      }
      r := None;
    }

    method SendChunk(b: Upload, k: nat, file: seq<byte>, offset: nat, count: nat, working: bool, ghost good: bool)
      returns (r: Option<ClientError>)
      requires Valid() && k < |b.images| && 0 < count <= MAX_BODY_SIZE && offset + count <= |file| < U64_LIMIT
      requires InProgress(world, b.descriptor)
      requires good ==> working && Uploadable(b) && file == b.images[k].data && Sending(world, b, k, offset)
      modifies this, loader, loader.images, storage
      ensures Valid() && InProgress(world, b.descriptor)
      ensures good ==> r.None? && Sending(world, b, k, offset + count)
    {
      var fault, link := Draw(working);
      var body := file[offset..offset + count];
      if good { ChunkAccepted(world, b, k, offset, count, nextId); }
      StaysInProgress(world, b.descriptor, Data, nextId, offset, body, fault);
      var reply := Request(Data, offset, body, fault, link);
      if reply.Err? { return Some(reply.error); }
      return if reply.value.header.arg1 != offset + count then Some(Mismatch) else None;
    }

    method SendImages(b: Upload, files: seq<seq<byte>>, chunk: nat, working: bool) returns (r: Option<ClientError>)
      requires Valid() && |files| == |b.images| && 0 < chunk <= MAX_BODY_SIZE && InProgress(world, b.descriptor)
      requires forall k: nat :: k < |files| ==> |files[k]| < U64_LIMIT
      modifies this, loader, loader.images, storage
      ensures Valid() && InProgress(world, b.descriptor)
      ensures old(working && Unchanged(b, files) && Between(world, b, 0)) ==>
                r.None? && Between(world, b, |b.images|)
    {
      ghost var good := working && Unchanged(b, files) && Between(world, b, 0);
      for k := 0 to |b.images|
        invariant Valid() && InProgress(world, b.descriptor)
        invariant good ==> Between(world, b, k)
      {
        r := SendImage(b, k, files[k], chunk, working);
        if r.Some? { return; }
      }
      r := None;
    }

    method Commit(b: Upload, working: bool) returns (r: Option<ClientError>)
      requires Valid() && InProgress(world, b.descriptor)
      modifies this, loader, loader.images, storage
      ensures Valid() && InProgress(world, b.descriptor)
      ensures r.None? ==> world.state.phase == Ready
      ensures old(Uploadable(b) && Between(world, b, |b.images|)) && working ==>
                r.None? && world.ledger == Ledger(Some(b.descriptor), b.images, None, [])
    {
      var fault, link := Draw(working);
      if working && Uploadable(b) && Between(world, b, |b.images|) { CommitAccepted(world, b, nextId); }
      StaysInProgress(world, b.descriptor, CommitBundle, nextId, 0, [], fault);
      CommitReadies(world, nextId, fault);
      var reply := Request(CommitBundle, 0, [], fault, link);
      return if reply.Err? then Some(reply.error) else None;
    }

    /** Greet the loader and open the bundle; a lost reply to the opening leaves it open. */
    method Start(b: Upload, working: bool, begin: Link) returns (r: Result<Capabilities, ClientError>)
      requires Valid() && b.descriptor.Fits() && world.launches == []
      modifies this, loader, loader.images, storage
      ensures Valid()
      ensures r.Err? ==> world == old(world) || (begin == Unheard && old(world.state.phase) == Idle && Opened(b, world))
      ensures r.Ok? ==>
                Suitable(r.value, |b.images|) && Opened(b, world) && old(world.state.phase) == Idle && begin == Through
      ensures old(world.state.phase) == Idle && working && Uploadable(b) && begin != Unsent ==>
                (r.Ok? <==> begin == Through) && Between(world, b, 0)
    {
      r := Greet(working);
      if r.Err? { return; }
      if !Suitable(r.value, |b.images|) { return Err(Mismatch); }
      var begun := Open(b, working, begin);
      if begun.Err? { return Err(begun.error); }
    }

    method Greet(working: bool) returns (r: Result<Capabilities, ClientError>)
      requires Valid()
      modifies this, loader, loader.images, storage
      ensures Valid() && world == old(world) && (working ==> r == Ok(STATED))
    {
      var fault, link := Draw(working);
      HelloAccepted(world, nextId, fault);
      var hello := Request(Hello, 0, [], fault, link);
      if hello.Err? { return Err(hello.error); }
      CapabilitiesRoundTrip(STATED);
      assert Offered(STATED) == HelloBody();
      var c := ReadCapabilities(hello.value.body);
      return if c.None? then Err(Mismatch) else Ok(c.value);
    }

    method Open(b: Upload, working: bool, begin: Link) returns (r: Result<Response, ClientError>)
      requires Valid() && b.descriptor.Fits() && world.launches == []
      modifies this, loader, loader.images, storage
      ensures Valid()
      ensures r.Err? ==> world == old(world) || (begin == Unheard && old(world.state.phase) == Idle && Opened(b, world))
      ensures r.Ok? ==> Opened(b, world) && old(world.state.phase) == Idle && begin == Through
      ensures old(world.state.phase) == Idle && working && Uploadable(b) && begin != Unsent ==>
                (r.Ok? <==> begin == Through) && Between(world, b, 0)
    {
      var fault, _ := Draw(working);
      if world.state.phase == Idle && Uploadable(b) { OpenAccepted(world, b, nextId); }
      OpenStarts(world, b.descriptor, nextId, fault);
      r := Request(BeginBundle, 0, EncodeBundle(b.descriptor), fault, begin);
    }

    /** Tell the loader to forget the upload; whatever it answers is ignored. */
    method Abandon(b: Upload, link: Link)
      requires Valid() && (InProgress(world, b.descriptor) || world.state.phase == Disabled)
      modifies this, loader, loader.images, storage
      ensures Valid()
      ensures link == Unsent || old(world.state.phase) == Disabled ==> world == old(world)
      ensures link != Unsent && old(world.state.phase) != Disabled ==> world.state.phase == Idle && world.launches == []
    {
      var fault, _ := Draw(false);
      if world.state.phase == Disabled {
        AbortRefused(world, nextId, fault);
      } else {
        AbortAccepted(world, b.descriptor, nextId, fault);
      }
      var ignored := Request(Abort, 0, [], fault, link);
    }

    /** The guest starts unless the request is lost, whether or not the host hears of it. */
    method Launched(b: Upload, link: Link) returns (r: Option<ClientError>)
      requires Valid() && InProgress(world, b.descriptor) && world.state.phase == Ready
      modifies this, loader, loader.images, storage
      ensures Valid() && world.memory == old(world.memory) && (r.None? <==> link == Through)
      ensures link == Unsent ==> world == old(world)
      ensures link != Unsent ==> world.state.phase == Disabled
      ensures link != Unsent ==> world.launches == [Launch(b.descriptor, old(world.memory), old(world.ledger))]
    {
      var fault, _ := Draw(false);
      BootAccepted(world, nextId, fault);
      var booted := Request(Boot, 0, [], fault, link);
      return if booted.Err? then Some(booted.error) else None;
    }

    /** All images, the commit and, if asked for, the boot; `asked` says whether the boot was requested. */
    method Deliver(b: Upload, files: seq<seq<byte>>, chunk: nat, boot: bool, working: bool, link: Link)
      returns (r: Option<ClientError>, ghost asked: bool)
      requires Valid() && |files| == |b.images| && 0 < chunk <= MAX_BODY_SIZE && InProgress(world, b.descriptor)
      requires forall k: nat :: k < |files| ==> |files[k]| < U64_LIMIT
      modifies this, loader, loader.images, storage
      ensures Valid() && (asked ==> boot) && (boot && r.None? ==> asked && link == Through)
      ensures !asked || link == Unsent ==> InProgress(world, b.descriptor)
      ensures !asked && r.None? ==> world.state.phase == Ready
      ensures asked && link != Unsent ==> (r.None? <==> link == Through) && Running(b, world)
      ensures old(working && Unchanged(b, files) && Between(world, b, 0)) ==> asked == boot && (!boot ==> r.None?)
      ensures old(working && Unchanged(b, files) && Between(world, b, 0)) && (boot ==> link != Unsent) ==>
                (if boot then world.launches[0].ledger.done else world.ledger.done) == b.images
    {
      asked := false;
      r := SendImages(b, files, chunk, working);
      if r.Some? { return; }
      r := Commit(b, working);
      if r.None? && boot {
        asked := true;
        r := Launched(b, link);
      }
    }

    /**
     The whole upload. With working storage, a working link and unchanged files an uploadable bundle
     goes through from `Idle` and, if asked for, boots with memory holding its images. `Ended` says how
     it can fail otherwise: the guest was started exactly if the reply to Boot was lost. Anywhere but
     in `Idle` it changes nothing.
     */
    method TransferBundle(b: Upload, files: seq<seq<byte>>, boot: bool, working: bool, links: Links)
      returns (r: Option<ClientError>, ghost begun: bool, ghost asked: bool)
      requires Valid() && |files| == |b.images| && b.descriptor.Fits() && world.launches == []
      requires forall k: nat :: k < |files| ==> |files[k]| < U64_LIMIT
      modifies this, loader, loader.images, storage
      ensures Valid() && (asked ==> begun && boot)
      ensures r.None? ==> Went(b, boot, world)
      ensures r.Some? ==> Ended(b, links, begun, asked, old(world), world)
      ensures old(world.state.phase) != Idle ==> r.Some? && !begun && world == old(world)
      ensures old(world.state.phase) == Idle && working && Unchanged(b, files) ==>
                && (begun <==> links.begin == Through) && (asked <==> begun && boot)
                && (r.None? <==> links.begin == Through && (boot ==> links.boot == Through))
                && (r.None? || (asked && links.boot == Unheard) ==> Delivered(b, boot, world) == b.images)
                && (world.launches != [] <==> boot && links.begin == Through && links.boot != Unsent)
    {
      begun, asked := false, false;
      var c := Start(b, working, links.begin);
      if c.Err? { return Some(c.error), begun, asked; }
      begun := true;
      r, asked := Deliver(b, files, c.value.chunk, boot, working, links.boot);
      if r.Some? { Abandon(b, links.abort); }
    }
  }

  /** The exchanges whose loss matters by name. */
  datatype Links = Links(begin: Link, boot: Link, abort: Link)

  /** The loader has begun this bundle and holds nothing else of it. */
  ghost predicate Opened(b: Upload, w: World) { InProgress(w, b.descriptor) && w.state.phase == L.Bundle }

  /** The guest was started once, from this bundle and the memory as it now is. */
  ghost predicate Running(b: Upload, w: World) {
    && w.state.phase == Disabled && |w.launches| == 1
    && w.launches[0].bundle == b.descriptor && w.launches[0].memory == w.memory
  }

  /**
   How a failed upload leaves the loader. Not opened, as far as the host knows: as it was, or open if
   only the reply was lost, for then no Abort follows. Boot's reply lost: the guest runs. Otherwise
   idle, unless the Abort is lost too and the upload stays in progress.
   */
  ghost predicate Ended(b: Upload, links: Links, begun: bool, asked: bool, before: World, after: World) {
    if !begun then
      after == before || (links.begin == Unheard && before.state.phase == Idle && Opened(b, after))
    else if asked && links.boot == Unheard then Running(b, after)
    else if links.abort == Unsent then InProgress(after, b.descriptor)
    else after.state.phase == Idle && after.launches == []
  }

  /** How a successful upload ends: launched once, with memory as it now is, or ready to be. */
  ghost predicate Went(b: Upload, boot: bool, w: World) {
    if boot then Running(b, w)
    else w.state.phase == Ready && w.launches == [] && w.ledger.open == Some(b.descriptor)
  }

  /** The images acknowledged by then. */
  ghost function Delivered(b: Upload, boot: bool, w: World): seq<Image>
    requires boot ==> Running(b, w)
  {
    if boot then w.launches[0].ledger.done else w.ledger.done
  }

  /** After a successful upload guest memory holds exactly the bundle's images. */
  lemma UploadedIsPlaced(b: Upload, boot: bool, w: World, k: nat)
    requires Inv(w) && Went(b, boot, w) && Delivered(b, boot, w) == b.images && k < |b.images|
    ensures Placed(w.memory, b.images[k])
    ensures boot ==> Bootable(w.launches[0])
  {
  }

  /** A failed upload has started the guest exactly if the loader took Boot and its reply was lost. */
  lemma FailedBoot(b: Upload, links: Links, begun: bool, asked: bool, before: World, after: World)
    requires before.launches == [] && Ended(b, links, begun, asked, before, after) && (asked ==> begun)
    ensures after.launches != [] <==> asked && links.boot == Unheard
  {
  }

  // ---- A case of it --------------------------------------------------------------------------------------

  const FOUR_BYTES: seq<byte> := [0, 0, 0, 0]

  /** One image of four bytes at the start of guest memory, entered there. */
  function Smallest(): Upload {
    Upload(BundleDescriptor(GUEST_RAM_BASE, 1, 0, seq(8, _ => 0)),
           [Image(ImageDescriptor(GUEST_RAM_BASE, 4, 4, ChecksumOf(FOUR_BYTES), 0), FOUR_BYTES)])
  }

  lemma SmallestUploadable()
    ensures Uploadable(Smallest()) && Unchanged(Smallest(), [FOUR_BYTES])
  {
    assert Smallest().images[0].descriptor.ContainsEntry(GUEST_RAM_BASE);
  }

  /** From power-on: the guest runs, and the host was told that the upload failed. */
  method BootedUnheard(memory: Memory) returns (client: Client, r: Option<ClientError>)
    ensures fresh(client) && client.Valid() && r.Some? && Running(Smallest(), client.world)
  {
    var loader := new LoaderService.Loader();
    var storage := new LoaderService.Storage(memory);
    RunInv(memory, []);
    client := new Client(loader, storage, World(Initial(), memory, EMPTY, []));
    SmallestUploadable();
    ghost var begun, asked;
    r, begun, asked := client.TransferBundle(Smallest(), [FOUR_BYTES], true, true, Links(Through, Unheard, Through));
  }

  /** The client's reading of a response to `h`. */
  method Received(h: Header, bytes: seq<byte>) returns (r: Result<Response, ClientError>)
    ensures DecodeHeader(bytes).Err? ==> r == Err(Malformed)
    ensures DecodeHeader(bytes).Ok? ==>
              var d := DecodeHeader(bytes).value;
              r == if d.requestId != h.requestId || d.opcode != h.opcode + REPLY_FLAG then Err(Mismatch)
                   else if d.arg0 != CodeNumber(Ok0) then Err(Rejected(d.arg0))
                   else Ok(Response(d, bytes[HEADER_SIZE..]))
  {
    var decoded := DecodeHeader(bytes);
    if decoded.Err? { return Err(Malformed); }
    var d := decoded.value;
    if d.requestId != h.requestId || d.opcode != h.opcode + REPLY_FLAG { return Err(Mismatch); }
    if d.arg0 != CodeNumber(Ok0) { return Err(Rejected(d.arg0)); }
    return Ok(Response(d, bytes[HEADER_SIZE..]));
  }
}
