/**
 Every run of the loader: messages of any content in any order, storage faults at any write, and
 disabling at any moment. A ledger rebuilt from acknowledged messages alone says what was promised;
 the invariant says guest memory keeps that promise.
 */
module LoaderRuns {
  import opened Types
  import opened Loader
  import Crc

  /** One uploaded image as its sender knows it. */
  datatype Image = Image(descriptor: ImageDescriptor, data: seq<byte>)

  /** What the acknowledged requests add up to; it looks at no loader state. */
  datatype Ledger = Ledger(
    open: Option<BundleDescriptor>, done: seq<Image>, current: Option<ImageDescriptor>, partial: seq<byte>)

  const EMPTY := Ledger(None, [], None, [])

  function Acknowledged(l: Ledger, op: Opcode, body: seq<byte>): Ledger {
    match op
    case BeginBundle => Ledger(DecodeBundle(body), [], None, [])
    case BeginImage => l.(current := DecodeImage(body), partial := [])
    case Data => l.(partial := l.partial + body)
    case EndImage =>
      if l.current.None? then l
      else l.(done := l.done + [Image(l.current.value, l.partial)], current := None, partial := [])
    case Abort => EMPTY
    case Boot => EMPTY
    case Hello => l
    case CommitBundle => l
    case Status => l
  }

  function Record(l: Ledger, h: Header, body: seq<byte>, answer: Response): Ledger {
    var op := DecodeOpcode(h.opcode);
    if answer.header.arg0 == 0 && op.Some? then Acknowledged(l, op.value, body) else l
  }

  /** The moment `BootGuest` was returned: its descriptor, and memory and ledger as they stood. */
  datatype Launch = Launch(bundle: BundleDescriptor, memory: Memory, ledger: Ledger)

  datatype World = World(state: State, memory: Memory, ledger: Ledger, launches: seq<Launch>)

  datatype Event = Message(bytes: seq<byte>, fault: Option<Memory>) | Disable

  function Settle(w: World, h: Header, body: seq<byte>, o: Outcome): World {
    World(o.state, o.memory, Record(w.ledger, h, body, o.response),
          if o.action.BootGuest? then w.launches + [Launch(o.action.bundle, w.memory, w.ledger)] else w.launches)
  }

  function Next(w: World, e: Event): World {
    match e
    case Disable => w.(state := Clear(w.state, Disabled), ledger := EMPTY)
    case Message(bytes, fault) =>
      match Handle(w.state, w.memory, bytes, fault)
      case Err(_) => w
      case Ok(o) => Settle(w, DecodeHeader(bytes).value, bytes[HEADER_SIZE..], o)
  }

  function Run(memory: Memory, events: seq<Event>): World {
    if events == [] then World(Initial(), memory, EMPTY, [])
    else Next(Run(memory, events[..|events| - 1]), events[|events| - 1])
  }

  // ---- What memory holds --------------------------------------------------------------------

  ghost predicate HoldsAt(m: Memory, address: nat, bytes: seq<byte>) {
    forall i: nat :: i < |bytes| ==> m(address + i) == bytes[i]
  }

  /** The image's bytes are in place, its checksum is right and the rest of its extent is zero. */
  ghost predicate Placed(m: Memory, image: Image) {
    var d := image.descriptor;
    && d.Valid() && |image.data| == d.fileSize && ChecksumOf(image.data) == d.crc32
    && HoldsAt(m, d.address, image.data)
    && forall a: nat :: d.address + d.fileSize <= a < d.address + d.runtimeSize ==> m(a) == 0
  }

  ghost predicate Apart(images: seq<Image>) {
    forall i: nat, j: nat :: i < j < |images| ==> !images[j].descriptor.Overlaps(images[i].descriptor)
  }

  function Descriptors(images: seq<Image>): (ds: seq<ImageDescriptor>)
    ensures |ds| == |images| && forall i: nat :: i < |images| ==> ds[i] == images[i].descriptor
  {
    seq(|images|, i requires 0 <= i < |images| => images[i].descriptor)
  }

  /** Everything a guest is entitled to when it starts. */
  ghost predicate Bootable(launch: Launch) {
    var l := launch.ledger;
    && l.open == Some(launch.bundle) && launch.bundle.Valid()
    && |l.done| == launch.bundle.imageCount
    && (forall i: nat :: i < |l.done| ==> Placed(launch.memory, l.done[i]))
    && Apart(l.done)
    && exists i: nat :: i < |l.done| && l.done[i].descriptor.ContainsEntry(launch.bundle.entry)
  }

  // ---- The invariant ---------------------------------------------------------------------------

  ghost predicate Agrees(s: State, l: Ledger) {
    && s.bundle == l.open && s.images == Descriptors(l.done) && s.current == l.current
    && s.received == |l.partial| && s.crc == Feed(Crc.START, l.partial)
  }

  ghost predicate Shaped(s: State) {
    && (s.phase == Receiving <==> s.current.Some?)
    && (s.phase in {Idle, Disabled} <==> s.bundle.None?)
    && (s.phase in {Idle, Disabled} ==> s.images == [])
    && (s.bundle.Some? ==> s.bundle.value.Valid() && |s.images| <= s.bundle.value.imageCount)
    && (s.phase == Receiving ==>
          && |s.images| < s.bundle.value.imageCount
          && s.current.value.Valid() && s.received <= s.current.value.fileSize)
    && (s.phase == Ready ==>
          && |s.images| == s.bundle.value.imageCount
          && exists i: nat :: i < |s.images| && s.images[i].ContainsEntry(s.bundle.value.entry))
  }

  ghost predicate Filling(m: Memory, l: Ledger) {
    && (l.current.None? ==> l.partial == [])
    && (l.current.Some? ==>
          var d := l.current.value;
          && |l.partial| <= d.fileSize && HoldsAt(m, d.address, l.partial)
          && forall i: nat :: i < |l.done| ==> !d.Overlaps(l.done[i].descriptor))
  }

  ghost predicate Finished(m: Memory, l: Ledger) {
    (forall i: nat :: i < |l.done| ==> Placed(m, l.done[i])) && Apart(l.done)
  }

  ghost predicate Launched(w: World) {
    && |w.launches| <= 1 && (w.launches != [] ==> w.state.phase == Disabled)
    && forall i: nat :: i < |w.launches| ==> Bootable(w.launches[i])
  }

  ghost predicate Inv(w: World) {
    && Agrees(w.state, w.ledger) && Shaped(w.state) && Filling(w.memory, w.ledger)
    && Finished(w.memory, w.ledger) && Launched(w)
  }

  // ---- Stores ------------------------------------------------------------------------------------

  lemma StoreKeeps(m: Memory, address: nat, bytes: seq<byte>, fault: Option<Memory>, image: Image)
    requires Placed(m, image)
    requires address + |bytes| <= image.descriptor.address
          || image.descriptor.address + image.descriptor.runtimeSize <= address
    ensures Placed(Store(m, address, bytes, fault), image)
  {
  }

  lemma StoreInside(m: Memory, l: Ledger, address: nat, bytes: seq<byte>, fault: Option<Memory>)
    requires Filling(m, l) && Finished(m, l) && l.current.Some?
    requires l.current.value.address <= address
    requires address + |bytes| <= l.current.value.address + l.current.value.runtimeSize
    ensures Finished(Store(m, address, bytes, fault), l)
  {
    forall i: nat | i < |l.done| ensures Placed(Store(m, address, bytes, fault), l.done[i]) {
      assert !l.current.value.Overlaps(l.done[i].descriptor);
      StoreKeeps(m, address, bytes, fault, l.done[i]);
    }
  }

  lemma FeedAppend(crc: bv32, a: seq<byte>, b: seq<byte>)
    ensures Feed(crc, a + b) == Feed(Feed(crc, a), b)
  {
    assert Octets(a + b) == Octets(a) + Octets(b);
    Crc.FoldAppend(crc, Octets(a), Octets(b));
  }

  lemma FeedNothing()
    ensures Feed(Crc.START, []) == Crc.START
  {
  }

  // ---- One step ------------------------------------------------------------------------------------

  /** A step that leaves the loader as it was, and in memory what the ledger says. */
  lemma UnmovedKeeps(w: World, h: Header, body: seq<byte>, o: Outcome)
    requires Inv(w) && o.state == w.state && o.action.NoAction?
    requires Filling(o.memory, w.ledger) && Finished(o.memory, w.ledger)
    requires Record(w.ledger, h, body, o.response) == w.ledger
    ensures Inv(Settle(w, h, body, o))
  {
  }

  lemma OpenedKeeps(w: World, d: BundleDescriptor)
    requires Inv(w) && w.state.phase == Idle && d.Valid()
    ensures Inv(World(w.state.(bundle := Some(d), phase := Bundle, claimed := true), w.memory,
                      Ledger(Some(d), [], None, []), w.launches))
  {
    FeedNothing();
  }

  lemma BeginBundleKeeps(w: World, h: Header, body: seq<byte>)
    requires Inv(w) && DecodeOpcode(h.opcode) == Some(BeginBundle)
    ensures Inv(Settle(w, h, body, BeginBundleStep(w.state, w.memory, h, body)))
  {
    var d := DecodeBundle(body);
    var o := BeginBundleStep(w.state, w.memory, h, body);
    if w.state.phase == Idle && h.arg0 == 0 && h.arg1 == 0 && d.Some? {
      OpenedKeeps(w, d.value);
    } else {
      UnmovedKeeps(w, h, body, o);
    }
  }

  lemma BegunKeeps(w: World, d: ImageDescriptor)
    requires Inv(w) && w.state.phase == Bundle && |w.state.images| < w.state.bundle.value.imageCount
    requires d.Valid() && forall i: nat :: i < |w.state.images| ==> !d.Overlaps(w.state.images[i])
    ensures Inv(World(w.state.(current := Some(d), received := 0, crc := Crc.START, phase := Receiving), w.memory,
                      w.ledger.(current := Some(d), partial := []), w.launches))
  {
    FeedNothing();
  }

  lemma BeginImageKeeps(w: World, h: Header, body: seq<byte>)
    requires Inv(w) && DecodeOpcode(h.opcode) == Some(BeginImage)
    ensures Inv(Settle(w, h, body, BeginImageStep(w.state, w.memory, h, body)))
  {
    var o := BeginImageStep(w.state, w.memory, h, body);
    if o.response.header.arg0 == 0 {
      BegunKeeps(w, DecodeImage(body).value);
    } else {
      UnmovedKeeps(w, h, body, o);
    }
  }

  ghost predicate Still(s: State, m: Memory, o: Outcome) { o.state == s && o.memory == m && o.action.NoAction? }

  predicate TakesData(s: State, h: Header, body: seq<byte>) {
    && s.phase == Receiving && s.current.Some? && body != [] && h.arg0 == s.received && h.arg1 == 0
    && s.received + |body| <= s.current.value.fileSize
  }

  lemma HoldsMore(m: Memory, address: nat, a: seq<byte>, b: seq<byte>, fault: Option<Memory>)
    requires HoldsAt(m, address, a)
    ensures HoldsAt(Store(m, address + |a|, b, fault), address, a)
    ensures fault.None? ==> HoldsAt(Store(m, address + |a|, b, fault), address, a + b)
  {
  }

  /** What a chunk in its place leaves in memory, whether the store worked or not. */
  lemma {:induction false} ChunkStored(m: Memory, l: Ledger, body: seq<byte>, fault: Option<Memory>, after: Memory)
    requires Filling(m, l) && Finished(m, l) && l.current.Some? && l.current.value.Valid()
    requires |l.partial| + |body| <= l.current.value.fileSize
    requires after == Store(m, l.current.value.address + |l.partial|, body, fault)
    ensures Finished(after, l) && HoldsAt(after, l.current.value.address, l.partial) && Filling(after, l)
    ensures fault.None? ==> HoldsAt(after, l.current.value.address, l.partial + body)
  {
    StoreInside(m, l, l.current.value.address + |l.partial|, body, fault);
    HoldsMore(m, l.current.value.address, l.partial, body, fault);
  }

  lemma MoreFills(m: Memory, l: Ledger, body: seq<byte>)
    requires Filling(m, l) && Finished(m, l) && l.current.Some? && |l.partial| + |body| <= l.current.value.fileSize
    requires HoldsAt(m, l.current.value.address, l.partial + body)
    ensures Finished(m, l.(partial := l.partial + body)) && Filling(m, l.(partial := l.partial + body))
  {
  }

  lemma DataSplits(s: State, m: Memory, h: Header, body: seq<byte>, fault: Option<Memory>)
    requires Shaped(s)
    ensures
      var o := DataStep(s, m, h, body, fault);
      if TakesData(s, h, body) then
        && o.action.NoAction? && o.memory == Store(m, s.current.value.address + s.received, body, fault)
        && (fault.Some? ==> o.state == s && o.response.header.arg0 != 0)
        && (fault.None? ==> o.response.header.arg0 == 0)
        && (fault.None? ==> o.state == s.(crc := Feed(s.crc, body), received := s.received + |body|))
      else Still(s, m, o) && o.response.header.arg0 != 0
  {
  }

  lemma ChunkKeeps(w: World, body: seq<byte>, m: Memory)
    requires Inv(w) && w.state.phase == Receiving && |w.ledger.partial| + |body| <= w.state.current.value.fileSize
    requires Finished(m, w.ledger) && Filling(m, w.ledger)
    requires HoldsAt(m, w.state.current.value.address, w.ledger.partial + body)
    ensures Inv(World(w.state.(crc := Feed(w.state.crc, body), received := w.state.received + |body|), m,
                      w.ledger.(partial := w.ledger.partial + body), w.launches))
  {
    FeedAppend(Crc.START, w.ledger.partial, body);
    MoreFills(m, w.ledger, body);
  }

  lemma DataKeeps(w: World, h: Header, body: seq<byte>, fault: Option<Memory>)
    requires Inv(w) && DecodeOpcode(h.opcode) == Some(Data)
    ensures Inv(Settle(w, h, body, DataStep(w.state, w.memory, h, body, fault)))
  {
    var o := DataStep(w.state, w.memory, h, body, fault);
    DataSplits(w.state, w.memory, h, body, fault);
    if TakesData(w.state, h, body) { ChunkStored(w.memory, w.ledger, body, fault, o.memory); }
    if TakesData(w.state, h, body) && fault.None? {
      ChunkKeeps(w, body, o.memory);
    } else {
      UnmovedKeeps(w, h, body, o);
    }
  }

  /** What zeroing the rest of a whole image leaves in memory. */
  lemma TailStored(w: World, fault: Option<Memory>)
    requires Inv(w) && w.state.phase == Receiving && w.state.received == w.state.current.value.fileSize
    ensures
      var l, d := w.ledger, w.state.current.value;
      var m := Store(w.memory, d.address + d.fileSize, Zeros(d.runtimeSize - d.fileSize), fault);
      && Finished(m, l) && Filling(m, l)
      && (fault.None? && ChecksumOf(l.partial) == d.crc32 ==> Placed(m, Image(d, l.partial)))
  {
    var l, d := w.ledger, w.state.current.value;
    var size := d.runtimeSize - d.fileSize;
    StoreInside(w.memory, l, d.address + d.fileSize, Zeros(size), fault);
    HoldsMore(w.memory, d.address, l.partial, Zeros(size), fault);
  }

  lemma EndedKeeps(w: World, m: Memory)
    requires Inv(w) && w.state.phase == Receiving && Finished(m, w.ledger)
    requires Placed(m, Image(w.state.current.value, w.ledger.partial))
    ensures
      var s, l, d := w.state, w.ledger, w.state.current.value;
      Inv(World(s.(images := s.images + [d], current := None, received := 0, crc := Crc.START, phase := Bundle), m,
                l.(done := l.done + [Image(d, l.partial)], current := None, partial := []), w.launches))
  {
    FeedNothing();
    var s, l, d := w.state, w.ledger, w.state.current.value;
    assert Descriptors(l.done + [Image(d, l.partial)]) == s.images + [d];
  }

  predicate TakesEnd(s: State) {
    && s.phase == Receiving && s.current.Some? && s.received == s.current.value.fileSize
    && Finish(s.crc) == s.current.value.crc32
  }

  lemma EndSplits(s: State, m: Memory, h: Header, fault: Option<Memory>)
    requires Shaped(s)
    ensures
      var o := EndImageStep(s, m, h, fault);
      if TakesEnd(s) then
        var d := s.current.value;
        var size := d.runtimeSize - d.fileSize;
        && o.action.NoAction?
        && o.memory == (if size == 0 then m else Store(m, d.address + d.fileSize, Zeros(size), fault))
        && (size != 0 && fault.Some? ==> o.state == s && o.response.header.arg0 != 0)
        && (size == 0 || fault.None? ==> o.response.header.arg0 == 0)
        && (size == 0 || fault.None? ==>
              o.state == s.(images := s.images + [d], current := None, received := 0, crc := Crc.START,
                            phase := Bundle))
      else Still(s, m, o) && o.response.header.arg0 != 0
  {
  }

  lemma EndImageKeeps(w: World, h: Header, body: seq<byte>, fault: Option<Memory>)
    requires Inv(w) && DecodeOpcode(h.opcode) == Some(EndImage)
    ensures Inv(Settle(w, h, body, EndImageStep(w.state, w.memory, h, fault)))
  {
    var o := EndImageStep(w.state, w.memory, h, fault);
    EndSplits(w.state, w.memory, h, fault);
    if TakesEnd(w.state) { TailStored(w, fault); }
    if o.response.header.arg0 == 0 {
      EndedKeeps(w, o.memory);
    } else {
      UnmovedKeeps(w, h, body, o);
    }
  }

  lemma CommittedKeeps(w: World)
    requires Inv(w) && w.state.phase == Bundle && |w.state.images| == w.state.bundle.value.imageCount
    requires exists i: nat :: i < |w.state.images| && w.state.images[i].ContainsEntry(w.state.bundle.value.entry)
    ensures Inv(w.(state := w.state.(phase := Ready)))
  {
  }

  lemma CommitKeeps(w: World, h: Header, body: seq<byte>)
    requires Inv(w) && DecodeOpcode(h.opcode) == Some(CommitBundle)
    ensures Inv(Settle(w, h, body, CommitStep(w.state, w.memory, h)))
  {
    var o := CommitStep(w.state, w.memory, h);
    if o.response.header.arg0 == 0 { CommittedKeeps(w); } else { UnmovedKeeps(w, h, body, o); }
  }

  lemma ClearedKeeps(w: World)
    requires Inv(w) && w.state.phase != Disabled
    ensures Inv(World(Clear(w.state, Idle), w.memory, EMPTY, w.launches))
  {
    FeedNothing();
  }

  lemma AbortKeeps(w: World, h: Header, body: seq<byte>)
    requires Inv(w) && DecodeOpcode(h.opcode) == Some(Abort)
    ensures Inv(Settle(w, h, body, AbortStep(w.state, w.memory, h)))
  {
    var o := AbortStep(w.state, w.memory, h);
    if o.response.header.arg0 == 0 { ClearedKeeps(w); } else { UnmovedKeeps(w, h, body, o); }
  }

  lemma LaunchedKeeps(w: World)
    requires Inv(w) && w.state.phase == Ready
    ensures Bootable(Launch(w.state.bundle.value, w.memory, w.ledger))
    ensures Inv(World(Clear(w.state, Disabled), w.memory, EMPTY,
                      w.launches + [Launch(w.state.bundle.value, w.memory, w.ledger)]))
  {
    FeedNothing();
    var s, l := w.state, w.ledger;
    var i: nat :| i < |s.images| && s.images[i].ContainsEntry(s.bundle.value.entry);
    assert l.done[i].descriptor == s.images[i];
  }

  lemma BootSplits(s: State, m: Memory, h: Header)
    requires Shaped(s)
    ensures
      var o := BootStep(s, m, h);
      if s.phase == Ready then
        && o.state == Clear(s, Disabled) && o.memory == m && o.response.header.arg0 == 0
        && o.action == BootGuest(s.bundle.value)
      else Still(s, m, o) && o.response.header.arg0 != 0
  {
  }

  lemma BootKeeps(w: World, h: Header, body: seq<byte>)
    requires Inv(w) && DecodeOpcode(h.opcode) == Some(Boot)
    ensures Inv(Settle(w, h, body, BootStep(w.state, w.memory, h)))
  {
    var o := BootStep(w.state, w.memory, h);
    BootSplits(w.state, w.memory, h);
    if w.state.phase == Ready {
      LaunchedKeeps(w);
    } else {
      UnmovedKeeps(w, h, body, o);
    }
  }

  predicate Wordless(h: Header, body: seq<byte>) { body == [] && h.arg0 == 0 && h.arg1 == 0 }

  lemma DispatchKeeps(w: World, h: Header, body: seq<byte>, fault: Option<Memory>)
    requires Inv(w)
    ensures Inv(Settle(w, h, body, Dispatch(w.state, w.memory, h, body, fault)))
  {
    var op := DecodeOpcode(h.opcode);
    if op == Some(BeginBundle) {
      BeginBundleKeeps(w, h, body);
    } else if op == Some(BeginImage) {
      BeginImageKeeps(w, h, body);
    } else if op == Some(Data) {
      DataKeeps(w, h, body, fault);
    } else if op.None? || !Wordless(h, body) || op.value in {Hello, Status} {
      PlainKeeps(w, h, body, fault);
    } else {
      WordlessKeeps(w, h, body, fault);
    }
  }

  lemma PlainKeeps(w: World, h: Header, body: seq<byte>, fault: Option<Memory>)
    requires Inv(w) && DecodeOpcode(h.opcode) !in {Some(BeginBundle), Some(BeginImage), Some(Data)}
    requires DecodeOpcode(h.opcode) in {None, Some(Hello), Some(Status)} || !Wordless(h, body)
    ensures Inv(Settle(w, h, body, Dispatch(w.state, w.memory, h, body, fault)))
  {
    UnmovedKeeps(w, h, body, Dispatch(w.state, w.memory, h, body, fault));
  }

  lemma WordlessKeeps(w: World, h: Header, body: seq<byte>, fault: Option<Memory>)
    requires Inv(w) && Wordless(h, body)
    requires DecodeOpcode(h.opcode) in {Some(EndImage), Some(CommitBundle), Some(Abort), Some(Boot)}
    ensures Inv(Settle(w, h, body, Dispatch(w.state, w.memory, h, body, fault)))
  {
    match DecodeOpcode(h.opcode).value
    case EndImage => EndImageKeeps(w, h, body, fault);
    case CommitBundle => CommitKeeps(w, h, body);
    case Abort => AbortKeeps(w, h, body);
    case _ => BootKeeps(w, h, body);
  }

  lemma NextKeeps(w: World, e: Event)
    requires Inv(w)
    ensures Inv(Next(w, e))
  {
    match e
    case Disable => FeedNothing();
    case Message(bytes, fault) =>
      var r := DecodeHeader(bytes);
      if r.Ok? && r.value.opcode < REPLY_FLAG { DispatchKeeps(w, r.value, bytes[HEADER_SIZE..], fault); }
  }

  // ---- Runs --------------------------------------------------------------------------------------------

  lemma {:induction false} RunInv(memory: Memory, events: seq<Event>)
    ensures Inv(Run(memory, events))
  {
    if events == [] {
      FeedNothing();
    } else {
      RunInv(memory, events[..|events| - 1]);
      NextKeeps(Run(memory, events[..|events| - 1]), events[|events| - 1]);
    }
  }

  /**
   In every run the guest is started at most once, and then memory held every acknowledged image:
   checksummed bytes, zeros to its extent, apart from each other, one of them holding the entry.
   */
  lemma BootIsSafe(memory: Memory, events: seq<Event>)
    ensures |Run(memory, events).launches| <= 1
    ensures forall i: nat :: i < |Run(memory, events).launches| ==> Bootable(Run(memory, events).launches[i])
  {
    RunInv(memory, events);
  }

  /** EL2's boot stack, the framebuffer, and everything outside guest RAM. */
  predicate OffLimits(a: nat) {
    || a < 0x8000_0000 || 0xfec0_0000 <= a
    || 0x8a7f_0000 <= a < 0x8a80_0000 || 0xf5a0_0000 <= a < 0xf5e0_0000
  }

  /** The images that may be received, and the bundles that may be opened. */
  lemma ImageExact(d: ImageDescriptor)
    requires d.Fits()
    ensures
      d.Valid() <==>
        && d.flags == 0 && 0 < d.fileSize <= d.runtimeSize
        && forall a: nat :: d.address <= a < d.address + d.runtimeSize ==> !OffLimits(a)
  {
    var end := d.address + d.runtimeSize;
    assert OffLimits(0x8a7f_0000) && OffLimits(0xf5a0_0000);
    if 0 < d.fileSize <= d.runtimeSize && forall a: nat :: d.address <= a < end ==> !OffLimits(a) {
      assert !OffLimits(d.address) && !OffLimits(end - 1);
    }
  }

  lemma BundleExact(d: BundleDescriptor)
    requires d.Fits()
    ensures
      d.Valid() <==>
        && 1 <= d.imageCount <= 16 && d.entry % 4 == 0 && d.flags in {0, 1}
        && (d.flags == 1 ==> forall i: nat :: i < 8 ==> d.registers[i] == 0)
        && !OffLimits(d.entry) && !OffLimits(d.entry + 3)
  {
  }

  lemma ValidSpares(d: ImageDescriptor, a: nat)
    requires d.Valid() && OffLimits(a)
    ensures a < d.address || d.address + d.runtimeSize <= a
  {
  }

  lemma DispatchSpares(s: State, m: Memory, h: Header, body: seq<byte>, fault: Option<Memory>, a: nat)
    requires Shaped(s) && OffLimits(a)
    ensures Dispatch(s, m, h, body, fault).memory(a) == m(a)
  {
    var op := DecodeOpcode(h.opcode);
    if op == Some(Data) || op == Some(EndImage) {
      DataSplits(s, m, h, body, fault);
      EndSplits(s, m, h, fault);
      if s.current.Some? && s.current.value.Valid() { ValidSpares(s.current.value, a); }
    }
  }

  /** No run writes outside guest RAM, to EL2's boot stack or to the framebuffer, failing storage included. */
  lemma {:induction false} RunSpares(memory: Memory, events: seq<Event>, a: nat)
    requires OffLimits(a)
    ensures Run(memory, events).memory(a) == memory(a)
  {
    if events != [] {
      var front, e := events[..|events| - 1], events[|events| - 1];
      RunSpares(memory, front, a);
      RunInv(memory, front);
      NextSpares(Run(memory, front), e, a);
    }
  }

  lemma NextSpares(w: World, e: Event, a: nat)
    requires Shaped(w.state) && OffLimits(a)
    ensures Next(w, e).memory(a) == w.memory(a)
  {
    if e.Message? && DecodeHeader(e.bytes).Ok? {
      DispatchSpares(w.state, w.memory, DecodeHeader(e.bytes).value, e.bytes[HEADER_SIZE..], e.fault, a);
    }
  }

  /** What a placed image of a booted bundle means for guest memory, without the loader's terms. */
  lemma BootedMemory(launch: Launch, i: nat, a: nat)
    requires Bootable(launch) && i < |launch.ledger.done|
    ensures
      var image := launch.ledger.done[i];
      var d := image.descriptor;
      && (d.address <= a < d.address + d.runtimeSize ==>
            && 0x8000_0000 <= a < 0xfec0_0000 && !(0x8a7f_0000 <= a < 0x8a80_0000)
            && !(0xf5a0_0000 <= a < 0xf5e0_0000)
            && launch.memory(a) == if a < d.address + d.fileSize then image.data[a - d.address] else 0)
      && forall j: nat :: j < |launch.ledger.done| && j != i ==>
           var other := launch.ledger.done[j].descriptor;
           other.address + other.runtimeSize <= d.address || d.address + d.runtimeSize <= other.address
  {
    var image := launch.ledger.done[i];
    assert Placed(launch.memory, image);
    forall j: nat | j < |launch.ledger.done| && j != i
      ensures !launch.ledger.done[j].descriptor.Overlaps(image.descriptor)
           && !image.descriptor.Overlaps(launch.ledger.done[j].descriptor) {
      assert Placed(launch.memory, launch.ledger.done[j]);
      assert Apart(launch.ledger.done);
      if i < j { assert !launch.ledger.done[j].descriptor.Overlaps(image.descriptor); }
      else { assert !image.descriptor.Overlaps(launch.ledger.done[j].descriptor); }
    }
    if image.descriptor.address <= a < image.descriptor.address + image.descriptor.fileSize {
      assert launch.memory(image.descriptor.address + (a - image.descriptor.address))
          == image.data[a - image.descriptor.address];
    }
  }

  /** A booted bundle has as many images as it announced, and its entry is a whole word of one image's file. */
  lemma BootedEntry(launch: Launch) returns (i: nat)
    requires Bootable(launch)
    ensures 1 <= |launch.ledger.done| == launch.bundle.imageCount <= 16
    ensures i < |launch.ledger.done|
    ensures
      var d, entry := launch.ledger.done[i].descriptor, launch.bundle.entry;
      entry % 4 == 0 && d.address <= entry && entry + 4 <= d.address + d.fileSize
  {
    i :| i < |launch.ledger.done| && launch.ledger.done[i].descriptor.ContainsEntry(launch.bundle.entry);
  }

  lemma DisabledSteps(s: State, m: Memory, h: Header, body: seq<byte>, fault: Option<Memory>)
    requires s.phase == Disabled
    ensures Still(s, m, BeginBundleStep(s, m, h, body)) && Still(s, m, BeginImageStep(s, m, h, body))
    ensures Still(s, m, DataStep(s, m, h, body, fault)) && Still(s, m, EndImageStep(s, m, h, fault))
    ensures Still(s, m, CommitStep(s, m, h)) && Still(s, m, AbortStep(s, m, h)) && Still(s, m, BootStep(s, m, h))
  {
  }

  lemma DisabledDispatch(s: State, m: Memory, h: Header, body: seq<byte>, fault: Option<Memory>)
    requires s.phase == Disabled
    ensures Still(s, m, Dispatch(s, m, h, body, fault))
  {
    DisabledSteps(s, m, h, body, fault);
  }

  lemma DisabledNext(w: World, e: Event)
    requires w.state.phase == Disabled
    ensures Next(w, e).state.phase == Disabled
    ensures Next(w, e).memory == w.memory && Next(w, e).launches == w.launches
  {
    match e
    case Disable =>
    case Message(bytes, fault) =>
      var h := DecodeHeader(bytes);
      if h.Ok? { DisabledDispatch(w.state, w.memory, h.value, bytes[HEADER_SIZE..], fault); }
  }

  /** Once disabled, by a boot or by the guest starting otherwise, nothing changes any more. */
  lemma {:induction false} DisabledForever(memory: Memory, past: seq<Event>, future: seq<Event>)
    requires Run(memory, past).state.phase == Disabled
    ensures
      var before, after := Run(memory, past), Run(memory, past + future);
      after.state.phase == Disabled && after.memory == before.memory && after.launches == before.launches
  {
    if future == [] {
      assert past + future == past;
    } else {
      var front := future[..|future| - 1];
      DisabledForever(memory, past, front);
      var all := past + future;
      assert all[..|all| - 1] == past + front && all[|all| - 1] == future[|future| - 1];
      DisabledNext(Run(memory, past + front), future[|future| - 1]);
    }
  }

  ghost predicate Unmoved(s: State, m: Memory, o: Outcome) {
    o.response.header.arg0 != 0 ==>
      && o.state == s && o.action.NoAction?
      && (o.response.header.arg0 != 7 ==> o.memory == m)
  }

  lemma StepsUnmoved(s: State, m: Memory, h: Header, body: seq<byte>, fault: Option<Memory>)
    requires Shaped(s)
    ensures Unmoved(s, m, BeginImageStep(s, m, h, body)) && Unmoved(s, m, DataStep(s, m, h, body, fault))
    ensures Unmoved(s, m, EndImageStep(s, m, h, fault)) && Unmoved(s, m, CommitStep(s, m, h))
    ensures Unmoved(s, m, AbortStep(s, m, h)) && Unmoved(s, m, BootStep(s, m, h))
  {
  }

  /** A rejected request changes no loader state; memory changes only if storage itself failed. */
  lemma RejectedIsUnchanged(s: State, m: Memory, h: Header, body: seq<byte>, fault: Option<Memory>)
    requires Shaped(s)
    ensures Unmoved(s, m, Dispatch(s, m, h, body, fault))
  {
    StepsUnmoved(s, m, h, body, fault);
  }
}
