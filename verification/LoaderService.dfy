/** The loader as the program keeps it: fields, an array of image slots, and storage it writes through. */
module LoaderService {
  import opened Types
  import opened L = Loader
  import Crc

  /** Guest memory behind the storage interface; `fault` is what a failing access leaves behind. */
  class Storage {
    var memory: Memory

    constructor (m: Memory)
      ensures memory == m
    {
      memory := m;
    }

    method Write(address: nat, bytes: seq<byte>, fault: Option<Memory>) returns (ok: bool)
      modifies this
      ensures memory == Store(old(memory), address, bytes, fault) && ok == fault.None?
    {
      memory := Store(memory, address, bytes, fault);
      ok := fault.None?;
    }

    method Zero(address: nat, length: nat, fault: Option<Memory>) returns (ok: bool)
      modifies this
      ensures memory == Store(old(memory), address, Zeros(length), fault) && ok == fault.None?
    {
      memory := Store(memory, address, Zeros(length), fault);
      ok := fault.None?;
    }
  }

  const BLANK := ImageDescriptor(0, 0, 0, 0, 0)

  /** What the fields satisfy between calls, apart from which phase allows what. */
  ghost predicate Tidy(s: State) {
    && |s.images| <= MAX_IMAGES && (s.bundle.Some? ==> s.bundle.value.Valid())
    && (s.current.Some? ==>
          s.current.value.Valid() && s.received <= s.current.value.fileSize && |s.images| < MAX_IMAGES)
  }

  class Loader {
    var phase: Phase
    var bundle: Option<BundleDescriptor>
    const images: array<ImageDescriptor>
    var completed: nat
    var current: Option<ImageDescriptor>
    var received: nat
    var crc: bv32
    var claimed: bool

    ghost predicate Valid()
      reads this, images
    {
      images.Length == MAX_IMAGES && completed <= MAX_IMAGES && Tidy(View())
    }

    ghost function View(): State
      reads this, images
      requires completed <= images.Length
    {
      State(phase, bundle, images[..completed], current, received, crc, claimed)
    }

    constructor ()
      ensures Valid() && fresh(images) && View() == Initial()
    {
      images := new ImageDescriptor[MAX_IMAGES](_ => BLANK);
      phase, bundle, completed, current, received := Idle, None, 0, None, 0;
      crc, claimed := Crc.START, false;
    }

    method Reset(p: Phase)
      requires Valid() && p in {Idle, Disabled}
      modifies this, images
      ensures Valid() && View() == Clear(old(View()), p)
    {
      phase, bundle := p, None;
      for i := 0 to images.Length
        modifies images
      {
        images[i] := BLANK;
      }
      completed, current, received, crc := 0, None, 0, Crc.START;
    }

    method Disable()
      requires Valid()
      modifies this, images
      ensures Valid() && View() == Clear(old(View()), Disabled)
    {
      Reset(Disabled);
    }

    method Reply(h: Header, code: StatusCode, body: seq<byte>) returns (r: Response)
      requires Valid()
      ensures r == Answer(View(), h, code, body)
    {
      var opcode := if h.opcode < REPLY_FLAG then h.opcode + REPLY_FLAG else h.opcode;
      r := Response(Header(opcode, h.requestId, |body|, CodeNumber(code), PhaseNumber(phase)), body);
    }

    method Code(h: Header, code: StatusCode) returns (r: Response)
      requires Valid()
      ensures r == Answer(View(), h, code, [])
    {
      r := Reply(h, code, []);
    }

    method Describe() returns (body: seq<byte>)
      requires Valid()
      ensures body == StatusBody(View())
    {
      var count := if bundle.Some? then bundle.value.imageCount else 0;
      var image := Zeros(24);
      if current.Some? {
        image := Le64(current.value.address) + Le64(current.value.fileSize) + Le64(current.value.runtimeSize);
      }
      body := Le32(PhaseNumber(phase)) + Le32(if claimed then 1 else 0) + Le64(received)
        + Le32(count) + Le32(completed) + image;
    }

    method BeginBundle(h: Header, body: seq<byte>, ghost m: Memory) returns (r: Response)
      requires Valid()
      modifies this
      ensures Valid() && BeginBundleStep(old(View()), m, h, body) == Outcome(View(), m, r, NoAction)
    {
      if phase == Disabled { r := Code(h, GuestRunning); return; }
      if phase != Idle { r := Code(h, BadState); return; }
      if h.arg0 != 0 || h.arg1 != 0 { r := Code(h, BadLength); return; }
      var d := DecodeBundle(body);
      if d.None? { r := Code(h, InvalidDescriptor); return; }
      bundle, phase, claimed := d, Bundle, true;
      r := Code(h, Ok0);
    }

    method Collides(d: ImageDescriptor) returns (found: bool)
      requires Valid()
      ensures found <==> exists i: nat :: i < |View().images| && d.Overlaps(View().images[i])
    {
      for i := 0 to completed
        invariant forall j: nat :: j < i ==> !d.Overlaps(View().images[j])
      {
        if d.Overlaps(images[i]) {
          assert View().images[i] == images[i];
          return true;
        }
      }
      return false;
    }

    method BeginImage(h: Header, body: seq<byte>, ghost m: Memory) returns (r: Response)
      requires Valid()
      modifies this, images
      ensures Valid() && BeginImageStep(old(View()), m, h, body) == Outcome(View(), m, r, NoAction)
    {
      ghost var s := View();
      if phase != Bundle { r := Code(h, BadState); return; }
      if h.arg0 != 0 || h.arg1 != 0 { r := Code(h, BadLength); return; }
      if bundle.None? { Reset(Idle); r := Code(h, BadState); return; }
      if completed >= bundle.value.imageCount { r := Code(h, ImageCount); return; }
      var d := DecodeImage(body);
      if d.None? { r := Code(h, InvalidDescriptor); return; }
      var found := Collides(d.value);
      if found { r := Code(h, Overlap); return; }
      assert !exists i: nat :: i < |s.images| && d.value.Overlaps(s.images[i]);
      current, received, crc, phase := d, 0, Crc.START, Receiving;
      assert View().images == s.images;
      r := Code(h, Ok0);
    }

    method Chunk(h: Header, body: seq<byte>, storage: Storage, fault: Option<Memory>) returns (r: Response)
      requires Valid()
      modifies this, images, storage
      ensures Valid()
      ensures DataStep(old(View()), old(storage.memory), h, body, fault) == Outcome(View(), storage.memory, r, NoAction)
    {
      ghost var s := View();
      if phase != Receiving { r := Code(h, BadState); return; }
      if current.None? { Reset(Idle); r := Code(h, BadState); return; }
      if body == [] { r := Code(h, BadLength); return; }
      var image := current.value;
      if h.arg0 != received || h.arg1 != 0 || received + |body| > image.fileSize {
        r := Code(h, BadOffset);
        return;
      }
      if image.address + received >= U64_LIMIT { r := Code(h, BadOffset); return; }
      var ok := storage.Write(image.address + received, body, fault);
      if !ok { r := Code(h, StorageFault); return; }
      crc := Crc.Update(crc, Octets(body));
      received := received + |body|;
      r := Code(h, Ok0);
      r := r.(header := r.header.(arg1 := received));
    }

    method EndImage(h: Header, storage: Storage, fault: Option<Memory>) returns (r: Response)
      requires Valid()
      modifies this, images, storage
      ensures Valid()
      ensures EndImageStep(old(View()), old(storage.memory), h, fault) == Outcome(View(), storage.memory, r, NoAction)
    {
      ghost var s := View();
      if phase != Receiving { r := Code(h, BadState); return; }
      if current.None? { Reset(Idle); r := Code(h, BadState); return; }
      var image := current.value;
      if received != image.fileSize { r := Code(h, BadLength); return; }
      if Finish(crc) != image.crc32 { r := Code(h, Checksum); return; }
      var size := image.runtimeSize - image.fileSize;
      if size != 0 {
        var ok := storage.Zero(image.address + image.fileSize, size, fault);
        if !ok { r := Code(h, StorageFault); return; }
      }
      Keep(image);
      r := Code(h, Ok0);
    }

    /** The current image is whole. */
    method Keep(image: ImageDescriptor)
      requires Valid() && current.Some?
      modifies this, images
      ensures Valid()
      ensures View() == old(View()).(images := old(View()).images + [image], current := None, received := 0,
                                     crc := Crc.START, phase := Bundle)
    {
      ghost var before := View().images;
      images[completed] := image;
      completed := completed + 1;
      current, received, crc, phase := None, 0, Crc.START, Bundle;
      assert images[..completed] == before + [image];
    }

    method HasEntry(entry: nat) returns (found: bool)
      requires Valid()
      ensures found <==> exists i: nat :: i < |View().images| && View().images[i].ContainsEntry(entry)
    {
      for i := 0 to completed
        invariant forall j: nat :: j < i ==> !View().images[j].ContainsEntry(entry)
      {
        if images[i].ContainsEntry(entry) {
          assert View().images[i] == images[i];
          return true;
        }
      }
      return false;
    }

    method Commit(h: Header, ghost m: Memory) returns (r: Response)
      requires Valid()
      modifies this, images
      ensures Valid() && CommitStep(old(View()), m, h) == Outcome(View(), m, r, NoAction)
    {
      ghost var s := View();
      if phase != Bundle { r := Code(h, BadState); return; }
      if bundle.None? { Reset(Idle); r := Code(h, BadState); return; }
      if completed != bundle.value.imageCount { r := Code(h, ImageCount); return; }
      var found := HasEntry(bundle.value.entry);
      if !found { r := Code(h, EntryPoint); return; }
      phase := Ready;
      assert View() == CommitStep(s, m, h).state;
      r := Code(h, Ok0);
    }

    method Abort(h: Header, ghost m: Memory) returns (r: Response)
      requires Valid()
      modifies this, images
      ensures Valid() && AbortStep(old(View()), m, h) == Outcome(View(), m, r, NoAction)
    {
      if phase == Idle || phase == Disabled { r := Code(h, BadState); return; }
      Reset(Idle);
      r := Code(h, Ok0);
    }

    method Boot(h: Header, ghost m: Memory) returns (r: Response, action: Action)
      requires Valid()
      modifies this, images
      ensures Valid() && BootStep(old(View()), m, h) == Outcome(View(), m, r, action)
    {
      action := NoAction;
      if phase != Ready { r := Code(h, BadState); return; }
      if bundle.None? { Reset(Idle); r := Code(h, BadState); return; }
      var b := bundle.value;
      Reset(Disabled);
      r := Code(h, Ok0);
      action := BootGuest(b);
    }

    method Wordless(op: Opcode, h: Header, storage: Storage, fault: Option<Memory>)
      returns (r: Response, action: Action)
      requires Valid() && DecodeOpcode(h.opcode) == Some(op) && op !in {Opcode.BeginBundle, Opcode.BeginImage, Data}
      requires h.arg0 == 0 && h.arg1 == 0
      modifies this, images, storage
      ensures Valid()
      ensures Dispatch(old(View()), old(storage.memory), h, [], fault) == Outcome(View(), storage.memory, r, action)
    {
      action := NoAction;
      ghost var m := storage.memory;
      match op
      case Hello => r := Reply(h, Ok0, HelloBody());
      case Status =>
        var text := Describe();
        r := Reply(h, Ok0, text);
      case EndImage => r := EndImage(h, storage, fault);
      case CommitBundle => r := Commit(h, m);
      case Abort => r := Abort(h, m);
      case Boot => r, action := Boot(h, m);
    }

    method Run(h: Header, body: seq<byte>, storage: Storage, fault: Option<Memory>)
      returns (r: Response, action: Action)
      requires Valid()
      modifies this, images, storage
      ensures Valid()
      ensures Dispatch(old(View()), old(storage.memory), h, body, fault) == Outcome(View(), storage.memory, r, action)
    {
      action := NoAction;
      ghost var m := storage.memory;
      var op := DecodeOpcode(h.opcode);
      var empty := body == [] && h.arg0 == 0 && h.arg1 == 0;
      match op
      case None => r := Code(h, UnknownOpcode);
      case Some(BeginBundle) => r := BeginBundle(h, body, m);
      case Some(BeginImage) => r := BeginImage(h, body, m);
      case Some(Data) => r := Chunk(h, body, storage, fault);
      case Some(other) =>
        if empty {
          r, action := Wordless(other, h, storage, fault);
        } else {
          r := Code(h, BadLength);
        }
    }

    /** One message, answered as the specification answers it. */
    method Handle(message: seq<byte>, storage: Storage, fault: Option<Memory>)
      returns (r: Result<(Response, Action), ProtocolError>)
      requires Valid()
      modifies this, images, storage
      ensures Valid()
      ensures L.Handle(old(View()), old(storage.memory), message, fault)
           == (match r
               case Err(e) => Err(e)
               case Ok(answer) => Ok(Outcome(View(), storage.memory, answer.0, answer.1)))
      ensures r.Err? ==> View() == old(View()) && storage.memory == old(storage.memory)
    {
      var h := DecodeHeader(message);
      if h.Err? { return Err(h.error); }
      if h.value.opcode >= REPLY_FLAG { return Err(ProtocolError.Reply); }
      var response, action := Run(h.value, message[HEADER_SIZE..], storage, fault);
      return Ok((response, action));
    }
  }
}
