/**
 A frame's whole way between the guest's memory and the host's transfer blocks. The device, the bridge
 and the transmit path run together here, each as its own module has it, in any order of their steps:
 what waits in the bridge is what the device handed over, and what leaves for the host is what waited,
 in the block that the transmit path encodes.
 */
module Journey {
  import opened Types
  import opened Virtqueue
  import opened Scatter
  import Ncm
  import T = Transmit
  import V = VirtioNet
  import VR = VirtioRuns
  import B = Bridge

  type Frame = B.Frame

  /** Where a frame for the host is from: read from a chain between two accesses, or the reply to a frame. */
  datatype Source = Read(chain: seq<Descriptor>, from: nat, to: nat) | Reply(request: Frame)

  /** Where a frame for the guest is from: datagram `i` of a block, or the reply to a frame. */
  datatype Origin = Datagram(ntb: seq<byte>, i: nat) | Answered(request: Frame)

  /** The accesses that laid a frame over a chain. */
  datatype Landing = Landing(chain: seq<Descriptor>, from: nat, to: nat)

  /** Frames that left together, and the block they left in unless the filter stopped them all. */
  datatype Block = Block(frames: seq<Frame>, filter: nat, ntb: Option<seq<byte>>)

  /** `sources` and `origins` say where each frame of the bridge's ledgers is from, `landings` where it went. */
  datatype World = World(
    net: V.Net, host: Host, bridge: B.World,
    sources: seq<Source>, origins: seq<Origin>, blocks: seq<Block>, landings: seq<Landing>)

  datatype Event =
    | Register(offset: nat, size: nat, value: nat)
    | DeviceHands
    | DeviceTakes
    | Arrives(ntb: seq<byte>, i: nat)
    | Leaves(offer: T.Offer)
    | LinkSet(up: bool)
    | LinkChanged
    | LinkDown
    | DeviceStopped

  function Start(env: Env, link: bool): World { World(V.New(link), Host(env, []), B.START, [], [], [], []) }

  function ChainOf(t: V.Take): seq<Descriptor> { if t.taken.Got? then t.taken.chain else [] }

  function Wanted(taken: bool, l: Landing): seq<Landing> { if taken then [l] else [] }

  /** Replies the bridge has added to a ledger, by the frame they answer. */
  function Replies(n: nat, request: Frame): seq<Source> { seq(n, _ => Reply(request)) }

  function LandedBy(before: Host, after: Host, chain: seq<Descriptor>): Landing {
    Landing(chain, |before.log|, if |after.log| >= 3 then |after.log| - 3 else 0)
  }

  /** The guest's next frame, taken only while the host queue has a spare slot. */
  function Handed(w: World): World {
    var o, chain := V.Transmit(w.net, w.host), ChainOf(V.TakeNext(w.net.tx, w.host, false));
    if |w.bridge.bridge.host| >= B.QUEUE_SIZE then w
    else if o.frame == [] then w.(net := o.net, host := o.host)
    else
      w.(net := o.net, host := o.host, bridge := B.Next(w.bridge, B.FromGuest(o.frame)),
         sources := w.sources + (if B.Forwards(o.frame) then [Read(chain, |w.host.log|, |o.host.log|)] else []),
         origins := w.origins + (if B.Answer(o.frame).Some? then [Answered(o.frame)] else []))
  }

  /** The device is offered the oldest frame that waits for the guest. */
  function Taken(w: World): World {
    if w.bridge.bridge.guest == [] then w
    else
      var o := V.Receive(w.net, w.host, w.bridge.bridge.guest[0]);
      var l := LandedBy(w.host, o.host, ChainOf(V.TakeNext(w.net.rx, w.host, true)));
      w.(net := o.net, host := o.host, bridge := B.Next(w.bridge, B.ToGuest(o.accepted)),
         landings := w.landings + Wanted(o.accepted, l))
  }

  /** With nothing waiting for the guest the device is asked at once. */
  function Asked(w: World, frame: Frame): V.Delivery {
    if B.Forwards(frame) && w.bridge.bridge.guest == [] then V.Receive(w.net, w.host, frame)
    else V.Delivery(w.net, w.host, false)
  }

  /** A frame of a block from the host. */
  function Arrived(w: World, frame: Frame, origin: Origin): World {
    var o := Asked(w, frame);
    var l := LandedBy(w.host, o.host, ChainOf(V.TakeNext(w.net.rx, w.host, true)));
    var b := B.Next(w.bridge, B.FromHost(frame, o.accepted));
    World(o.net, o.host, b,
          w.sources + Replies(if |b.egress| > |w.bridge.egress| then |b.egress| - |w.bridge.egress| else 0, frame),
          w.origins + (if B.Forwards(frame) then [origin] else []), w.blocks,
          w.landings + Wanted(o.accepted, l))
  }

  /** What the link takes from the front of the host queue leaves in the block it was encoded into. */
  ghost function Departed(w: World, offer: T.Offer): World {
    var queue := w.bridge.bridge.host;
    var t := T.Sent(queue, offer);
    if t.consumed == 0 || t.consumed > |queue| then w
    else
      w.(bridge := B.Next(w.bridge, B.ToHost(t.consumed)),
         blocks := w.blocks + [Block(queue[..t.consumed], offer.filter, t.ntb)])
  }

  ghost function Next(w: World, e: Event): World {
    match e
    case Register(offset, size, value) => Stored(w, offset, size, value)
    case DeviceHands => Handed(w)
    case DeviceTakes => Taken(w)
    case Arrives(ntb, i) => if IsDatagram(ntb, i) then Arrived(w, DatagramOf(ntb, i), Datagram(ntb, i)) else w
    case Leaves(offer) => Departed(w, offer)
    case LinkSet(up) => Linked(w, up)
    case LinkChanged => Cleared(w)
    case LinkDown => Dropped(w)
    case DeviceStopped => Stopped(w)
  }

  /** The guest writes a device register; an access of the wrong size changes nothing. */
  function Stored(w: World, offset: nat, size: nat, value: nat): World {
    var n := V.WriteRegister(w.net, offset, size, value);
    if n.None? then w else w.(net := n.value)
  }

  function Linked(w: World, up: bool): World { w.(net := V.SetLink(w.net, up)) }

  /** Both queues are cleared, or one: the ledgers of what went through them start over. */
  function Cleared(w: World): World { World(w.net, w.host, B.Next(w.bridge, B.LinkChanged), [], [], [], []) }

  function Dropped(w: World): World { w.(bridge := B.Next(w.bridge, B.LinkDown), sources := [], blocks := []) }

  function Stopped(w: World): World {
    w.(bridge := B.Next(w.bridge, B.DeviceStopped), origins := [], landings := [])
  }

  predicate IsDatagram(ntb: seq<byte>, i: nat) { Ncm.Decode(ntb).Ok? && i < |Ncm.Decode(ntb).value| }

  function DatagramOf(ntb: seq<byte>, i: nat): Frame
    requires IsDatagram(ntb, i)
  {
    Ncm.DecodeSafe(ntb);
    var d := Ncm.Decode(ntb).value[i];
    ntb[d.offset..d.offset + d.length]
  }

  ghost function Run(env: Env, link: bool, events: seq<Event>): World {
    if events == [] then Start(env, link)
    else Next(Run(env, link, events[..|events| - 1]), events[|events| - 1])
  }

  // ---- What the ledgers say ------------------------------------------------------------------------

  /** Every byte of the frame was in guest memory, at its place in the chain, while it was read. */
  ghost predicate ReadFrom(h: Host, s: Source, frame: Frame)
    requires s.Read?
  {
    && s.to <= |h.log| && Total(s.chain) == V.HEADER_SIZE + |frame|
    && forall j: nat :: j < |frame| ==> ByteRead(h, s, frame, j)
  }

  ghost predicate ByteRead(h: Host, s: Source, frame: Frame, j: nat)
    requires s.Read? && j < |frame| && Total(s.chain) == V.HEADER_SIZE + |frame|
  {
    Found(h.env, s.from, s.to, Where(s.chain, V.HEADER_SIZE + j), frame[j])
  }

  ghost predicate Sourced(h: Host, s: Source, frame: Frame) {
    match s
    case Read(_, _, _) => ReadFrom(h, s, frame)
    case Reply(request) => B.Answer(request) == Some(frame)
  }

  ghost predicate Originates(o: Origin, frame: Frame) {
    match o
    case Datagram(ntb, i) => IsDatagram(ntb, i) && frame == DatagramOf(ntb, i)
    case Answered(request) => B.Answer(request) == Some(frame)
  }

  /** Those accesses put header and frame over the chain, whatever memory held before. */
  ghost predicate Landed(h: Host, l: Landing, frame: Frame) {
    && l.from <= l.to <= |h.log| && V.HEADER_SIZE + |frame| <= Total(l.chain)
    && (Disjoint(l.chain) ==>
          forall m: Memory, j: nat :: j < V.HEADER_SIZE + |frame| ==> ByteLanded(h, l, frame, m, j))
  }

  ghost predicate ByteLanded(h: Host, l: Landing, frame: Frame, m: Memory, j: nat)
    requires l.from <= l.to <= |h.log| && j < V.HEADER_SIZE + |frame| <= Total(l.chain)
  {
    Effect(m, h.log[..l.to], l.from)(Where(l.chain, j)) == if j < 12 then if j == 10 then 1 else 0 else frame[j - 12]
  }

  function Left(blocks: seq<Block>): seq<Frame> {
    if blocks == [] then [] else Left(blocks[..|blocks| - 1]) + blocks[|blocks| - 1].frames
  }

  ghost predicate Sources(h: Host, sources: seq<Source>, egress: seq<Frame>) {
    |sources| == |egress| && forall i: nat :: i < |egress| ==> Sourced(h, sources[i], egress[i])
  }

  ghost predicate Origins(origins: seq<Origin>, offered: seq<Frame>) {
    |origins| == |offered| && forall i: nat :: i < |offered| ==> Originates(origins[i], offered[i])
  }

  ghost predicate Landings(h: Host, landings: seq<Landing>, given: seq<Frame>) {
    |landings| == |given| && forall i: nat :: i < |given| ==> Landed(h, landings[i], given[i])
  }

  ghost predicate Blocks(blocks: seq<Block>, sent: seq<Frame>) {
    && Left(blocks) == sent
    && forall k: nat :: k < |blocks| ==> Carried(blocks[k])
  }

  ghost predicate Carried(b: Block) { T.Carries(b.ntb, T.Accepted(b.frames, b.filter), Ncm.NTB_SIZE) }

  ghost predicate Inv(w: World) {
    && B.Inv(w.bridge) && Sources(w.host, w.sources, w.bridge.egress) && Origins(w.origins, w.bridge.offered)
    && Blocks(w.blocks, w.bridge.sent) && Landings(w.host, w.landings, w.bridge.given)
  }

  // ---- What lasts ------------------------------------------------------------------------------------

  lemma SourcesLast(h: Host, h': Host, sources: seq<Source>, egress: seq<Frame>)
    requires Sources(h, sources, egress) && Extends(h, h')
    ensures Sources(h', sources, egress)
  {
    forall i: nat | i < |egress| ensures Sourced(h', sources[i], egress[i]) {
      assert Sourced(h, sources[i], egress[i]);
      if sources[i].Read? {
        forall j: nat | j < |egress[i]| ensures ByteRead(h', sources[i], egress[i], j) {
          assert ByteRead(h, sources[i], egress[i], j);
        }
      }
    }
  }

  lemma LandedLasts(h: Host, h': Host, l: Landing, frame: Frame)
    requires Landed(h, l, frame) && Extends(h, h')
    ensures Landed(h', l, frame)
  {
    assert h'.log[..l.to] == h.log[..l.to];
    if Disjoint(l.chain) {
      forall m: Memory, j: nat | j < V.HEADER_SIZE + |frame| ensures ByteLanded(h', l, frame, m, j) {
        assert ByteLanded(h, l, frame, m, j);
      }
    }
  }

  lemma LandingsLast(h: Host, h': Host, landings: seq<Landing>, given: seq<Frame>)
    requires Landings(h, landings, given) && Extends(h, h')
    ensures Landings(h', landings, given)
  {
    forall i: nat | i < |given| ensures Landed(h', landings[i], given[i]) {
      LandedLasts(h, h', landings[i], given[i]);
    }
  }

  // ---- One step each ------------------------------------------------------------------------------------

  /** What the device hands over was read from guest memory during the call. */
  lemma HandedIsRead(n: V.Net, h: Host)
    requires V.Transmit(n, h).frame != []
    ensures
      var o := V.Transmit(n, h);
      ReadFrom(o.host, Read(ChainOf(V.TakeNext(n.tx, h, false)), |h.log|, |o.host.log|), o.frame)
  {
    var o := V.Transmit(n, h);
    var s := Read(ChainOf(V.TakeNext(n.tx, h, false)), |h.log|, |o.host.log|);
    VR.TransmitStep(n, h);
    VR.TransmittedFrame(n, h, 0);
    forall j: nat | j < |o.frame| ensures ByteRead(o.host, s, o.frame, j) { VR.TransmittedFrame(n, h, j); }
  }

  /** What the device takes lands in the chain it found. */
  lemma TakenLands(n: V.Net, h: Host, frame: Frame)
    requires V.Receive(n, h, frame).accepted
    ensures
      var o := V.Receive(n, h, frame);
      Landed(o.host, LandedBy(h, o.host, ChainOf(V.TakeNext(n.rx, h, true))), frame)
  {
    var o, chain := V.Receive(n, h, frame), ChainOf(V.TakeNext(n.rx, h, true));
    var none: Memory := (a: nat) => 0;
    VR.ReceivedFrame(n, h, frame, none, 0);
    var l := LandedBy(h, o.host, chain);
    if Disjoint(chain) {
      forall m: Memory, j: nat | j < V.HEADER_SIZE + |frame| ensures ByteLanded(o.host, l, frame, m, j) {
        VR.ReceivedFrame(n, h, frame, m, j);
      }
    }
  }

  /** What the device hands over is a legal frame. */
  lemma HandedOk(n: V.Net, h: Host)
    ensures var frame := V.Transmit(n, h).frame; frame == [] || FrameOk(frame)
  {
    if V.Transmit(n, h).frame != [] { VR.TransmittedFrame(n, h, 0); }
  }

  lemma HandedExtends(n: V.Net, h: Host)
    ensures Extends(h, V.Transmit(n, h).host)
  {
    VR.TransmitStep(n, h);
  }

  lemma TakenExtends(n: V.Net, h: Host, frame: Frame)
    ensures Extends(h, V.Receive(n, h, frame).host)
  {
    VR.ReceiveStep(n, h, frame);
  }

  lemma HandsKeeps(w: World)
    requires Inv(w)
    ensures Inv(Handed(w))
  {
    var o := V.Transmit(w.net, w.host);
    HandedExtends(w.net, w.host);
    SourcesLast(w.host, o.host, w.sources, w.bridge.egress);
    LandingsLast(w.host, o.host, w.landings, w.bridge.given);
    if o.frame != [] && |w.bridge.bridge.host| < B.QUEUE_SIZE {
      HandedIsRead(w.net, w.host);
      B.NextKeeps(w.bridge, B.FromGuest(o.frame));
    }
  }

  lemma TakesKeeps(w: World)
    requires Inv(w)
    ensures Inv(Taken(w))
  {
    if w.bridge.bridge.guest != [] {
      var frame := w.bridge.bridge.guest[0];
      var o := V.Receive(w.net, w.host, frame);
      TakenExtends(w.net, w.host, frame);
      SourcesLast(w.host, o.host, w.sources, w.bridge.egress);
      LandingsLast(w.host, o.host, w.landings, w.bridge.given);
      B.NextKeeps(w.bridge, B.ToGuest(o.accepted));
      if o.accepted { TakenLands(w.net, w.host, frame); }
    }
  }

  /** A host frame adds at most its own reply to what leaves for the host. */
  lemma EgressGrows(h: Host, sources: seq<Source>, w: B.World, frame: Frame, taken: bool)
    requires Sources(h, sources, w.egress)
    ensures
      var b := B.Next(w, B.FromHost(frame, taken));
      && |b.egress| >= |w.egress|
      && Sources(h, sources + Replies(|b.egress| - |w.egress|, frame), b.egress)
  {
    assert w.egress + [] == w.egress;
  }

  /** What a host frame adds to the guest's ledgers. */
  lemma GivenGrows(w: B.World, frame: Frame, taken: bool)
    ensures
      var b := B.Next(w, B.FromHost(frame, taken));
      && b.offered == w.offered + (if B.Forwards(frame) then [frame] else [])
      && b.given == w.given + (if B.Forwards(frame) && w.bridge.guest == [] && taken then [frame] else [])
  {
  }

  lemma ArrivesKeeps(w: World, frame: Frame, origin: Origin)
    requires Inv(w) && Originates(origin, frame)
    ensures Inv(Arrived(w, frame, origin))
  {
    var o := Asked(w, frame);
    if B.Forwards(frame) && w.bridge.bridge.guest == [] { TakenExtends(w.net, w.host, frame); }
    SourcesLast(w.host, o.host, w.sources, w.bridge.egress);
    LandingsLast(w.host, o.host, w.landings, w.bridge.given);
    B.NextKeeps(w.bridge, B.FromHost(frame, o.accepted));
    EgressGrows(o.host, w.sources, w.bridge, frame, o.accepted);
    GivenGrows(w.bridge, frame, o.accepted);
    if o.accepted { TakenLands(w.net, w.host, frame); }
  }

  lemma {:induction false} LeftSnoc(blocks: seq<Block>, b: Block)
    ensures Left(blocks + [b]) == Left(blocks) + b.frames
  {
    assert (blocks + [b])[..|blocks|] == blocks;
  }

  /** Taking nothing is no step of the bridge. */
  lemma DepartedBridge(w: World, offer: T.Offer)
    requires T.Sent(w.bridge.bridge.host, offer).consumed <= |w.bridge.bridge.host|
    ensures Departed(w, offer).bridge == B.Next(w.bridge, B.ToHost(T.Sent(w.bridge.bridge.host, offer).consumed))
  {
    assert w.bridge.sent + [] == w.bridge.sent;
  }

  /** The block a call of the transmit path makes carries the frames it takes. */
  lemma SentIsCarried(queue: seq<Frame>, offer: T.Offer)
    requires T.AllOk(queue)
    ensures
      var t := T.Sent(queue, offer);
      t.consumed <= |queue| && Carried(Block(queue[..t.consumed], offer.filter, t.ntb))
  {
    var kept := T.SentCarries(queue, offer);
    assert T.Carries(T.Sent(queue, offer).ntb, kept, Ncm.NTB_SIZE);
  }

  lemma LeavesKeeps(w: World, offer: T.Offer)
    requires Inv(w)
    ensures Inv(Departed(w, offer))
  {
    var queue := w.bridge.bridge.host;
    var t := T.Sent(queue, offer);
    SentIsCarried(queue, offer);
    BatchKeeps(w, t.consumed, Block(queue[..t.consumed], offer.filter, t.ntb));
  }

  /** Frames from the front of the queue, gone together in one block. */
  lemma BatchKeeps(w: World, n: nat, block: Block)
    requires Inv(w) && n <= |w.bridge.bridge.host| && block.frames == w.bridge.bridge.host[..n] && Carried(block)
    ensures Inv(w.(bridge := B.Next(w.bridge, B.ToHost(n)), blocks := w.blocks + [block]))
  {
    B.NextKeeps(w.bridge, B.ToHost(n));
    BlocksGrow(w.blocks, w.bridge.sent, block);
  }

  lemma {:induction false} BlocksGrow(blocks: seq<Block>, sent: seq<Frame>, b: Block)
    requires Blocks(blocks, sent) && Carried(b)
    ensures Blocks(blocks + [b], sent + b.frames)
  {
    LeftSnoc(blocks, b);
    var more := blocks + [b];
    forall k: nat | k < |more| ensures Carried(more[k]) {
      if k < |blocks| { assert more[k] == blocks[k]; }
    }
  }

  lemma NextKeeps(w: World, e: Event)
    requires Inv(w)
    ensures Inv(Next(w, e))
  {
    match e
    case DeviceHands => HandsKeeps(w);
    case DeviceTakes => TakesKeeps(w);
    case Arrives(ntb, i) => if IsDatagram(ntb, i) { ArrivesKeeps(w, DatagramOf(ntb, i), Datagram(ntb, i)); }
    case Leaves(offer) => LeavesKeeps(w, offer);
    case _ => LinkKeeps(w, e);
  }

  /** Neither the registers nor the link make a frame; what clears a queue starts its ledgers over. */
  lemma LinkKeeps(w: World, e: Event)
    requires Inv(w) && (e.Register? || e.LinkSet? || e.LinkChanged? || e.LinkDown? || e.DeviceStopped?)
    ensures Inv(Next(w, e))
  {
    B.NextKeeps(w.bridge, B.LinkChanged);
    B.NextKeeps(w.bridge, B.LinkDown);
    B.NextKeeps(w.bridge, B.DeviceStopped);
  }

  lemma {:induction false} RunLast(env: Env, link: bool, events: seq<Event>, e: Event)
    ensures Run(env, link, events + [e]) == Next(Run(env, link, events), e)
  {
    assert (events + [e])[..|events|] == events;
  }

  lemma {:induction false} RunInv(env: Env, link: bool, events: seq<Event>)
    ensures Inv(Run(env, link, events))
  {
    if events != [] {
      RunInv(env, link, events[..|events| - 1]);
      NextKeeps(Run(env, link, events[..|events| - 1]), events[|events| - 1]);
    }
  }

  // ---- End to end ---------------------------------------------------------------------------------------

  lemma {:induction false} LeftAt(blocks: seq<Block>, i: nat) returns (k: nat, j: nat)
    requires i < |Left(blocks)|
    ensures k < |blocks| && j < |blocks[k].frames| && blocks[k].frames[j] == Left(blocks)[i]
  {
    var front := blocks[..|blocks| - 1];
    if i < |Left(front)| {
      k, j := LeftAt(front, i);
    } else {
      k, j := |blocks| - 1, i - |Left(front)|;
    }
  }

  lemma {:induction false} LeftHas(blocks: seq<Block>, k: nat, f: Frame)
    requires k < |blocks| && f in blocks[k].frames
    ensures f in Left(blocks)
  {
    if k < |blocks| - 1 { LeftHas(blocks[..|blocks| - 1], k, f); }
  }

  lemma {:induction false} AcceptedHas(fs: seq<Frame>, filter: nat, f: Frame)
    ensures f in T.Accepted(fs, filter) <==> f in fs && T.Accepts(f, filter)
  {
    if fs != [] {
      AcceptedHas(fs[..|fs| - 1], filter, f);
      assert fs == fs[..|fs| - 1] + [fs[|fs| - 1]];
    }
  }

  /** A block's datagrams are its accepted frames. */
  lemma Shows(b: Block, i: nat)
    requires Carried(b) && i < |T.Accepted(b.frames, b.filter)|
    ensures b.ntb.Some? && IsDatagram(b.ntb.value, i)
    ensures DatagramOf(b.ntb.value, i) == T.Accepted(b.frames, b.filter)[i]
  {
    var kept := T.Accepted(b.frames, b.filter);
    assert T.Shows(b.ntb.value, Ncm.Decode(b.ntb.value).value[i], kept[i]);
  }

  lemma Shown(b: Block, i: nat) returns (frame: Frame)
    requires Carried(b) && b.ntb.Some? && IsDatagram(b.ntb.value, i)
    ensures frame == DatagramOf(b.ntb.value, i) && frame in T.Accepted(b.frames, b.filter)
  {
    Shows(b, i);
    frame := T.Accepted(b.frames, b.filter)[i];
  }

  /**
   Towards the host, over every run. Whatever a block decodes to is a frame the bridge sent: a reply,
   or a frame every byte of which was in guest memory, in its chain, while the device read it.
   */
  lemma BlockHolds(env: Env, link: bool, events: seq<Event>, k: nat, i: nat) returns (source: Source)
    requires
      var blocks := Run(env, link, events).blocks;
      k < |blocks| && blocks[k].ntb.Some? && IsDatagram(blocks[k].ntb.value, i)
    ensures
      var w := Run(env, link, events);
      var frame := DatagramOf(w.blocks[k].ntb.value, i);
      && frame in w.bridge.sent && source in w.sources && Sourced(w.host, source, frame)
      && T.Accepts(frame, w.blocks[k].filter)
  {
    RunInv(env, link, events);
    var w := Run(env, link, events);
    var b := w.blocks[k];
    var frame := Shown(b, i);
    AcceptedHas(b.frames, b.filter, frame);
    LeftHas(w.blocks, k, frame);
    var at: nat :| at < |w.bridge.sent| && w.bridge.sent[at] == frame;
    assert w.bridge.egress[at] == frame;
    source := w.sources[at];
  }

  /** Frames leave once each and in order: what the blocks took and what waits is all that was queued. */
  lemma LeavesInOrder(env: Env, link: bool, events: seq<Event>)
    ensures
      var w := Run(env, link, events);
      && Left(w.blocks) + w.bridge.bridge.host == w.bridge.egress
      && forall k: nat :: k < |w.blocks| ==> Carried(w.blocks[k])
  {
    RunInv(env, link, events);
  }

  /** And no frame for the host is lost: it still waits, or the filter stopped it, or a block decodes to it. */
  lemma FrameLeaves(env: Env, link: bool, events: seq<Event>, e: nat) returns (k: nat, i: nat)
    requires e < |Run(env, link, events).bridge.egress|
    ensures
      var w := Run(env, link, events);
      var frame := w.bridge.egress[e];
      || (|w.bridge.sent| <= e && e - |w.bridge.sent| < |w.bridge.bridge.host|
          && w.bridge.bridge.host[e - |w.bridge.sent|] == frame)
      || (k < |w.blocks| && frame in w.blocks[k].frames && !T.Accepts(frame, w.blocks[k].filter))
      || (k < |w.blocks| && w.blocks[k].ntb.Some? && IsDatagram(w.blocks[k].ntb.value, i)
          && DatagramOf(w.blocks[k].ntb.value, i) == frame)
  {
    RunInv(env, link, events);
    var w := Run(env, link, events);
    k, i := 0, 0;
    if e < |w.bridge.sent| {
      var j;
      k, j := LeftAt(w.blocks, e);
      var b, frame := w.blocks[k], w.bridge.egress[e];
      assert b.frames[j] == frame;
      if T.Accepts(frame, b.filter) {
        var kept := T.Accepted(b.frames, b.filter);
        AcceptedHas(b.frames, b.filter, frame);
        i :| i < |kept| && kept[i] == frame;
        Shows(b, i);
      }
    }
  }

  /** Positions in one list, each further on than the one before. */
  ghost predicate Rising(at: seq<nat>, n: nat) {
    && (forall k: nat :: k < |at| ==> at[k] < n)
    && forall j: nat, k: nat :: j < k < |at| ==> at[j] < at[k]
  }

  /** A subsequence as its positions. */
  lemma {:induction false} SubsequenceAt(a: seq<Frame>, b: seq<Frame>) returns (at: seq<nat>)
    requires B.Subsequence(a, b)
    ensures |at| == |a| && Rising(at, |b|) && forall k: nat :: k < |a| ==> b[at[k]] == a[k]
    decreases |b|
  {
    if a == [] {
      at := [];
    } else {
      var front := b[..|b| - 1];
      if B.Subsequence(a, front) {
        at := SubsequenceAt(a, front);
      } else {
        at := SubsequenceAt(a[..|a| - 1], front);
        at := at + [|b| - 1];
      }
    }
  }

  /**
   Towards the guest, over every run. What landed in guest memory, header first and over disjoint buffers
   byte for byte, are datagrams of blocks from the host and replies, in the order in which they came,
   each at most once.
   */
  lemma GuestHolds(env: Env, link: bool, events: seq<Event>) returns (at: seq<nat>)
    ensures
      var w := Run(env, link, events);
      && |at| == |w.bridge.given| == |w.landings| && Rising(at, |w.origins|)
      && forall k: nat :: k < |at| ==>
           Landed(w.host, w.landings[k], w.bridge.given[k]) && Originates(w.origins[at[k]], w.bridge.given[k])
  {
    RunInv(env, link, events);
    var w := Run(env, link, events);
    var all := w.bridge.given + w.bridge.bridge.guest;
    var whole := SubsequenceAt(all, w.bridge.offered);
    at := whole[..|w.bridge.given|];
    forall k: nat | k < |at| ensures Originates(w.origins[at[k]], w.bridge.given[k]) {
      assert all[k] == w.bridge.given[k];
    }
  }
}
