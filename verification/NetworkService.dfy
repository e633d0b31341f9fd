/** The bounded service loop over the device, the bridge and the link: each call is a run of frames' journeys. */
module NetworkService {
  import opened Types
  import opened FrameRing
  import opened Virtqueue
  import B = Bridge
  import J = Journey
  import T = Transmit
  import V = VirtioNet
  import BridgeService
  import VirtioDriver
  import VirtioDevice

  const ROUNDS := 16

  /** What the link does in one round: what it offers the transmit path, and datagram `i` of a block if one came. */
  datatype Round = Round(offer: T.Offer, arrived: Option<(Bytes, nat)>)

  datatype Moved = Moved(world: J.World, progressed: bool)

  ghost function Left(w: J.World, o: T.Offer): Moved {
    Moved(J.Departed(w, o), T.Sent(w.bridge.bridge.host, o).consumed != 0)
  }

  ghost function Taken(w: J.World): Moved {
    var queue := w.bridge.bridge.guest;
    Moved(J.Taken(w), queue != [] && V.Receive(w.net, w.host, queue[0]).accepted)
  }

  ghost function Arrived(w: J.World, arrived: Option<(Bytes, nat)>): Moved {
    if arrived.None? || !J.IsDatagram(arrived.value.0, arrived.value.1) then Moved(w, false)
    else
      var (ntb, i) := arrived.value;
      Moved(J.Arrived(w, J.DatagramOf(ntb, i), J.Datagram(ntb, i)), true)
  }

  ghost function Handed(w: J.World): Moved {
    Moved(J.Handed(w), |w.bridge.bridge.host| < B.QUEUE_SIZE && V.Transmit(w.net, w.host).frame != [])
  }

  /** One round in the loop's order. */
  ghost function Turned(w: J.World, r: Round): Moved {
    var a := Left(w, r.offer);
    var b := Taken(a.world);
    var c := Arrived(b.world, r.arrived);
    var d := Handed(c.world);
    Moved(d.world, a.progressed || b.progressed || c.progressed || d.progressed)
  }

  ghost function Serviced(w: J.World, rounds: seq<Round>): J.World
    decreases |rounds|
  {
    if rounds == [] then w
    else
      var turned := Turned(w, rounds[0]);
      if turned.progressed then Serviced(turned.world, rounds[1..]) else turned.world
  }

  /** What the link and the device have become clears the queues they fed. */
  ghost function Followed(w: J.World, was: bool, up: bool): J.World {
    Emptied(J.Linked(if was != up then J.Cleared(w) else w, up), up)
  }

  ghost function Emptied(w: J.World, up: bool): J.World {
    var b := if V.Running(w.net) then w else J.Stopped(w);
    if up then b else J.Dropped(b)
  }

  lemma {:induction false} OneRound(w: J.World, rounds: seq<Round>, i: nat)
    requires i < |rounds|
    ensures
      var turned := Turned(w, rounds[i]);
      Serviced(w, rounds[i..]) == if turned.progressed then Serviced(turned.world, rounds[i + 1..]) else turned.world
  {
    assert rounds[i..][1..] == rounds[i + 1..] && rounds[i..][0] == rounds[i];
  }

  class Network {
    const bridge: BridgeService.Bridge
    const device: VirtioDevice.NetDevice
    const memory: VirtioDriver.GuestMemory
    const output: array<byte>
    var link: bool
    ghost var world: J.World

    ghost predicate Ready()
      reads this, bridge, bridge.host, bridge.guest, bridge.host.bytes, bridge.host.lengths
      reads bridge.guest.bytes, bridge.guest.lengths, device, device.chain, device.chain.segments
    {
      bridge.Valid() && device.Valid()
    }

    /** What the fields hold, as far as a step can change it. */
    ghost function Parts(): (V.Net, Host, B.World)
      reads bridge, device, device.rx, device.tx, memory
    {
      (device.View(), memory.View(), bridge.world)
    }

    /** The world has in it what the fields hold. */
    ghost predicate Valid()
      reads this, bridge, bridge.host, bridge.guest, bridge.host.bytes, bridge.host.lengths
      reads bridge.guest.bytes, bridge.guest.lengths, device, device.rx, device.tx, device.chain
      reads device.chain.segments, memory
    {
      Ready() && (world.net, world.host, world.bridge) == Parts()
    }

    constructor (b: BridgeService.Bridge, d: VirtioDevice.NetDevice, m: VirtioDriver.GuestMemory, room: array<byte>)
      requires b.Valid() && d.Valid() && b.world == B.START && d.View() == V.New(false) && m.log == []
      ensures bridge == b && device == d && memory == m && output == room
      ensures Valid() && world == J.Start(m.env, false) && !link
    {
      bridge, device, memory, output := b, d, m, room;
      link, world := false, J.Start(m.env, false);
    }

    // ---- One part at a time ------------------------------------------------------------------------

    /** The device is asked to take a frame for the guest. */
    method Offer(frame: Bytes) returns (taken: bool)
      requires Ready()
      modifies device, device.rx, device.chain, device.chain.segments, memory
      ensures Ready()
      ensures
        var (net, host, b) := old(Parts());
        var o := V.Receive(net, host, frame);
        Parts() == (o.net, o.host, b) && taken == o.accepted
    {
      taken := device.Receive(memory, frame);
    }

    /** With nothing waiting for the guest the device is asked at once. */
    method Bypass(frame: Bytes) returns (taken: bool)
      requires Valid()
      modifies device, device.rx, device.chain, device.chain.segments, memory
      ensures Ready()
      ensures var o := J.Asked(world, frame); Parts() == (o.net, o.host, world.bridge) && taken == o.accepted
    {
      taken := false;
      if B.Forwards(frame) && bridge.guest.count == 0 { taken := Offer(frame); }
    }

    ghost method NoteArrival(frame: Bytes, origin: J.Origin)
      requires Ready()
      requires
        var o := J.Asked(world, frame);
        Parts() == (o.net, o.host, B.Next(world.bridge, B.FromHost(frame, o.accepted)))
      modifies this`world
      ensures Valid() && world == J.Arrived(old(world), frame, origin)
    {
      world := J.Arrived(world, frame, origin);
    }

    /** The device is asked for the guest's next frame. */
    method Fetch() returns (frame: Bytes)
      requires Ready()
      modifies device, device.tx, device.chain, device.chain.segments, memory
      ensures Ready() && (frame == [] || FrameOk(frame))
      ensures
        var (net, host, b) := old(Parts());
        var o := V.Transmit(net, host);
        Parts() == (o.net, o.host, b) && frame == o.frame
    {
      J.HandedOk(device.View(), memory.View());
      frame := device.Transmit(memory);
    }

    method FromHost(frame: Bytes, taken: bool)
      requires Ready()
      modifies bridge, bridge.host, bridge.guest
      modifies bridge.host.bytes, bridge.host.lengths, bridge.guest.bytes, bridge.guest.lengths
      ensures Ready()
      ensures var (net, host, b) := old(Parts()); Parts() == (net, host, B.Next(b, B.FromHost(frame, taken)))
    {
      bridge.FromHost(frame, taken);
    }

    method FromGuest(frame: Bytes)
      requires Ready() && FrameOk(frame) && bridge.host.count < B.QUEUE_SIZE
      modifies bridge, bridge.host, bridge.guest
      modifies bridge.host.bytes, bridge.host.lengths, bridge.guest.bytes, bridge.guest.lengths
      ensures Ready()
      ensures var (net, host, b) := old(Parts()); Parts() == (net, host, B.Next(b, B.FromGuest(frame)))
    {
      bridge.FromGuest(frame);
    }

    method ToGuest(taken: bool)
      requires Ready() && bridge.guest.count > 0
      modifies bridge, bridge.guest
      ensures Ready()
      ensures var (net, host, b) := old(Parts()); Parts() == (net, host, B.Next(b, B.ToGuest(taken)))
    {
      bridge.ToGuest(taken);
    }

    // ---- The steps of a round -------------------------------------------------------------------------

    /** A store by the guest to a device register. */
    method Register(offset: nat, size: nat, value: nat) returns (ok: bool)
      requires Valid()
      modifies this`world, device, device.rx, device.tx
      ensures Valid() && world == J.Stored(old(world), offset, size, value)
    {
      ok := device.Write(offset, size, value);
      world := J.Stored(world, offset, size, value);
    }

    method Leave(o: T.Offer) returns (progressed: bool)
      requires Valid() && o.capacity <= output.Length && o.sequence < 65536
      modifies this`world, bridge`world, bridge.host, output
      ensures Valid() && Moved(world, progressed) == Left(old(world), o)
    {
      var consumed, sent := bridge.Send(o, output);
      J.DepartedBridge(world, o);
      world := J.Departed(world, o);
      progressed := consumed != 0;
    }

    method Take() returns (progressed: bool)
      requires Valid()
      modifies this`world, bridge, bridge.guest
      modifies device, device.rx, device.chain, device.chain.segments, memory
      ensures Valid() && Moved(world, progressed) == Taken(old(world))
    {
      progressed := false;
      var front := bridge.guest.Front();
      if front.Some? { progressed := OfferFront(front.value); }
      world := J.Taken(world);
    }

    method OfferFront(frame: Bytes) returns (taken: bool)
      requires Valid() && bridge.guest.count > 0 && frame == world.bridge.bridge.guest[0]
      modifies bridge, bridge.guest, device, device.rx, device.chain, device.chain.segments, memory
      ensures Ready()
      ensures
        var o := V.Receive(world.net, world.host, frame);
        Parts() == (o.net, o.host, B.Next(world.bridge, B.ToGuest(o.accepted))) && taken == o.accepted
    {
      taken := Offer(frame);
      ToGuest(taken);
    }

    method Arrive(frame: Bytes, ghost origin: J.Origin)
      requires Valid()
      modifies this`world, bridge, bridge.host, bridge.guest
      modifies bridge.host.bytes, bridge.host.lengths, bridge.guest.bytes, bridge.guest.lengths
      modifies device, device.rx, device.chain, device.chain.segments, memory
      ensures Valid() && world == J.Arrived(old(world), frame, origin)
    {
      var taken := Bypass(frame);
      FromHost(frame, taken);
      NoteArrival(frame, origin);
    }

    method Hand() returns (progressed: bool)
      requires Valid()
      modifies this`world, bridge, bridge.host, bridge.guest
      modifies bridge.host.bytes, bridge.host.lengths, bridge.guest.bytes, bridge.guest.lengths
      modifies device, device.tx, device.chain, device.chain.segments, memory
      ensures Valid() && Moved(world, progressed) == Handed(old(world))
    {
      progressed := false;
      if bridge.host.count < B.QUEUE_SIZE {
        var frame := Fetch();
        if frame != [] {
          FromGuest(frame);
          progressed := true;
        }
      }
      world := J.Handed(world);
    }

    // ---- The loop -------------------------------------------------------------------------------------

    method Clear(up: bool)
      requires Valid()
      modifies this`world, this`link, bridge, bridge.host, bridge.guest
      ensures Valid() && link == up && world == if old(link) != up then J.Cleared(old(world)) else old(world)
    {
      if link != up {
        bridge.ClearBoth();
        world := J.Cleared(world);
        link := up;
      }
    }

    method SetLink(up: bool)
      requires Valid()
      modifies this`world, device
      ensures Valid() && world == J.Linked(old(world), up)
    {
      device.SetLink(up);
      world := J.Linked(world, up);
    }

    method Stop()
      requires Valid()
      modifies this`world, bridge, bridge.guest
      ensures Valid() && world == if V.Running(old(world).net) then old(world) else J.Stopped(old(world))
    {
      var running := device.Running();
      if !running {
        bridge.ClearGuest();
        world := J.Stopped(world);
      }
    }

    method Drop()
      requires Valid()
      modifies this`world, bridge, bridge.host
      ensures Valid() && world == J.Dropped(old(world))
    {
      bridge.ClearHost();
      world := J.Dropped(world);
    }

    method Follow(up: bool)
      requires Valid()
      modifies this`world, this`link, bridge, bridge.host, bridge.guest, device
      ensures Valid() && link == up && world == Followed(old(world), old(link), up)
    {
      Clear(up);
      SetLink(up);
      Empty(up);
    }

    method Empty(up: bool)
      requires Valid()
      modifies this`world, bridge, bridge.host, bridge.guest
      ensures Valid() && world == Emptied(old(world), up)
    {
      Stop();
      if !up { Drop(); }
    }

    /** What has arrived, if anything, goes through the bridge. */
    method Poll(arrived: Option<(Bytes, nat)>) returns (progressed: bool)
      requires Valid()
      modifies this`world, bridge, bridge.host, bridge.guest
      modifies bridge.host.bytes, bridge.host.lengths, bridge.guest.bytes, bridge.guest.lengths
      modifies device, device.rx, device.chain, device.chain.segments, memory
      ensures Valid() && Moved(world, progressed) == Arrived(old(world), arrived)
    {
      progressed := false;
      if arrived.Some? && J.IsDatagram(arrived.value.0, arrived.value.1) {
        Arrive(J.DatagramOf(arrived.value.0, arrived.value.1), J.Datagram(arrived.value.0, arrived.value.1));
        progressed := true;
      }
    }

    method Turn(r: Round) returns (progressed: bool)
      requires Valid() && r.offer.capacity <= output.Length && r.offer.sequence < 65536
      modifies this`world, output, bridge, bridge.host, bridge.guest
      modifies bridge.host.bytes, bridge.host.lengths, bridge.guest.bytes, bridge.guest.lengths
      modifies device, device.rx, device.tx, device.chain, device.chain.segments, memory
      ensures Valid() && Moved(world, progressed) == Turned(old(world), r)
    {
      var left := Leave(r.offer);
      var taken := Take();
      var arrived := Poll(r.arrived);
      var handed := Hand();
      progressed := left || taken || arrived || handed;
    }

    /** At most sixteen rounds, fewer once nothing moves. */
    method Service(up: bool, rounds: seq<Round>)
      requires Valid() && |rounds| == 16
      requires forall i: nat :: i < 16 ==>
        rounds[i].offer.capacity <= output.Length && rounds[i].offer.sequence < 65536
      modifies this`world, this`link, output, bridge, bridge.host, bridge.guest
      modifies bridge.host.bytes, bridge.host.lengths, bridge.guest.bytes, bridge.guest.lengths
      modifies device, device.rx, device.tx, device.chain, device.chain.segments, memory
      ensures Valid() && link == up && world == Serviced(Followed(old(world), old(link), up), rounds)
    {
      Follow(up);
      Rounds(rounds);
    }

    method Rounds(rounds: seq<Round>)
      requires Valid() && |rounds| == 16
      requires forall i: nat :: i < 16 ==>
        rounds[i].offer.capacity <= output.Length && rounds[i].offer.sequence < 65536
      modifies this`world, output, bridge, bridge.host, bridge.guest
      modifies bridge.host.bytes, bridge.host.lengths, bridge.guest.bytes, bridge.guest.lengths
      modifies device, device.rx, device.tx, device.chain, device.chain.segments, memory
      ensures Valid() && world == Serviced(old(world), rounds)
    {
      ghost var whole := Serviced(world, rounds);
      assert rounds[0..] == rounds;
      for i := 0 to ROUNDS
        invariant Valid() && whole == Serviced(world, rounds[i..])
      {
        OneRound(world, rounds, i);
        var progressed := Turn(rounds[i]);
        if !progressed { break; }
      }
    }
  }

  // ---- A call is a run ---------------------------------------------------------------------------------

  /** A world some run ends in stays one with one more event. */
  lemma {:induction false} OneMore(env: Env, link: bool, before: seq<J.Event>, more: seq<J.Event>, e: J.Event)
    ensures J.Next(J.Run(env, link, before + more), e) == J.Run(env, link, before + (more + [e]))
  {
    J.RunLast(env, link, before + more, e);
    Associative(before, more, [e]);
  }

  lemma LeftIs(w: J.World, o: T.Offer)
    ensures Left(w, o).world == J.Next(w, J.Leaves(o))
  {
  }

  lemma TakenIs(w: J.World)
    ensures Taken(w).world == J.Next(w, J.DeviceTakes)
  {
  }

  lemma ArrivedIs(w: J.World, arrived: Option<(Bytes, nat)>)
    ensures
      Arrived(w, arrived).world
      == if arrived.None? then w else J.Next(w, J.Arrives(arrived.value.0, arrived.value.1))
  {
  }

  lemma HandedIs(w: J.World)
    ensures Handed(w).world == J.Next(w, J.DeviceHands)
  {
  }

  lemma TurnedIs(w: J.World, r: Round)
    ensures
      Turned(w, r).world
      == Handed(Arrived(Taken(Left(w, r.offer).world).world, r.arrived).world).world
  {
  }

  /** One round: the host queue leaves, the guest's oldest frame is offered, a datagram arrives, the guest sends. */
  function RoundEvents(r: Round): seq<J.Event> {
    [J.Leaves(r.offer), J.DeviceTakes]
    + (if r.arrived.Some? then [J.Arrives(r.arrived.value.0, r.arrived.value.1)] else []) + [J.DeviceHands]
  }

  function RoundsEvents(rounds: seq<Round>): seq<J.Event> {
    if rounds == [] then [] else RoundEvents(rounds[0]) + RoundsEvents(rounds[1..])
  }

  lemma {:induction false} RoundRuns(env: Env, link: bool, before: seq<J.Event>, r: Round)
    ensures Turned(J.Run(env, link, before), r).world == J.Run(env, link, before + RoundEvents(r))
  {
    var w := J.Run(env, link, before);
    var more := [J.Leaves(r.offer), J.DeviceTakes];
    J.RunLast(env, link, before, more[0]);
    J.RunLast(env, link, before + more[..1], more[1]);
    assert before + more == before + more[..1] + [more[1]] && more[..1] == [more[0]];
    LeftIs(w, r.offer);
    TakenIs(Left(w, r.offer).world);
    var v := Taken(Left(w, r.offer).world).world;
    ArrivedIs(v, r.arrived);
    if r.arrived.Some? {
      var e := J.Arrives(r.arrived.value.0, r.arrived.value.1);
      OneMore(env, link, before, more, e);
      more := more + [e];
    }
    HandedIs(Arrived(v, r.arrived).world);
    OneMore(env, link, before, more, J.DeviceHands);
    more := more + [J.DeviceHands];
    TurnedIs(w, r);
    assert more == RoundEvents(r);
  }

  /** Round `i` of some made progress, where they took the world. */
  ghost predicate Progresses(env: Env, link: bool, before: seq<J.Event>, rounds: seq<Round>, i: nat)
    requires i < |rounds|
  {
    Turned(J.Run(env, link, before + RoundsEvents(rounds[..i])), rounds[i]).progressed
  }

  lemma {:induction false} ProgressesOn(env: Env, link: bool, before: seq<J.Event>, rounds: seq<Round>, i: nat)
    requires i + 1 < |rounds|
    ensures
      Progresses(env, link, before + RoundEvents(rounds[0]), rounds[1..], i)
      <==> Progresses(env, link, before, rounds, i + 1)
  {
    var front := rounds[..i + 1];
    assert front[0] == rounds[0] && front[1..] == rounds[1..][..i];
    Associative(before, RoundEvents(rounds[0]), RoundsEvents(front[1..]));
  }

  ghost function Progress(env: Env, link: bool, before: seq<J.Event>, rounds: seq<Round>): (p: seq<bool>)
    ensures |p| == |rounds| && forall i: nat :: i < |rounds| ==> p[i] == Progresses(env, link, before, rounds, i)
  {
    seq(|rounds|, i requires 0 <= i < |rounds| => Progresses(env, link, before, rounds, i))
  }

  /** A loop that stops after the first round without progress, or when there are no more. */
  predicate StopsAt(progress: seq<bool>, n: nat) {
    && n <= |progress| && (forall i: nat :: i + 1 < n ==> progress[i])
    && (n < |progress| ==> n > 0 && !progress[n - 1])
  }

  lemma StopsLater(progress: seq<bool>, m: nat)
    requires progress != [] && progress[0] && StopsAt(progress[1..], m)
    ensures StopsAt(progress, m + 1)
  {
    forall i: nat | i < m ensures progress[i] {
      if i > 0 { assert progress[i] == progress[1..][i - 1]; }
    }
    if m + 1 < |progress| { assert progress[m] == progress[1..][m - 1]; }
  }

  lemma {:induction false} ProgressTail(env: Env, link: bool, before: seq<J.Event>, rounds: seq<Round>)
    requires rounds != []
    ensures
      Progress(env, link, before, rounds)[1..]
      == Progress(env, link, before + RoundEvents(rounds[0]), rounds[1..])
  {
    forall i: nat | i + 1 < |rounds|
      ensures Progress(env, link, before, rounds)[1..][i]
           == Progress(env, link, before + RoundEvents(rounds[0]), rounds[1..])[i] {
      ProgressesOn(env, link, before, rounds, i);
    }
  }

  lemma {:induction false} RoundsRun(env: Env, link: bool, before: seq<J.Event>, rounds: seq<Round>) returns (n: nat)
    ensures StopsAt(Progress(env, link, before, rounds), n)
    ensures Serviced(J.Run(env, link, before), rounds) == J.Run(env, link, before + RoundsEvents(rounds[..n]))
    decreases |rounds|
  {
    if rounds == [] {
      n := 0;
      assert before + [] == before && rounds[..0] == [];
    } else {
      var first := RoundEvents(rounds[0]);
      RoundRuns(env, link, before, rounds[0]);
      assert rounds[..0] == [] && before + [] == before;
      n := 1;
      if Turned(J.Run(env, link, before), rounds[0]).progressed {
        var m := RoundsRun(env, link, before + first, rounds[1..]);
        n := m + 1;
        ProgressTail(env, link, before, rounds);
        StopsLater(Progress(env, link, before, rounds), m);
      }
      var done := rounds[..n];
      assert done[0] == rounds[0] && done[1..] == rounds[1..][..n - 1];
      Associative(before, first, RoundsEvents(done[1..]));
      if n == 1 { assert done[1..] == [] && first + [] == first; }
    }
  }

  lemma LinksAre(w: J.World, up: bool)
    ensures J.Linked(w, up) == J.Next(w, J.LinkSet(up)) && J.Cleared(w) == J.Next(w, J.LinkChanged)
    ensures J.Stopped(w) == J.Next(w, J.DeviceStopped) && J.Dropped(w) == J.Next(w, J.LinkDown)
  {
  }

  lemma {:induction false} LinkedRuns(env: Env, link: bool, before: seq<J.Event>, was: bool, up: bool)
    returns (more: seq<J.Event>)
    ensures
      var w := J.Run(env, link, before);
      J.Linked(if was != up then J.Cleared(w) else w, up) == J.Run(env, link, before + more)
    ensures forall e :: e in more ==> e.LinkSet? || e.LinkChanged?
  {
    var w := J.Run(env, link, before);
    more := if was != up then [J.LinkChanged] else [];
    if was != up { J.RunLast(env, link, before, J.LinkChanged); } else { assert before + [] == before; }
    LinksAre(w, up);
    LinksAre(J.Run(env, link, before + more), up);
    OneMore(env, link, before, more, J.LinkSet(up));
    more := more + [J.LinkSet(up)];
  }

  lemma {:induction false} EmptiedRuns(env: Env, link: bool, before: seq<J.Event>, up: bool)
    returns (more: seq<J.Event>)
    ensures Emptied(J.Run(env, link, before), up) == J.Run(env, link, before + more)
    ensures forall e :: e in more ==> e.LinkDown? || e.DeviceStopped?
  {
    var w := J.Run(env, link, before);
    var stops := !V.Running(w.net);
    more := if stops then [J.DeviceStopped] else [];
    if stops { J.RunLast(env, link, before, J.DeviceStopped); } else { assert before + [] == before; }
    LinksAre(w, up);
    if !up {
      LinksAre(J.Run(env, link, before + more), up);
      OneMore(env, link, before, more, J.LinkDown);
      more := more + [J.LinkDown];
    }
  }

  /** What a call makes of a link that was or is up and a device that runs or not, before the rounds. */
  lemma FollowedExact(w: J.World, was: bool, up: bool)
    ensures
      var v, net := Followed(w, was, up), V.SetLink(w.net, up);
      && v.net == net && v.host == w.host
      && v.bridge.bridge
         == w.bridge.bridge.(host := if was != up || !up then [] else w.bridge.bridge.host,
                             guest := if was != up || !V.Running(net) then [] else w.bridge.bridge.guest)
  {
  }

  /**
   What `Service` does to a world that a run ends in is more of that run, so all that holds of runs holds
   on: the link's events, then `n` rounds, up to the first without progress.
   */
  lemma {:induction false} ServiceRuns(env: Env, link: bool, before: seq<J.Event>, was: bool, up: bool,
                                       rounds: seq<Round>)
    returns (followed: seq<J.Event>, n: nat)
    ensures Followed(J.Run(env, link, before), was, up) == J.Run(env, link, before + followed)
    ensures forall e :: e in followed ==> e.LinkSet? || e.LinkChanged? || e.LinkDown? || e.DeviceStopped?
    ensures StopsAt(Progress(env, link, before + followed, rounds), n)
    ensures
      Serviced(Followed(J.Run(env, link, before), was, up), rounds)
      == J.Run(env, link, before + followed + RoundsEvents(rounds[..n]))
  {
    var linked := LinkedRuns(env, link, before, was, up);
    var emptied := EmptiedRuns(env, link, before + linked, up);
    Associative(before, linked, emptied);
    followed := linked + emptied;
    n := RoundsRun(env, link, before + followed, rounds);
  }
}
