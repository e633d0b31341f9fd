/** The bridge over its two in-place rings. */
module BridgeService {
  import opened Types
  import opened FrameRing
  import B = Bridge
  import M = Management
  import T = Transmit

  class Bridge {
    const host: Ring
    const guest: Ring
    var received: nat
    var rejected: nat
    var replies: nat
    ghost var world: B.World

    ghost predicate Apart()
      reads this
    {
      && host != guest && host.bytes != guest.bytes && host.lengths != guest.lengths
    }

    ghost predicate Ready()
      reads this, host, guest, host.bytes, host.lengths, guest.bytes, guest.lengths
    {
      Apart() && host.Valid() && guest.Valid()
    }

    ghost function View(): B.Bridge
      requires Ready()
      reads this, host, guest, host.bytes, host.lengths, guest.bytes, guest.lengths
    {
      B.Bridge(host.Contents(), guest.Contents(), received, rejected, replies)
    }

    ghost predicate Valid()
      reads this, host, guest, host.bytes, host.lengths, guest.bytes, guest.lengths
    {
      Ready() && B.Inv(world) && world.bridge == View()
    }

    constructor ()
      ensures Valid() && world == B.START
      ensures fresh(host) && fresh(guest) && fresh(host.bytes) && fresh(host.lengths)
      ensures fresh(guest.bytes) && fresh(guest.lengths)
    {
      host := new Ring();
      guest := new Ring();
      received, rejected, replies := 0, 0, 0;
      world := B.START;
    }

    /** Generate the reply to `frame` in the spare slot of `queue`, if one is due and there is room. */
    method Respond(frame: seq<byte>, queue: Ring) returns (replied: bool)
      requires queue.Valid() && !queue.Full() && FrameOk(frame)
      modifies queue`count, queue.bytes, queue.lengths
      ensures queue.Valid() && replied == M.Reply(frame).Some?
      ensures queue.Contents() == old(queue.Contents()) + B.Listed(M.Reply(frame))
    {
      var slot := queue.bytes[Slot(queue.head, queue.count)];
      var buffer := new byte[FRAME_SIZE](i requires 0 <= i < |slot| => slot[i]);
      var length := M.Manage(frame, buffer);
      ghost var reply := M.Reply(frame);
      queue.FillSpare(buffer[..]);
      assert reply.Some? ==> queue.Spare()[..length] == reply.value;
      replied := queue.Commit(length);
    }

    /** Answer a frame into `queue` if it has room. */
    method AnswerInto(frame: seq<byte>, queue: Ring)
      requires Ready() && (queue == host || queue == guest) && B.Routable(frame) && B.Answerable(frame)
      modifies this`rejected, this`replies, queue`count, queue.bytes, queue.lengths
      ensures Ready() && queue.Contents() == B.Replied(frame, old(queue.Contents()))
      ensures rejected == if old(queue.Full()) then B.Up(old(rejected)) else old(rejected)
      ensures replies == if !old(queue.Full()) && B.Answer(frame).Some? then B.Up(old(replies)) else old(replies)
    {
      if queue.Full() {
        rejected := B.Up(rejected);
      } else {
        var replied := Respond(frame, queue);
        if replied { replies := B.Up(replies); }
      }
    }

    /** Classify a frame and answer it into `queue`; whether it goes on to the other port. */
    method Route(frame: seq<byte>, queue: Ring) returns (forward: bool)
      requires Ready() && (queue == host || queue == guest)
      modifies this`received, this`rejected, this`replies, queue`count, queue.bytes, queue.lengths
      ensures Ready() && forward == B.Forwards(frame)
      ensures queue.Contents() == B.Replied(frame, old(queue.Contents()))
      ensures
        var c := B.Counted(B.Bridge([], [], old(received), old(rejected), old(replies)), frame, old(queue.Contents()));
        received == c.received && rejected == c.rejected && replies == c.replies
    {
      if !B.Routable(frame) {
        rejected := B.Up(rejected);
        return false;
      }
      received := B.Up(received);
      var local := frame[..6] == M.MANAGEMENT_MAC;
      if local || frame[0] % 2 == 1 { AnswerInto(frame, queue); }
      return !local;
    }

    /** Route for a host frame, answered into the host's ring; and for a guest frame, into the guest's. */
    method RouteHost(frame: seq<byte>) returns (forward: bool)
      requires Ready()
      modifies this`received, this`rejected, this`replies, host`count, host.bytes, host.lengths
      ensures Ready() && View() == B.RoutedHost(old(View()), frame) && forward == B.Forwards(frame)
    {
      forward := Route(frame, host);
      assert guest.Contents() == old(guest.Contents());
    }

    method RouteGuest(frame: seq<byte>) returns (forward: bool)
      requires Ready()
      modifies this`received, this`rejected, this`replies, guest`count, guest.bytes, guest.lengths
      ensures Ready() && View() == B.RoutedGuest(old(View()), frame) && forward == B.Forwards(frame)
    {
      forward := Route(frame, guest);
      assert host.Contents() == old(host.Contents());
    }

    method PushGuest(frame: seq<byte>) returns (pushed: bool)
      requires Ready() && FrameOk(frame)
      modifies guest`count, guest.bytes, guest.lengths
      ensures Ready() && pushed == (|old(View()).guest| < QUEUE_SIZE)
      ensures View() == if pushed then old(View()).(guest := old(View()).guest + [frame]) else old(View())
    {
      pushed := guest.Push(frame);
      assert host.Contents() == old(host.Contents());
    }

    method PopGuest()
      requires Ready() && guest.count > 0
      modifies guest
      ensures Ready() && View() == old(View()).(guest := old(View()).guest[1..])
    {
      guest.Pop();
      assert host.Contents() == old(host.Contents());
    }

    method PopHost()
      requires Ready() && host.count > 0
      modifies host
      ensures Ready() && View() == old(View()).(host := old(View()).host[1..])
    {
      host.Pop();
      assert guest.Contents() == old(guest.Contents());
    }

    /** The frame in the host ring's spare slot joins the ring. */
    method CommitHost(frame: seq<byte>)
      requires Ready() && !host.Full() && FrameOk(frame) && host.Spare()[..|frame|] == frame
      modifies host`count, host.lengths
      ensures Ready() && View() == old(View()).(host := old(View()).host + [frame])
    {
      var done := host.Commit(|frame|);
      assert guest.Contents() == old(guest.Contents());
    }

    method FillHost(frame: seq<byte>)
      requires Ready() && !host.Full() && FrameOk(frame)
      modifies host.bytes
      ensures Ready() && View() == old(View()) && !host.Full() && host.Spare()[..|frame|] == frame
    {
      var slot := host.bytes[Slot(host.head, host.count)];
      host.FillSpare(frame + slot[|frame|..]);
      assert guest.Contents() == old(guest.Contents());
    }

    /** A frame from the host; `taken` is what the device says if it is asked. */
    method ReceiveHost(frame: seq<byte>, taken: bool)
      requires Ready()
      modifies this`received, this`rejected, this`replies
      modifies host`count, guest`count, host.bytes, host.lengths, guest.bytes, guest.lengths
      ensures Ready() && View() == B.ReceiveHost(old(View()), frame, taken)
    {
      var forward := RouteHost(frame);
      if forward && !(guest.count == 0 && taken) {
        var pushed := PushGuest(frame);
        if !pushed { rejected := B.Up(rejected); }
      }
    }

    /** A frame the device hands over, received into the host ring's spare slot. */
    method ReceiveGuest(frame: seq<byte>)
      requires Ready() && !host.Full() && FrameOk(frame)
      modifies this`received, this`rejected, this`replies
      modifies host`count, guest`count, host.bytes, host.lengths, guest.bytes, guest.lengths
      ensures Ready() && View() == B.ReceiveGuest(old(View()), frame)
    {
      FillHost(frame);
      var forward := RouteGuest(frame);
      if forward { CommitHost(frame); }
    }

    /** A step already made on the rings is entered in the ledger. */
    ghost method Enter(e: B.Event)
      requires Ready() && B.Inv(world) && View() == B.Stepped(world.bridge, e)
      modifies this`world
      ensures Valid() && world == B.Next(old(world), e)
    {
      B.NextKeeps(world, e);
      B.NextBridge(world, e);
      world := B.Next(world, e);
    }

    /** One step of the loop. */
    method FromHost(frame: seq<byte>, taken: bool)
      requires Valid()
      modifies this, host, guest, host.bytes, host.lengths, guest.bytes, guest.lengths
      ensures Valid() && world == B.Next(old(world), B.FromHost(frame, taken))
    {
      ReceiveHost(frame, taken);
      Enter(B.FromHost(frame, taken));
    }

    method FromGuest(frame: seq<byte>)
      requires Valid() && FrameOk(frame) && !host.Full()
      modifies this, host, guest, host.bytes, host.lengths, guest.bytes, guest.lengths
      ensures Valid() && world == B.Next(old(world), B.FromGuest(frame))
    {
      ReceiveGuest(frame);
      Enter(B.FromGuest(frame));
    }

    /** The transmit path takes what it can from the front of the host ring. */
    method Send(o: T.Offer, output: array<byte>) returns (consumed: nat, sent: Option<seq<byte>>)
      requires Valid() && o.capacity <= output.Length && o.sequence < 65536
      modifies this`world, host, output
      ensures Valid() && T.Sending(consumed, sent) == T.Sent(old(View()).host, o) && consumed <= |old(View()).host|
      ensures world == B.Next(old(world), B.ToHost(consumed))
    {
      consumed, sent := T.SendFrames(host, o, output);
      assert guest.Contents() == old(guest.Contents());
      Enter(B.ToHost(consumed));
    }

    /** The device is offered the oldest frame for the guest. */
    method ToGuest(taken: bool)
      requires Valid() && guest.count > 0
      modifies this, guest
      ensures Valid() && world == B.Next(old(world), B.ToGuest(taken))
    {
      if taken { PopGuest(); }
      Enter(B.ToGuest(taken));
    }

    method EmptyHost()
      requires Ready()
      modifies host
      ensures Ready() && View() == old(View()).(host := [])
    {
      host.Clear();
      assert guest.Contents() == old(guest.Contents());
    }

    method EmptyGuest()
      requires Ready()
      modifies guest
      ensures Ready() && View() == old(View()).(guest := [])
    {
      guest.Clear();
      assert host.Contents() == old(host.Contents());
    }

    method ClearBoth()
      requires Valid()
      modifies this, host, guest
      ensures Valid() && world == B.Next(old(world), B.LinkChanged)
    {
      EmptyHost();
      EmptyGuest();
      Enter(B.LinkChanged);
    }

    method ClearGuest()
      requires Valid()
      modifies this, guest
      ensures Valid() && world == B.Next(old(world), B.DeviceStopped)
    {
      EmptyGuest();
      Enter(B.DeviceStopped);
    }

    method ClearHost()
      requires Valid()
      modifies this, host
      ensures Valid() && world == B.Next(old(world), B.LinkDown)
    {
      EmptyHost();
      Enter(B.LinkDown);
    }
  }
}
