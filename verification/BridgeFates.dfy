/** What one frame does to the bridge, queue by queue and counter by counter. */
module BridgeFates {
  import opened Types
  import opened Bridge
  import M = Management

  /** A length Ethernet allows, from a station and not from a group. */
  predicate Sound(frame: Frame) { 14 <= |frame| <= 1514 && frame[6] % 2 == 0 }

  /** To the management station. */
  predicate Ours(frame: Frame)
    requires Sound(frame)
  {
    frame[..6] == [0x02, 0x53, 0x56, 0, 0, 3]
  }

  /** The management station listens to its own address and to every group. */
  predicate Heard(frame: Frame)
    requires Sound(frame)
  {
    Ours(frame) || frame[0] % 2 == 1
  }

  /** The reply to send back, if there is one and `queue` has room for it. */
  function Back(frame: Frame, queue: seq<Frame>): seq<Frame>
    requires Sound(frame)
  {
    if Heard(frame) && |queue| < 8 && M.Reply(frame).Some? then [M.Reply(frame).value] else []
  }

  /** A counter that stops at its largest value. */
  function Count(v: nat, more: nat): nat {
    if v + more <= 0xffff_ffff_ffff_ffff then v + more else 0xffff_ffff_ffff_ffff
  }

  predicate Counters(b: Bridge) { b.received < U64_LIMIT && b.rejected < U64_LIMIT && b.replies < U64_LIMIT }

  lemma AnswerIs(frame: Frame)
    ensures Routable(frame) <==> Sound(frame)
    ensures Answer(frame) == if Sound(frame) && Heard(frame) then M.Reply(frame) else None
  {
  }

  /** A frame that is not sound counts as rejected and does nothing else. */
  lemma UnsoundExact(b: Bridge, frame: Frame, taken: bool)
    requires !Sound(frame) && Counters(b)
    ensures ReceiveHost(b, frame, taken) == b.(rejected := Count(b.rejected, 1))
    ensures |b.host| < 8 ==> ReceiveGuest(b, frame) == b.(rejected := Count(b.rejected, 1))
  {
  }

  /**
   A sound host frame: its reply, if any, waits for the host; the frame itself, unless it is ours, is
   taken by an idle guest at once, or waits for the guest, or is lost to a full queue and counted.
   */
  lemma HostExact(b: Bridge, frame: Frame, taken: bool)
    requires Sound(frame) && Counters(b) && |b.host| <= 8 && |b.guest| <= 8
    ensures
      var c, back := ReceiveHost(b, frame, taken), Back(frame, b.host);
      var waits := !Ours(frame) && !(b.guest == [] && taken);
      && c.host == b.host + back
      && c.guest == b.guest + (if waits && |b.guest| < 8 then [frame] else [])
      && c.received == Count(b.received, 1) && c.replies == Count(b.replies, |back|)
      && c.rejected == Count(b.rejected, (if Heard(frame) && |b.host| == 8 then 1 else 0)
                                         + (if waits && |b.guest| == 8 then 1 else 0))
  {
    assert b.host + [] == b.host && b.guest + [] == b.guest;
  }

  /** A sound guest frame: its reply, if any, waits for the guest; the frame itself, unless it is ours, for the host. */
  lemma GuestExact(b: Bridge, frame: Frame)
    requires Sound(frame) && Counters(b) && |b.host| < 8 && |b.guest| <= 8
    ensures
      var c, back := ReceiveGuest(b, frame), Back(frame, b.guest);
      && c.host == b.host + (if Ours(frame) then [] else [frame]) && c.guest == b.guest + back
      && c.received == Count(b.received, 1) && c.replies == Count(b.replies, |back|)
      && c.rejected == Count(b.rejected, if Heard(frame) && |b.guest| == 8 then 1 else 0)
  {
    assert b.host + [] == b.host && b.guest + [] == b.guest;
  }

  /** Nothing has happened at the start, and no counter ever passes what its word can hold. */
  lemma {:induction false} CountersFit(events: seq<Event>)
    ensures Run([]) == World(Bridge([], [], 0, 0, 0), [], [], [], [])
    ensures Counters(Run(events).bridge)
  {
    if events != [] {
      CountersFit(events[..|events| - 1]);
      var w, e := Run(events[..|events| - 1]), events[|events| - 1];
      NextBridge(w, e);
    }
  }
}
