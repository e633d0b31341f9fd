/**
 The bridge between host and guest: two bounded queues, local management replies, and the bypass
 that hands a host frame straight to an idle guest queue. The ledger of a run is kept from what
 arrived and what was handed over; the queues are compared with it.
 */
module Bridge {
  import opened Types
  import M = Management

  type Frame = seq<byte>

  const QUEUE_SIZE := 8

  function Up(v: nat): nat { if v + 1 < U64_LIMIT then v + 1 else v }

  datatype Bridge = Bridge(host: seq<Frame>, guest: seq<Frame>, received: nat, rejected: nat, replies: nat)

  const EMPTY := Bridge([], [], 0, 0, 0)

  // ---- Routing --------------------------------------------------------------------------------

  /** Long enough, short enough, and not from a group address. */
  predicate Routable(frame: Frame) { FrameOk(frame) && frame[6] % 2 == 0 }

  predicate Local(frame: Frame)
    requires Routable(frame)
  {
    frame[..6] == M.MANAGEMENT_MAC
  }

  predicate Answerable(frame: Frame)
    requires Routable(frame)
  {
    Local(frame) || frame[0] % 2 == 1
  }

  /** Whether the frame goes on to the other port. */
  predicate Forwards(frame: Frame) { Routable(frame) && !Local(frame) }

  /** The management reply, if one is due. */
  function Answer(frame: Frame): (r: Option<Frame>)
    ensures r.Some? ==> FrameOk(r.value)
  {
    if Routable(frame) && Answerable(frame) then M.Reply(frame) else None
  }

  /** The reply queue after a frame: a reply is appended only if there is room. */
  function Replied(frame: Frame, queue: seq<Frame>): seq<Frame> {
    if Answer(frame).Some? && |queue| < QUEUE_SIZE then queue + [Answer(frame).value] else queue
  }

  /** Counters after classifying a frame whose replies go to `queue`. */
  function Counted(b: Bridge, frame: Frame, queue: seq<Frame>): Bridge {
    if !Routable(frame) then b.(rejected := Up(b.rejected))
    else
      var c := b.(received := Up(b.received));
      if !Answerable(frame) then c
      else if |queue| == QUEUE_SIZE then c.(rejected := Up(c.rejected))
      else if Answer(frame).Some? then c.(replies := Up(c.replies))
      else c
  }

  /** The bridge once a host frame has been classified and answered. */
  function RoutedHost(b: Bridge, frame: Frame): Bridge {
    Counted(b, frame, b.host).(host := Replied(frame, b.host))
  }

  /** The same for a frame of the guest's. */
  function RoutedGuest(b: Bridge, frame: Frame): Bridge {
    Counted(b, frame, b.guest).(guest := Replied(frame, b.guest))
  }

  /** A frame from the host; `taken` is whether the guest would take it at once. */
  function ReceiveHost(b: Bridge, frame: Frame, taken: bool): Bridge {
    var c := RoutedHost(b, frame);
    if !Forwards(frame) || (b.guest == [] && taken) then c
    else if |b.guest| < QUEUE_SIZE then c.(guest := b.guest + [frame])
    else c.(rejected := Up(c.rejected))
  }

  /** A frame the guest sent, received into the host queue's spare slot. */
  function ReceiveGuest(b: Bridge, frame: Frame): Bridge
    requires |b.host| < QUEUE_SIZE
  {
    var c := RoutedGuest(b, frame);
    if Forwards(frame) then c.(host := b.host + [frame]) else c
  }

  // ---- Runs ------------------------------------------------------------------------------------------

  /** One step of the service loop or of the link and device around it. */
  datatype Event =
    | FromHost(frame: Frame, taken: bool)
    | FromGuest(frame: Frame)
    | ToHost(count: nat)
    | ToGuest(taken: bool)
    | LinkChanged
    | LinkDown
    | DeviceStopped

  /**
   `offered` lists what is meant for the guest in order of arrival, `given` what the guest took.
   `egress` lists what was appended for the host, `sent` what left. All start over when a queue is cleared.
   */
  datatype World = World(
    bridge: Bridge, offered: seq<Frame>, given: seq<Frame>, egress: seq<Frame>, sent: seq<Frame>)

  const START := World(EMPTY, [], [], [], [])

  function Listed(o: Option<Frame>): seq<Frame> { if o.Some? then [o.value] else [] }

  /** What the event makes of the bridge itself. */
  function Stepped(b: Bridge, e: Event): Bridge {
    match e
    case FromHost(frame, taken) => ReceiveHost(b, frame, taken)
    case FromGuest(frame) => if |b.host| >= QUEUE_SIZE then b else ReceiveGuest(b, frame)
    case ToHost(count) => b.(host := b.host[if count <= |b.host| then count else |b.host|..])
    case ToGuest(taken) => if b.guest == [] || !taken then b else b.(guest := b.guest[1..])
    case LinkChanged => b.(host := [], guest := [])
    case LinkDown => b.(host := [])
    case DeviceStopped => b.(guest := [])
  }

  function Next(w: World, e: Event): World {
    var b, c := w.bridge, Stepped(w.bridge, e);
    match e
    case FromHost(frame, taken) =>
      w.(bridge := c,
         offered := w.offered + (if Forwards(frame) then [frame] else []),
         given := w.given + (if Forwards(frame) && b.guest == [] && taken then [frame] else []),
         egress := w.egress + c.host[|b.host|..])
    case FromGuest(frame) =>
      if |b.host| >= QUEUE_SIZE then w
      else
        w.(bridge := c, offered := w.offered + Listed(Answer(frame)),
           egress := w.egress + (if Forwards(frame) then [frame] else []))
    case ToHost(count) =>
      w.(bridge := c, sent := w.sent + b.host[..if count <= |b.host| then count else |b.host|])
    case ToGuest(taken) =>
      if b.guest == [] || !taken then w else w.(bridge := c, given := w.given + [b.guest[0]])
    case LinkChanged => World(c, [], [], [], [])
    case LinkDown => w.(bridge := c, egress := [], sent := [])
    case DeviceStopped => w.(bridge := c, offered := [], given := [])
  }

  lemma NextBridge(w: World, e: Event)
    ensures Next(w, e).bridge == Stepped(w.bridge, e)
  {
  }

  function Run(events: seq<Event>): World {
    if events == [] then START else Next(Run(events[..|events| - 1]), events[|events| - 1])
  }

  // ---- Order and loss ------------------------------------------------------------------------------------

  /** `a` is `b` with some frames left out. */
  predicate Subsequence(a: seq<Frame>, b: seq<Frame>)
    decreases |b|
  {
    if a == [] then true
    else if b == [] then false
    else if a[|a| - 1] == b[|b| - 1] && Subsequence(a[..|a| - 1], b[..|b| - 1]) then true
    else Subsequence(a, b[..|b| - 1])
  }

  lemma SubsequenceSkip(a: seq<Frame>, b: seq<Frame>, f: Frame)
    requires Subsequence(a, b)
    ensures Subsequence(a, b + [f])
  {
    assert (b + [f])[..|b + [f]| - 1] == b;
  }

  lemma SubsequenceTake(a: seq<Frame>, b: seq<Frame>, f: Frame)
    requires Subsequence(a, b)
    ensures Subsequence(a + [f], b + [f])
  {
    assert (b + [f])[..|b + [f]| - 1] == b && (a + [f])[..|a + [f]| - 1] == a;
  }

  /**
   What the guest got and what still waits for it are what was offered, in order, less what was
   dropped. What was sent to the host and what still waits for it are all that was ever queued for it.
   */
  ghost predicate Inv(w: World) { GuestSide(w.given, w.bridge.guest, w.offered) && HostSide(w) }

  ghost predicate GuestSide(given: seq<Frame>, queue: seq<Frame>, offered: seq<Frame>) {
    && Subsequence(given + queue, offered) && |queue| <= QUEUE_SIZE
    && forall i: nat :: i < |queue| ==> FrameOk(queue[i])
  }

  ghost predicate HostSide(w: World) {
    && w.sent + w.bridge.host == w.egress && |w.bridge.host| <= QUEUE_SIZE
    && forall i: nat :: i < |w.bridge.host| ==> FrameOk(w.bridge.host[i])
  }

  /** A frame offered to the guest is queued, taken at once, or dropped. */
  lemma OfferedKeeps(given: seq<Frame>, queue: seq<Frame>, offered: seq<Frame>, f: Frame)
    requires GuestSide(given, queue, offered) && FrameOk(f)
    ensures |queue| < QUEUE_SIZE ==> GuestSide(given, queue + [f], offered + [f])
    ensures GuestSide(given, queue, offered + [f])
    ensures queue == [] ==> GuestSide(given + [f], queue, offered + [f])
  {
    SubsequenceSkip(given + queue, offered, f);
    SubsequenceTake(given + queue, offered, f);
    assert given + (queue + [f]) == given + queue + [f];
    if queue == [] { assert given + [f] + queue == given + queue + [f]; }
  }

  /** What a frame does to the host queue is at most append a reply. */
  lemma HostAppends(b: Bridge, frame: Frame, taken: bool)
    requires |b.host| <= QUEUE_SIZE && forall i: nat :: i < |b.host| ==> FrameOk(b.host[i])
    ensures
      var c := ReceiveHost(b, frame, taken);
      && b.host <= c.host && |c.host| <= QUEUE_SIZE && forall i: nat :: i < |c.host| ==> FrameOk(c.host[i])
  {
  }

  /** The guest's side after a host frame, by what became of it. */
  lemma HostFrameFate(w: World, frame: Frame, taken: bool)
    ensures
      var v, queue := Next(w, FromHost(frame, taken)), w.bridge.guest;
      && (!Forwards(frame) ==>
            v.given == w.given + [] && v.bridge.guest == queue && v.offered == w.offered + [])
      && (Forwards(frame) ==>
            && v.offered == w.offered + [frame]
            && (queue == [] && taken ==> v.given == w.given + [frame] && v.bridge.guest == queue)
            && (!(queue == [] && taken) ==>
                  && v.given == w.given + []
                  && v.bridge.guest == if |queue| < QUEUE_SIZE then queue + [frame] else queue))
  {
  }

  lemma FromHostGuestSide(w: World, frame: Frame, taken: bool)
    requires GuestSide(w.given, w.bridge.guest, w.offered)
    ensures
      var v := Next(w, FromHost(frame, taken));
      GuestSide(v.given, v.bridge.guest, v.offered)
  {
    var v := Next(w, FromHost(frame, taken));
    HostFrameFate(w, frame, taken);
    assert w.given + [] == w.given && w.offered + [] == w.offered;
    if Forwards(frame) { OfferedKeeps(w.given, w.bridge.guest, w.offered, frame); }
  }

  lemma FromHostHostSide(w: World, frame: Frame, taken: bool)
    requires HostSide(w)
    ensures HostSide(Next(w, FromHost(frame, taken)))
  {
    var b, c := w.bridge, ReceiveHost(w.bridge, frame, taken);
    HostAppends(b, frame, taken);
    assert w.sent + c.host == w.sent + b.host + c.host[|b.host|..];
  }

  /** And after a frame of the guest's own: at most its reply is queued. */
  lemma GuestFrameFate(w: World, frame: Frame)
    ensures
      var v, queue, reply := Next(w, FromGuest(frame)), w.bridge.guest, Answer(frame);
      && v.given == w.given
      && (|w.bridge.host| >= QUEUE_SIZE ==> v.offered == w.offered && v.bridge.guest == queue)
      && (|w.bridge.host| < QUEUE_SIZE ==>
            && v.offered == w.offered + Listed(reply)
            && v.bridge.guest == if reply.Some? && |queue| < QUEUE_SIZE then queue + [reply.value] else queue)
  {
  }

  lemma FromGuestGuestSide(w: World, frame: Frame)
    requires GuestSide(w.given, w.bridge.guest, w.offered)
    ensures
      var v := Next(w, FromGuest(frame));
      GuestSide(v.given, v.bridge.guest, v.offered)
  {
    var v := Next(w, FromGuest(frame));
    GuestFrameFate(w, frame);
    assert w.offered + [] == w.offered;
    if Answer(frame).Some? { OfferedKeeps(w.given, w.bridge.guest, w.offered, Answer(frame).value); }
  }

  lemma FromGuestHostSide(w: World, frame: Frame)
    requires HostSide(w)
    ensures HostSide(Next(w, FromGuest(frame)))
  {
    assert w.sent + (w.bridge.host + [frame]) == w.sent + w.bridge.host + [frame];
    assert w.egress + [] == w.egress;
  }

  lemma NextKeeps(w: World, e: Event)
    requires Inv(w)
    ensures Inv(Next(w, e))
  {
    var b := w.bridge;
    match e
    case FromHost(frame, taken) => FromHostGuestSide(w, frame, taken); FromHostHostSide(w, frame, taken);
    case FromGuest(frame) => FromGuestGuestSide(w, frame); FromGuestHostSide(w, frame);
    case ToHost(count) =>
      var n := if count <= |b.host| then count else |b.host|;
      assert w.sent + b.host[..n] + b.host[n..] == w.sent + b.host;
    case ToGuest(taken) =>
      if b.guest != [] { assert w.given + [b.guest[0]] + b.guest[1..] == w.given + b.guest; }
    case _ =>
  }

  /** In every run, whatever order events come in. */
  lemma {:induction false} RunInv(events: seq<Event>)
    ensures Inv(Run(events))
  {
    if events != [] {
      RunInv(events[..|events| - 1]);
      NextKeeps(Run(events[..|events| - 1]), events[|events| - 1]);
    }
  }

  /**
   A completed guest frame is never lost for lack of space: it is refused by its own addresses or
   length, it is local, or it joins what leaves for the host, which then keeps it in order.
   */
  lemma GuestFrameKept(w: World, frame: Frame)
    requires Inv(w) && |w.bridge.host| < QUEUE_SIZE
    ensures
      var v := Next(w, FromGuest(frame));
      || (!Routable(frame) && v.bridge.host == w.bridge.host && v.bridge.rejected == Up(w.bridge.rejected))
      || (Routable(frame) && Local(frame) && v.bridge.host == w.bridge.host)
      || (&& Routable(frame) && !Local(frame)
          && v.egress == w.egress + [frame] && v.bridge.host == w.bridge.host + [frame])
  {
  }

  lemma TakenInOrder(w: World, e: Event)
    requires Inv(w) && e.ToGuest? && e.taken && w.bridge.guest != []
    ensures Next(w, e).given + Next(w, e).bridge.guest == w.given + w.bridge.guest
  {
    assert w.given + [w.bridge.guest[0]] + w.bridge.guest[1..] == w.given + w.bridge.guest;
  }

  /** A host frame is lost only when eight frames already wait for the guest. */
  lemma HostFrameLost(w: World, frame: Frame, taken: bool)
    requires Inv(w) && Forwards(frame)
    ensures
      var v := Next(w, FromHost(frame, taken));
      v.given + v.bridge.guest
      == w.given + w.bridge.guest + (if |w.bridge.guest| == 8 then [] else [frame])
  {
    var b := w.bridge;
    if b.guest == [] && taken {
      assert w.given + [frame] + [] == w.given + b.guest + [frame];
    } else if |b.guest| < QUEUE_SIZE {
      assert w.given + (b.guest + [frame]) == w.given + b.guest + [frame];
    } else {
      assert w.given + [] == w.given;
    }
  }
}
