/**
 Runs of the network device: register writes of any kind, packets in both directions and link
 changes, in any order, over memory and a driver that may do anything at any time.
 */
module VirtioRuns {
  import opened Types
  import opened Virtqueue
  import opened Scatter
  import opened VirtioNet
  import Loader
  import LoaderCodec

  // ---- What one queue step does -----------------------------------------------------------------

  /** `log[k]` read slot `i` of the available ring and found `head` there. */
  ghost predicate ReadsHead(log: seq<Access>, k: nat, q: Queue, i: nat, head: nat)
    requires q.num > 0
  {
    k < |log| && log[k].Load? && log[k].address == q.avail + 4 + 2 * (i % q.num)
    && |log[k].bytes| == 2 && Word16(log[k].bytes, 0) == head
  }

  /** The eight bytes of a used entry: the head, then the length, as little-endian words. */
  predicate Returns(bytes: seq<byte>, head: nat, length: nat) {
    |bytes| == 8 && Loader.U32(bytes, 0) == head && Loader.U32(bytes, 4) == length
  }

  /** `log[k]` put `head` into slot `i` of the used ring, and the next access published index `i + 1`. */
  ghost predicate Publishes(log: seq<Access>, k: nat, q: Queue, i: nat, head: nat, length: nat)
    requires q.num > 0
  {
    && k + 1 < |log| && log[k].Store? && log[k].address == q.used + 4 + 8 * (i % q.num)
    && Returns(log[k].bytes, head, length)
    && log[k + 1].Store? && log[k + 1].address == q.used + 2
    && |log[k + 1].bytes| == 2 && Loader.U16(log[k + 1].bytes, 0) == (i + 1) % U16_LIMIT
  }

  lemma EntryReturns(head: nat, length: nat)
    requires head < U32_LIMIT && length < U32_LIMIT
    ensures Returns(UsedEntry(head, length), head, length)
  {
    var b := UsedEntry(head, length);
    assert b[0..4] == Loader.Le32(head) && b[4..8] == Loader.Le32(length);
    LoaderCodec.Reads32(b, 0, head);
    LoaderCodec.Reads32(b, 4, length);
  }

  lemma IndexReturns(i: nat)
    requires i < U16_LIMIT
    ensures Loader.U16(Le16(i), 0) == i
  {
    assert Le16(i)[0..2] == Le16(i);
    LoaderCodec.Reads16(Le16(i), 0, i);
  }

  lemma FetchReads(h: Host, address: nat, n: nat)
    ensures Quiet(h, Fetch(h, address, n).host)
    ensures h.env.Valid(address, n) ==>
              Fetch(h, address, n).bytes.Some? && |Fetch(h, address, n).host.log| == |h.log| + 1
  {
  }

  lemma QuietTrans(a: Host, b: Host, c: Host)
    requires Quiet(a, b) && Quiet(b, c)
    ensures Quiet(a, c)
  {
  }

  lemma WalkQuiet(h: Host, desc: nat, num: nat, writable: bool, head: nat)
    requires h.env.Valid(desc, 16 * num)
    ensures
      var w := Walk(h, desc, num, writable, head, {});
      Quiet(h, w.host) && (w.chain.Some? ==> AllValid(h.env, w.chain.value) && |w.chain.value| <= num)
  {
    WalkBounded(h, desc, num, writable, head, {});
    assert Upto(num) - {} == Upto(num);
    if Walk(h, desc, num, writable, head, {}).chain.Some? { WalkUsable(h, desc, num, writable, head); }
  }

  lemma TakeHeadReads(q: Queue, h: Host, writable: bool)
    requires QueueValid(h.env, q)
    ensures
      var t := TakeHead(q, h, writable);
      && Quiet(h, t.host) && t.queue == q && !t.taken.Nothing?
      && (t.taken.Got? ==>
            && ReadsHead(t.host.log, |h.log|, q, q.nextAvail, t.taken.head)
            && AllValid(h.env, t.taken.chain) && |t.taken.chain| <= q.num)
  {
    var slot := q.avail + 4 + 2 * (q.nextAvail % q.num);
    SubrangeValid(h.env, q.avail, 6 + 2 * q.num, slot, 2);
    FetchReads(h, slot, 2);
    var f := Fetch(h, slot, 2);
    var head := Word16(f.bytes.value, 0);
    WalkQuiet(f.host, q.desc, q.num, writable, head);
    QuietTrans(h, f.host, Walk(f.host, q.desc, q.num, writable, head, {}).host);
  }

  /** Taking a chain only reads, and changes nothing in the queue but whether to look again. */
  ghost predicate Taking(q: Queue, h: Host, t: Take) {
    && Quiet(h, t.host) && t.queue == q.(pending := t.queue.pending)
    && (t.taken.Got? ==>
          && QueueValid(h.env, q) && ReadsHead(t.host.log, |h.log| + 1, q, q.nextAvail, t.taken.head)
          && AllValid(h.env, t.taken.chain) && |t.taken.chain| <= q.num)
  }

  lemma TakeIs(q: Queue, h: Host, writable: bool) returns (f: Host)
    requires QueueValid(h.env, q)
    ensures Quiet(h, f) && |f.log| == |h.log| + 1
    ensures
      var t := TakeNext(q, h, writable);
      || t == Take(q, h, Nothing) || t == Take(q.(pending := false), f, Nothing)
      || t == Take(q, f, Bad) || t == TakeHead(q, f, writable)
  {
    SubrangeValid(h.env, q.avail, 6 + 2 * q.num, q.avail + 2, 2);
    FetchReads(h, q.avail + 2, 2);
    f := Fetch(h, q.avail + 2, 2).host;
  }

  lemma TakeReads(q: Queue, h: Host, writable: bool)
    ensures Taking(q, h, TakeNext(q, h, writable))
  {
    if QueueValid(h.env, q) {
      var f := TakeIs(q, h, writable);
      TakeHeadReads(q, f, writable);
      QuietTrans(h, f, TakeHead(q, f, writable).host);
    }
  }

  lemma CompleteIs(q: Queue, h: Host, head: nat, length: nat)
    requires q.num > 0 && h.env.Valid(q.used + 4 + 8 * (q.nextUsed % q.num), 8)
    requires h.env.Valid(q.used + 2, 2) && h.env.Valid(q.avail, 2)
    ensures
      var c, i := Complete(q, h, head, length), (q.nextUsed + 1) % U16_LIMIT;
      var entry := Store(q.used + 4 + 8 * (q.nextUsed % q.num), UsedEntry(head, length));
      && c.notify.Some? && c.queue == q.(nextUsed := i, nextAvail := (q.nextAvail + 1) % U16_LIMIT)
      && c.host == h.(log := h.log + [entry] + [Store(q.used + 2, Le16(i))]
                             + [Load(q.avail, Seen(h.env, |h.log| + 2, q.avail, 2))])
  {
  }

  lemma StoredPublishes(log: seq<Access>, more: seq<Access>, last: Access, q: Queue, i: nat, head: nat, length: nat)
    requires q.num > 0 && last.Load?
    requires more == log + [Store(q.used + 4 + 8 * (i % q.num), UsedEntry(head, length))]
                     + [Store(q.used + 2, Le16((i + 1) % U16_LIMIT))] + [last]
    ensures log <= more && |more| == |log| + 3 && more[|log| + 2].Load?
    ensures head < U32_LIMIT && length < U32_LIMIT ==> Publishes(more, |log|, q, i, head, length)
  {
    if head < U32_LIMIT && length < U32_LIMIT { EntryReturns(head, length); }
    IndexReturns((i + 1) % U16_LIMIT);
  }

  lemma CompletesValid(q: Queue, h: Host, head: nat, length: nat) returns (last: Access)
    requires QueueValid(h.env, q)
    ensures
      var c, i := Complete(q, h, head, length), (q.nextUsed + 1) % U16_LIMIT;
      && last.Load? && c.notify.Some? && c.host.env == h.env
      && c.queue == q.(nextUsed := i, nextAvail := (q.nextAvail + 1) % U16_LIMIT)
      && c.host.log == h.log + [Store(q.used + 4 + 8 * (q.nextUsed % q.num), UsedEntry(head, length))]
                       + [Store(q.used + 2, Le16(i))] + [last]
  {
    SubrangeValid(h.env, q.used, 6 + 8 * q.num, q.used + 4 + 8 * (q.nextUsed % q.num), 8);
    SubrangeValid(h.env, q.used, 6 + 8 * q.num, q.used + 2, 2);
    SubrangeValid(h.env, q.avail, 6 + 2 * q.num, q.avail, 2);
    CompleteIs(q, h, head, length);
    last := Load(q.avail, Seen(h.env, |h.log| + 2, q.avail, 2));
  }

  /** A completion always succeeds: two stores, the used entry and then the index that publishes it. */
  lemma CompletePublishes(q: Queue, h: Host, head: nat, length: nat)
    requires QueueValid(h.env, q)
    ensures
      var c := Complete(q, h, head, length);
      && c.notify.Some? && Extends(h, c.host) && |c.host.log| == |h.log| + 3 && c.host.log[|h.log| + 2].Load?
      && (head < U32_LIMIT && length < U32_LIMIT ==> Publishes(c.host.log, |h.log|, q, q.nextUsed, head, length))
      && c.queue == q.(nextUsed := (q.nextUsed + 1) % U16_LIMIT, nextAvail := (q.nextAvail + 1) % U16_LIMIT)
  {
    var last := CompletesValid(q, h, head, length);
    StoredPublishes(h.log, Complete(q, h, head, length).host.log, last, q, q.nextUsed, head, length);
  }

  function HeadAt(log: seq<Access>, k: nat): nat {
    if k < |log| && |log[k].bytes| == 2 then Word16(log[k].bytes, 0) else 0
  }

  /**
   What a finished packet leaves behind: its head was read from slot `nextAvail` and published in slot
   `nextUsed`, and every store of the step lies between the two.
   */
  ghost predicate Finishes(q: Queue, h: Host, q': Queue, h': Host, length: nat) {
    && QueueValid(h.env, q) && Extends(h, h') && |h.log| + 1 < |h'.log| - 3
    && ReadsHead(h'.log, |h.log| + 1, q, q.nextAvail, HeadAt(h'.log, |h.log| + 1))
    && Publishes(h'.log, |h'.log| - 3, q, q.nextUsed, HeadAt(h'.log, |h.log| + 1), length)
    && (forall k: nat :: |h.log| <= k < |h'.log| && h'.log[k].Store? ==> |h.log| + 1 < k < |h'.log| - 1)
    && q'.nextUsed == (q.nextUsed + 1) % U16_LIMIT && q'.nextAvail == (q.nextAvail + 1) % U16_LIMIT
  }

  lemma FinishesPacket(q: Queue, h: Host, t: Take, mid: Host, length: nat)
    requires Taking(q, h, t) && t.taken.Got? && Extends(t.host, mid) && length < U32_LIMIT
    ensures
      var c := Complete(t.queue, mid, t.taken.head, length);
      c.notify.Some? && Finishes(q, h, c.queue, c.host, length)
  {
    CompletePublishes(t.queue, mid, t.taken.head, length);
    PacketFinished(q, h, t, mid, Complete(t.queue, mid, t.taken.head, length), length);
  }

  lemma PacketFinished(q: Queue, h: Host, t: Take, mid: Host, c: Completion, length: nat)
    requires Taking(q, h, t) && t.taken.Got? && Extends(t.host, mid) && Extends(mid, c.host)
    requires |c.host.log| == |mid.log| + 3 && c.host.log[|mid.log| + 2].Load?
    requires Publishes(c.host.log, |mid.log|, t.queue, t.queue.nextUsed, t.taken.head, length)
    requires c.queue.nextUsed == (q.nextUsed + 1) % U16_LIMIT && c.queue.nextAvail == (q.nextAvail + 1) % U16_LIMIT
    ensures Finishes(q, h, c.queue, c.host, length)
  {
    Between(h.log, t.host.log, mid.log, c.host.log);
  }

  /** Reads, anything at all, two stores and a read: where the stores are. */
  lemma Between(a: seq<Access>, b: seq<Access>, c: seq<Access>, d: seq<Access>)
    requires a <= b <= c <= d && |a| + 1 < |b| && |d| == |c| + 3 && d[|c| + 2].Load?
    requires forall k: nat :: |a| <= k < |b| ==> b[k].Load?
    ensures d[|a| + 1] == b[|a| + 1]
    ensures forall k: nat :: |a| <= k < |d| && d[k].Store? ==> |a| + 1 < k < |d| - 1
  {
    assert forall k: nat :: k < |b| ==> d[k] == b[k];
  }

  lemma QuietExtends(a: Host, b: Host, c: Host)
    requires Extends(a, b) && Extends(b, c)
    ensures Extends(a, c)
  {
  }

  lemma TransmitBodyIs(n: Net, h: Host, head: nat, chain: seq<Descriptor>) returns (mid: Host)
    requires AllValid(h.env, chain) && QueueValid(h.env, n.tx) && Total(chain) > HEADER_SIZE
    ensures Quiet(h, mid) && Sends(n, mid, head, TransmitBody(n, h, head, chain))
  {
    GatherReads(h, chain, HEADER_SIZE, Total(chain) - HEADER_SIZE);
    mid := Gather(h, chain, HEADER_SIZE, Total(chain) - HEADER_SIZE).host;
    CompletePublishes(n.tx, mid, head, 0);
  }

  ghost predicate Sends(n: Net, mid: Host, head: nat, o: Sent)
    requires n.tx.num > 0
  {
    var c := Complete(n.tx, mid, head, 0);
    && c.notify.Some? && o.frame != [] && o.host == c.host
    && o.net == n.(tx := c.queue, usedIrq := n.usedIrq || c.notify.value, sent := Up(n.sent))
  }

  /** The two ways a chain to transmit can go: broken without a store, or completed. */
  lemma TransmitChainIs(n: Net, h: Host, head: nat, chain: seq<Descriptor>) returns (mid: Host)
    requires AllValid(h.env, chain) && QueueValid(h.env, n.tx)
    ensures Quiet(h, mid)
    ensures
      var o := TransmitChain(n, h, head, chain);
      o == Sent(Break(n), mid, []) || Sends(n, mid, head, o)
  {
    mid := h;
    var total := Total(chain);
    if HEADER_SIZE + 14 <= total <= HEADER_SIZE + FRAME_SIZE {
      GatherReads(h, chain, 0, HEADER_SIZE);
      mid := Gather(h, chain, 0, HEADER_SIZE).host;
      if HeaderOk(Gather(h, chain, 0, HEADER_SIZE).bytes.value) {
        var header := mid;
        mid := TransmitBodyIs(n, header, head, chain);
        QuietTrans(h, header, mid);
      }
    }
  }

  /** A packet sent: nothing is stored but the used entry, and only when the packet was taken. */
  ghost predicate Transmits(n: Net, h: Host, o: Sent) {
    && o.net.rx == n.rx
    && (o.frame == [] ==> Quiet(h, o.host) && o.net.tx == n.tx.(pending := o.net.tx.pending))
    && (o.frame != [] ==> Finishes(n.tx, h, o.net.tx, o.host, 0) && o.net.status == n.status)
    && (o.net.status == n.status || o.net.status.needsReset)
  }

  lemma TransmitTaken(n: Net, h: Host, t: Take)
    requires Taking(n.tx, h, t) && t.taken.Got?
    ensures Transmits(n, h, TransmitChain(n.(tx := t.queue), t.host, t.taken.head, t.taken.chain))
  {
    var m := n.(tx := t.queue);
    var mid := TransmitChainIs(m, t.host, t.taken.head, t.taken.chain);
    QuietTrans(h, t.host, mid);
    FinishesPacket(n.tx, h, t, mid, 0);
  }

  lemma TransmitStep(n: Net, h: Host)
    ensures Transmits(n, h, Transmit(n, h))
  {
    if Running(n) {
      TakeReads(n.tx, h, false);
      var t := TakeNext(n.tx, h, false);
      if t.taken.Got? { TransmitTaken(n, h, t); }
    }
  }

  /** The two ways a frame can go: broken without a store, or completed. */
  lemma ReceiveChainIs(n: Net, h: Host, head: nat, chain: seq<Descriptor>, frame: seq<byte>) returns (mid: Host)
    requires AllValid(h.env, chain) && QueueValid(h.env, n.rx) && |frame| >= 14
    ensures Extends(h, mid)
    ensures
      var o, c := ReceiveChain(n, h, head, chain, frame), Complete(n.rx, mid, head, HEADER_SIZE + |frame|);
      if o.accepted then
        && c.notify.Some? && o.host == c.host
        && o.net == n.(rx := c.queue, usedIrq := n.usedIrq || c.notify.value, received := Up(n.received))
      else o == Delivery(Break(n), h, false)
  {
    mid := h;
    if HEADER_SIZE + |frame| <= Total(chain) {
      SpreadWrites(h, chain, 0, RX_HEADER);
      var header := Spread(h, chain, 0, RX_HEADER).host;
      SpreadWrites(header, chain, HEADER_SIZE, frame);
      mid := Spread(header, chain, HEADER_SIZE, frame).host;
      CompletePublishes(n.rx, mid, head, HEADER_SIZE + |frame|);
    }
  }

  /** A frame received: a rejected chain or frame stores nothing at all. */
  ghost predicate Receives(n: Net, h: Host, frame: seq<byte>, o: Delivery) {
    && o.net.tx == n.tx
    && (!o.accepted ==> Quiet(h, o.host) && o.net.rx == n.rx.(pending := o.net.rx.pending))
    && (o.accepted ==> Finishes(n.rx, h, o.net.rx, o.host, HEADER_SIZE + |frame|) && o.net.status == n.status)
    && (o.net.status == n.status || o.net.status.needsReset)
  }

  lemma ReceiveTaken(n: Net, h: Host, t: Take, frame: seq<byte>)
    requires Taking(n.rx, h, t) && t.taken.Got? && 14 <= |frame| <= FRAME_SIZE
    ensures Receives(n, h, frame, ReceiveChain(n.(rx := t.queue), t.host, t.taken.head, t.taken.chain, frame))
  {
    var m := n.(rx := t.queue);
    var mid := ReceiveChainIs(m, t.host, t.taken.head, t.taken.chain, frame);
    ReceivedFrom(n, h, t, mid, frame, ReceiveChain(m, t.host, t.taken.head, t.taken.chain, frame));
  }

  lemma ReceivedFrom(n: Net, h: Host, t: Take, mid: Host, frame: seq<byte>, o: Delivery)
    requires Taking(n.rx, h, t) && t.taken.Got? && 14 <= |frame| <= FRAME_SIZE && Extends(t.host, mid)
    requires
      var m, c := n.(rx := t.queue), Complete(t.queue, mid, t.taken.head, HEADER_SIZE + |frame|);
      if o.accepted then
        && c.notify.Some? && o.host == c.host
        && o.net == m.(rx := c.queue, usedIrq := m.usedIrq || c.notify.value, received := Up(m.received))
      else o == Delivery(Break(m), t.host, false)
    ensures Receives(n, h, frame, o)
  {
    FinishesPacket(n.rx, h, t, mid, HEADER_SIZE + |frame|);
  }

  lemma ReceiveStep(n: Net, h: Host, frame: seq<byte>)
    ensures Receives(n, h, frame, Receive(n, h, frame))
  {
    if Running(n) && 14 <= |frame| <= FRAME_SIZE {
      TakeReads(n.rx, h, true);
      var t := TakeNext(n.rx, h, true);
      if t.taken.Got? { ReceiveTaken(n, h, t, frame); }
    }
  }

  // ---- Runs ---------------------------------------------------------------------------------------

  /** A packet that was taken and finished: where in the log, and what was published for it. */
  datatype Served = Served(queue: Queue, head: nat, length: nat, from: nat, to: nat)

  /** The packet of the step from `before` to `after`. */
  function Record(q: Queue, before: Host, after: Host, length: nat): Served {
    Served(q, HeadAt(after.log, |before.log| + 1), length, |before.log| + 1,
           if |after.log| >= 3 then |after.log| - 3 else 0)
  }

  datatype Event = Register(offset: nat, size: nat, value: nat) | Outgoing | Incoming(frame: seq<byte>) | Link(up: bool)

  /** `rx` and `tx` list the packets of each queue since the last reset, `all` those of the whole run. */
  datatype World = World(net: Net, host: Host, rx: seq<Served>, tx: seq<Served>, all: seq<Served>)

  predicate Resets(e: Event) { e.Register? && e.offset == 0x70 && e.size == 4 && e.value % U32_LIMIT == 0 }

  function Next(w: World, e: Event): World {
    match e
    case Register(offset, size, value) =>
      var n := WriteRegister(w.net, offset, size, value);
      if n.None? then w
      else if Resets(e) then w.(net := n.value, rx := [], tx := [])
      else w.(net := n.value)
    case Outgoing =>
      var o := Transmit(w.net, w.host);
      var s := Record(w.net.tx, w.host, o.host, 0);
      if o.frame == [] then w.(net := o.net, host := o.host)
      else w.(net := o.net, host := o.host, tx := w.tx + [s], all := w.all + [s])
    case Incoming(frame) =>
      var o := Receive(w.net, w.host, frame);
      var s := Record(w.net.rx, w.host, o.host, HEADER_SIZE + |frame|);
      if !o.accepted then w.(net := o.net, host := o.host)
      else w.(net := o.net, host := o.host, rx := w.rx + [s], all := w.all + [s])
    case Link(up) => w.(net := SetLink(w.net, up))
  }

  function Run(env: Env, link: bool, events: seq<Event>): World {
    if events == [] then World(New(link), Host(env, []), [], [], [])
    else Next(Run(env, link, events[..|events| - 1]), events[|events| - 1])
  }

  /** Packet `i` of a queue: taken from slot `i` of the available ring, returned in slot `i` of the used. */
  ghost predicate Logged(log: seq<Access>, i: nat, s: Served) {
    && s.queue.num > 0 && s.from < s.to && ReadsHead(log, s.from, s.queue, i, s.head)
    && Publishes(log, s.to, s.queue, i, s.head, s.length)
  }

  ghost predicate Listed(log: seq<Access>, q: Queue, served: seq<Served>, whole: bool) {
    && (forall i: nat :: i < |served| ==> Logged(log, i, served[i]))
    && (whole ==> q.nextAvail == q.nextUsed == |served| % U16_LIMIT)
  }

  /** Packets never overlap in time, and nothing is stored outside them. */
  ghost predicate Serial(log: seq<Access>, all: seq<Served>) {
    && (forall a: nat :: a < |all| ==> all[a].from < all[a].to && all[a].to + 3 <= |log|)
    && (forall a: nat, b: nat :: a < b < |all| ==> all[a].to + 2 < all[b].from)
    && forall k: nat :: k < |log| && log[k].Store? ==> exists a: nat :: a < |all| && all[a].from < k <= all[a].to + 1
  }

  ghost predicate Inv(w: World) {
    && Listed(w.host.log, w.net.rx, w.rx, !w.net.status.needsReset)
    && Listed(w.host.log, w.net.tx, w.tx, !w.net.status.needsReset)
    && Serial(w.host.log, w.all)
  }

  lemma RingSlot(i: nat, num: nat)
    requires num in {1, 2, 4, 8, 16, 32, 64, 128}
    ensures i % U16_LIMIT % num == i % num
  {
    var q, r := i / U16_LIMIT, i % U16_LIMIT;
    assert i == U16_LIMIT * q + r;
    if num == 1 { SameRest(0x1_0000 * q, r, 1); }
    else if num == 2 { SameRest(0x8000 * q, r, 2); }
    else if num == 4 { SameRest(0x4000 * q, r, 4); }
    else if num == 8 { SameRest(0x2000 * q, r, 8); }
    else if num == 16 { SameRest(0x1000 * q, r, 16); }
    else if num == 32 { SameRest(0x800 * q, r, 32); }
    else if num == 64 { SameRest(0x400 * q, r, 64); }
    else { SameRest(0x200 * q, r, 128); }
  }

  lemma SameRest(k: nat, r: nat, num: nat)
    requires num > 0
    ensures (num * k + r) % num == r % num
  {
    var x := num * k + r;
    assert x == num * (x / num) + x % num && r == num * (r / num) + r % num;
    assert num * (x / num - k - r / num) == r % num - x % num;
    FarFromZero(x / num - k - r / num, num);
  }

  /** A multiple that is not zero lies at least one step from zero. */
  lemma FarFromZero(z: int, num: int)
    requires num > 0
    ensures (z > 0 ==> num * z >= num) && (z < 0 ==> num * z <= -num)
  {
  }

  lemma LoggedStays(before: Host, after: Host, i: nat, s: Served)
    requires Logged(before.log, i, s) && Extends(before, after)
    ensures Logged(after.log, i, s)
  {
  }

  lemma ListedStays(before: Host, after: Host, q: Queue, q': Queue, served: seq<Served>, whole: bool, still: bool)
    requires Listed(before.log, q, served, whole) && Extends(before, after) && (still ==> whole)
    requires q'.nextAvail == q.nextAvail && q'.nextUsed == q.nextUsed
    ensures Listed(after.log, q', served, still)
  {
    forall i: nat | i < |served| ensures Logged(after.log, i, served[i]) { LoggedStays(before, after, i, served[i]); }
  }

  lemma NextIndex(i: nat)
    ensures (i % U16_LIMIT + 1) % U16_LIMIT == (i + 1) % U16_LIMIT
  {
  }

  /** Ring positions only matter by the slot and the index they stand for. */
  lemma SameSlot(log: seq<Access>, k: nat, q: Queue, i: nat, j: nat, head: nat, length: nat)
    requires q.num > 0 && i % q.num == j % q.num && (i + 1) % U16_LIMIT == (j + 1) % U16_LIMIT
    ensures ReadsHead(log, k, q, i, head) ==> ReadsHead(log, k, q, j, head)
    ensures Publishes(log, k, q, i, head, length) ==> Publishes(log, k, q, j, head, length)
  {
  }

  lemma RecordLogged(q: Queue, h: Host, q': Queue, h': Host, length: nat, n: nat)
    requires Finishes(q, h, q', h', length) && q.nextAvail == q.nextUsed == n % U16_LIMIT
    ensures Logged(h'.log, n, Record(q, h, h', length))
    ensures q'.nextAvail == q'.nextUsed == (n + 1) % U16_LIMIT
  {
    RingSlot(n, q.num);
    NextIndex(n);
    var s := Record(q, h, h', length);
    SameSlot(h'.log, s.from, q, q.nextAvail, n, s.head, length);
    SameSlot(h'.log, s.to, q, q.nextAvail, n, s.head, length);
  }

  /** The packet just finished is the next of its queue. */
  lemma ListedGrows(q: Queue, h: Host, q': Queue, h': Host, length: nat, served: seq<Served>)
    requires Finishes(q, h, q', h', length) && Listed(h.log, q, served, true)
    ensures Listed(h'.log, q', served + [Record(q, h, h', length)], true)
  {
    var s, n := Record(q, h, h', length), |served|;
    RecordLogged(q, h, q', h', length, n);
    var more := served + [s];
    forall i: nat | i < n + 1 ensures Logged(h'.log, i, more[i]) {
      if i < n { LoggedStays(h, h', i, served[i]); }
    }
  }

  lemma SerialQuiet(before: Host, after: Host, all: seq<Served>)
    requires Serial(before.log, all) && Quiet(before, after)
    ensures Serial(after.log, all)
  {
  }

  lemma SerialGrows(q: Queue, h: Host, q': Queue, h': Host, length: nat, all: seq<Served>)
    requires Finishes(q, h, q', h', length) && Serial(h.log, all)
    ensures Serial(h'.log, all + [Record(q, h, h', length)])
  {
    var s := Record(q, h, h', length);
    var more := all + [s];
    forall k: nat | k < |h'.log| && h'.log[k].Store?
      ensures exists a: nat :: a < |more| && more[a].from < k <= more[a].to + 1 {
      if k < |h.log| {
        var a: nat :| a < |all| && all[a].from < k <= all[a].to + 1;
        assert more[a] == all[a];
      } else {
        assert more[|all|] == s;
      }
    }
  }

  predicate SameIndices(q: Queue, q': Queue) { q'.nextAvail == q.nextAvail && q'.nextUsed == q.nextUsed }

  lemma QueueKeeps(q: Queue, offset: nat, v: nat)
    ensures SameIndices(q, Wake(q)) && SameIndices(q, WriteQueue(q, offset, v))
  {
  }

  lemma StatusKeeps(n: Net, v: nat)
    requires v != 0
    ensures
      var m := WriteStatus(n, v);
      && SameIndices(n.rx, m.rx) && SameIndices(n.tx, m.tx) && (n.status.needsReset ==> m.status.needsReset)
  {
  }

  /** Short of a reset, registers move no index and mend nothing. */
  lemma WordKeeps(n: Net, offset: nat, v: nat)
    requires offset != 0x70 || v != 0
    ensures
      var m := WriteWord(n, offset, v);
      && SameIndices(n.rx, m.rx) && SameIndices(n.tx, m.tx) && (n.status.needsReset ==> m.status.needsReset)
  {
    if offset in {0x14, 0x20, 0x24, 0x30} { ChooseKeeps(n, offset, v); } else { ActKeeps(n, offset, v); }
  }

  lemma ChooseKeeps(n: Net, offset: nat, v: nat)
    ensures var m := Choose(n, offset, v); m.rx == n.rx && m.tx == n.tx && m.status == n.status
  {
  }

  lemma ActKeeps(n: Net, offset: nat, v: nat)
    requires offset != 0x70 || v != 0
    ensures
      var m := Act(n, offset, v);
      && SameIndices(n.rx, m.rx) && SameIndices(n.tx, m.tx) && (n.status.needsReset ==> m.status.needsReset)
  {
    if offset == 0x70 {
      StatusKeeps(n, v);
    } else {
      QueueKeeps(n.rx, offset, v);
      QueueKeeps(n.tx, offset, v);
    }
  }

  lemma RegisterKeeps(w: World, e: Event)
    requires Inv(w) && e.Register?
    ensures Inv(Next(w, e))
  {
    var n, m := w.net, Next(w, e).net;
    var v := e.value % U32_LIMIT;
    if e.size == 4 && e.offset % 4 == 0 && e.offset < 4096 && !Resets(e) {
      WordKeeps(n, e.offset, v);
      assert m == WriteWord(n, e.offset, v);
      ListedStays(w.host, w.host, n.rx, m.rx, w.rx, !n.status.needsReset, !m.status.needsReset);
      ListedStays(w.host, w.host, n.tx, m.tx, w.tx, !n.status.needsReset, !m.status.needsReset);
    }
  }

  lemma OutgoingKeeps(w: World)
    requires Inv(w)
    ensures Inv(Next(w, Outgoing))
  {
    var n, h := w.net, w.host;
    var o := Transmit(n, h);
    TransmitStep(n, h);
    ListedStays(h, o.host, n.rx, o.net.rx, w.rx, !n.status.needsReset, !o.net.status.needsReset);
    if o.frame == [] {
      ListedStays(h, o.host, n.tx, o.net.tx, w.tx, !n.status.needsReset, !o.net.status.needsReset);
      SerialQuiet(h, o.host, w.all);
    } else {
      ListedGrows(n.tx, h, o.net.tx, o.host, 0, w.tx);
      SerialGrows(n.tx, h, o.net.tx, o.host, 0, w.all);
    }
  }

  lemma IncomingKeeps(w: World, frame: seq<byte>)
    requires Inv(w)
    ensures Inv(Next(w, Incoming(frame)))
  {
    var n, h := w.net, w.host;
    var o := Receive(n, h, frame);
    ReceiveStep(n, h, frame);
    ListedStays(h, o.host, n.tx, o.net.tx, w.tx, !n.status.needsReset, !o.net.status.needsReset);
    if !o.accepted {
      ListedStays(h, o.host, n.rx, o.net.rx, w.rx, !n.status.needsReset, !o.net.status.needsReset);
      SerialQuiet(h, o.host, w.all);
    } else {
      ListedGrows(n.rx, h, o.net.rx, o.host, HEADER_SIZE + |frame|, w.rx);
      SerialGrows(n.rx, h, o.net.rx, o.host, HEADER_SIZE + |frame|, w.all);
    }
  }

  lemma NextKeeps(w: World, e: Event)
    requires Inv(w)
    ensures Inv(Next(w, e))
  {
    match e
    case Register(_, _, _) => RegisterKeeps(w, e);
    case Outgoing => OutgoingKeeps(w);
    case Incoming(frame) => IncomingKeeps(w, frame);
    case Link(_) =>
  }

  /**
   In every run, each queue's packets since its reset are the available ring's entries in order and
   once each, returned in the same order in the used ring, across index wraparound and across disabling
   and enabling; unless the device broke, the two indices agree; and every byte stored in guest memory
   was stored while serving some packet.
   */
  lemma {:induction false} RunInv(env: Env, link: bool, events: seq<Event>)
    ensures Inv(Run(env, link, events))
  {
    if events != [] {
      RunInv(env, link, events[..|events| - 1]);
      NextKeeps(Run(env, link, events[..|events| - 1]), events[|events| - 1]);
    }
  }

  ghost predicate StillBroken(before: World, after: World) {
    after.net.status.needsReset && after.host == before.host
  }

  lemma BrokenNext(w: World, e: Event)
    requires w.net.status.needsReset && !Resets(e)
    ensures StillBroken(w, Next(w, e))
  {
  }

  /** A broken device touches no guest memory and stays broken until status is written 0. */
  lemma {:induction false} BrokenUntilReset(env: Env, link: bool, past: seq<Event>, future: seq<Event>)
    requires Run(env, link, past).net.status.needsReset
    requires forall i: nat :: i < |future| ==> !Resets(future[i])
    ensures StillBroken(Run(env, link, past), Run(env, link, past + future))
  {
    if future == [] {
      assert past + future == past;
    } else {
      var front, last := future[..|future| - 1], future[|future| - 1];
      var w := Run(env, link, past + front);
      BrokenUntilReset(env, link, past, front);
      RunLast(env, link, past + front, last);
      assert past + future == past + front + [last];
      BrokenOn(Run(env, link, past), w, last);
    }
  }

  lemma BrokenOn(before: World, w: World, e: Event)
    requires StillBroken(before, w) && !Resets(e)
    ensures StillBroken(before, Next(w, e))
  {
    BrokenNext(w, e);
  }

  lemma {:induction false} RunLast(env: Env, link: bool, events: seq<Event>, e: Event)
    ensures Run(env, link, events + [e]) == Next(Run(env, link, events), e)
  {
    assert (events + [e])[..|events + [e]| - 1] == events;
  }

  // ---- What a packet contains ------------------------------------------------------------------------

  /** A transmitted frame is the chain's bytes from 12 on, each as the guest had it during the call. */
  lemma {:induction false} TransmittedFrame(n: Net, h: Host, j: nat)
    requires j < |Transmit(n, h).frame|
    ensures
      var t := TakeNext(n.tx, h, false);
      var o := Transmit(n, h);
      && t.taken.Got? && Total(t.taken.chain) == HEADER_SIZE + |o.frame|
      && Found(h.env, |h.log|, |o.host.log|, Where(t.taken.chain, HEADER_SIZE + j), o.frame[j])
  {
    TakeReads(n.tx, h, false);
    var t := TakeNext(n.tx, h, false);
    var m, chain := n.(tx := t.queue), t.taken.chain;
    TransmittedChain(m, t.host, t.taken.head, chain, j);
    var o := TransmitChain(m, t.host, t.taken.head, chain);
    WidenFound(h.env, |t.host.log|, |o.host.log|, |h.log|, |o.host.log|, Where(chain, HEADER_SIZE + j), o.frame[j]);
  }

  lemma {:induction false} TransmittedChain(n: Net, h: Host, head: nat, chain: seq<Descriptor>, j: nat)
    requires AllValid(h.env, chain) && QueueValid(h.env, n.tx) && j < |TransmitChain(n, h, head, chain).frame|
    ensures
      var o := TransmitChain(n, h, head, chain);
      && Total(chain) == HEADER_SIZE + |o.frame|
      && Found(h.env, |h.log|, |o.host.log|, Where(chain, HEADER_SIZE + j), o.frame[j])
  {
    GatherReads(h, chain, 0, HEADER_SIZE);
    var header := Gather(h, chain, 0, HEADER_SIZE).host;
    TransmittedBody(n, header, head, chain, j);
    var o := TransmitBody(n, header, head, chain);
    WidenFound(h.env, |header.log|, |o.host.log|, |h.log|, |o.host.log|, Where(chain, HEADER_SIZE + j), o.frame[j]);
  }

  /** Completing the packet keeps what the gather before it found. */
  lemma FoundWhenSent(n: Net, h: Host, head: nat, frame: seq<byte>, from: nat, a: nat, b: byte)
    requires QueueValid(h.env, n.tx) && Found(h.env, from, |h.log|, a, b)
    ensures
      var o := SendDone(n, Complete(n.tx, h, head, 0), frame);
      o.frame == frame && Found(h.env, from, |o.host.log|, a, b)
  {
    CompletePublishes(n.tx, h, head, 0);
    WidenFound(h.env, from, |h.log|, from, |Complete(n.tx, h, head, 0).host.log|, a, b);
  }

  lemma {:induction false} GatheredByte(h: Host, chain: seq<Descriptor>, offset: nat, n: nat, j: nat)
    returns (f: Fetched)
    requires AllValid(h.env, chain) && offset + n <= Total(chain) && j < n
    ensures f == Gather(h, chain, offset, n) && f.bytes.Some? && f.host.env == h.env
    ensures Found(h.env, |h.log|, |f.host.log|, Where(chain, offset + j), f.bytes.value[j])
  {
    GatherReads(h, chain, offset, n);
    GatherFinds(h, chain, offset, n, j);
    f := Gather(h, chain, offset, n);
  }

  lemma {:induction false} TransmittedBody(n: Net, h: Host, head: nat, chain: seq<Descriptor>, j: nat)
    requires AllValid(h.env, chain) && QueueValid(h.env, n.tx) && HEADER_SIZE + j < Total(chain)
    ensures
      var o := TransmitBody(n, h, head, chain);
      && |o.frame| == Total(chain) - HEADER_SIZE
      && Found(h.env, |h.log|, |o.host.log|, Where(chain, HEADER_SIZE + j), o.frame[j])
  {
    var f := GatheredByte(h, chain, HEADER_SIZE, Total(chain) - HEADER_SIZE, j);
    FoundWhenSent(n, f.host, head, f.bytes.value, |h.log|, Where(chain, HEADER_SIZE + j), f.bytes.value[j]);
  }

  /** The host log once header and frame are laid over the chain. */
  function LaidOut(h: Host, chain: seq<Descriptor>, frame: seq<byte>): Host {
    Spread(Spread(h, chain, 0, RX_HEADER).host, chain, HEADER_SIZE, frame).host
  }

  lemma LayoutSplits(m: Memory, h: Host, chain: seq<Descriptor>, frame: seq<byte>)
    requires AllValid(h.env, chain) && frame != [] && HEADER_SIZE + |frame| <= Total(chain)
    ensures
      var header := Spread(h, chain, 0, RX_HEADER).host;
      && Extends(h, header) && Extends(header, LaidOut(h, chain, frame))
      && Effect(m, LaidOut(h, chain, frame).log, |h.log|)
      == Effect(Effect(m, header.log, |h.log|), LaidOut(h, chain, frame).log, |header.log|)
  {
    SpreadWrites(h, chain, 0, RX_HEADER);
    var header := Spread(h, chain, 0, RX_HEADER).host;
    SpreadWrites(header, chain, HEADER_SIZE, frame);
    var mid := LaidOut(h, chain, frame);
    EffectSplit(m, mid.log, |h.log|, |header.log|);
    assert mid.log[..|header.log|] == header.log;
  }

  /** Over disjoint buffers, position `j` of the chain holds byte `j` of header and frame. */
  lemma LaidByte(m: Memory, h: Host, chain: seq<Descriptor>, frame: seq<byte>, j: nat)
    requires AllValid(h.env, chain) && Disjoint(chain) && frame != []
    requires j < HEADER_SIZE + |frame| <= Total(chain)
    ensures |h.log| <= |LaidOut(h, chain, frame).log|
    ensures Effect(m, LaidOut(h, chain, frame).log, |h.log|)(Where(chain, j)) == (RX_HEADER + frame)[j]
  {
    LayoutSplits(m, h, chain, frame);
    var header := Spread(h, chain, 0, RX_HEADER).host;
    var first := Effect(m, header.log, |h.log|);
    if j < HEADER_SIZE {
      SpreadLands(m, h, chain, 0, RX_HEADER, j);
      SpreadSpares(first, header, chain, HEADER_SIZE, frame, Where(chain, j));
    } else {
      SpreadLands(first, header, chain, HEADER_SIZE, frame, j - HEADER_SIZE);
    }
  }

  /** Every other address, the slack of the last buffers included, keeps its byte. */
  lemma LaidSlack(m: Memory, h: Host, chain: seq<Descriptor>, frame: seq<byte>, a: nat)
    requires AllValid(h.env, chain) && frame != [] && HEADER_SIZE + |frame| <= Total(chain)
    requires !Covered(chain, 0, HEADER_SIZE + |frame|, a)
    ensures |h.log| <= |LaidOut(h, chain, frame).log|
    ensures Effect(m, LaidOut(h, chain, frame).log, |h.log|)(a) == m(a)
  {
    LayoutSplits(m, h, chain, frame);
    var header := Spread(h, chain, 0, RX_HEADER).host;
    SpreadSpares(m, h, chain, 0, RX_HEADER, a);
    SpreadSpares(Effect(m, header.log, |h.log|), header, chain, HEADER_SIZE, frame, a);
  }

  lemma {:induction false} EffectQuiet(m: Memory, log: seq<Access>, from: nat)
    requires from <= |log| && forall k: nat :: from <= k < |log| ==> log[k].Load?
    ensures Effect(m, log, from) == m
  {
    if from < |log| { EffectQuiet(m, log[..|log| - 1], from); }
  }

  /** Guest memory as an accepted frame leaves it just before its used entry is published. */
  function Delivered(m: Memory, before: Host, after: Host): Memory
    requires |before.log| + 3 <= |after.log|
  {
    Effect(m, after.log[..|after.log| - 3], |before.log|)
  }

  lemma DeliveredIs(n: Net, h: Host, frame: seq<byte>, m: Memory) returns (t: Host, chain: seq<Descriptor>)
    requires Receive(n, h, frame).accepted
    ensures TakeNext(n.rx, h, true).taken.Got? && chain == TakeNext(n.rx, h, true).taken.chain
    ensures HEADER_SIZE + |frame| <= Total(chain) && frame != [] && AllValid(t.env, chain)
    ensures |h.log| + 3 <= |Receive(n, h, frame).host.log| && |t.log| <= |LaidOut(t, chain, frame).log|
    ensures Delivered(m, h, Receive(n, h, frame).host) == Effect(m, LaidOut(t, chain, frame).log, |t.log|)
  {
    TakeReads(n.rx, h, true);
    var taken := TakeNext(n.rx, h, true);
    t, chain := taken.host, taken.taken.chain;
    var mid := ReceivedLog(n.(rx := taken.queue), t, taken.taken.head, chain, frame);
    DeliveredFrom(m, h, t, mid, Receive(n, h, frame).host);
  }

  /** Neither reading the chain before nor publishing the used entry after changes what was delivered. */
  lemma DeliveredFrom(m: Memory, h: Host, t: Host, mid: Host, after: Host)
    requires Quiet(h, t) && Extends(t, mid) && mid.log <= after.log && |after.log| == |mid.log| + 3
    ensures Delivered(m, h, after) == Effect(m, mid.log, |t.log|)
  {
    assert after.log[..|after.log| - 3] == mid.log;
    EffectSplit(m, mid.log, |h.log|, |t.log|);
    assert mid.log[..|t.log|] == t.log;
    EffectQuiet(m, t.log, |h.log|);
  }

  /** An accepted frame changes no address but the chain's first bytes: slack keeps what it held. */
  lemma ReceivedSlack(n: Net, h: Host, frame: seq<byte>, m: Memory, a: nat)
    requires Receive(n, h, frame).accepted
    ensures
      var o, t := Receive(n, h, frame), TakeNext(n.rx, h, true);
      && t.taken.Got? && HEADER_SIZE + |frame| <= Total(t.taken.chain) && |h.log| + 3 <= |o.host.log|
      && (!Covered(t.taken.chain, 0, HEADER_SIZE + |frame|, a) ==> Delivered(m, h, o.host)(a) == m(a))
  {
    var t, chain := DeliveredIs(n, h, frame, m);
    if !Covered(chain, 0, HEADER_SIZE + |frame|, a) { LaidSlack(m, t, chain, frame, a); }
  }

  /**
   Over disjoint buffers the chain then holds the header, in which only the low byte of `num_buffers`
   is set, to one, and the frame.
   */
  lemma ReceivedFrame(n: Net, h: Host, frame: seq<byte>, m: Memory, j: nat)
    requires Receive(n, h, frame).accepted && j < HEADER_SIZE + |frame|
    ensures
      var o, t := Receive(n, h, frame), TakeNext(n.rx, h, true);
      && t.taken.Got? && HEADER_SIZE + |frame| <= Total(t.taken.chain) && |h.log| + 3 <= |o.host.log|
      && (Disjoint(t.taken.chain) ==>
            Delivered(m, h, o.host)(Where(t.taken.chain, j))
            == if j < 12 then if j == 10 then 1 else 0 else frame[j - 12])
  {
    var t, chain := DeliveredIs(n, h, frame, m);
    if Disjoint(chain) { LaidByte(m, t, chain, frame, j); }
    HeaderByte(frame, j);
  }

  lemma HeaderByte(frame: seq<byte>, j: nat)
    requires j < HEADER_SIZE + |frame|
    ensures (RX_HEADER + frame)[j] == if j < 12 then if j == 10 then 1 else 0 else frame[j - 12]
  {
  }

  lemma ReceivedLog(n: Net, h: Host, head: nat, chain: seq<Descriptor>, frame: seq<byte>) returns (mid: Host)
    requires AllValid(h.env, chain) && QueueValid(h.env, n.rx) && |frame| >= 14
    requires ReceiveChain(n, h, head, chain, frame).accepted
    ensures HEADER_SIZE + |frame| <= Total(chain) && mid == LaidOut(h, chain, frame) && Extends(h, mid)
    ensures
      var o := ReceiveChain(n, h, head, chain, frame);
      mid.log <= o.host.log && |o.host.log| == |mid.log| + 3
  {
    SpreadWrites(h, chain, 0, RX_HEADER);
    var header := Spread(h, chain, 0, RX_HEADER).host;
    SpreadWrites(header, chain, HEADER_SIZE, frame);
    mid := LaidOut(h, chain, frame);
    CompletePublishes(n.rx, mid, head, HEADER_SIZE + |frame|);
  }
}
