/** The network device seen from the driver: registers, acceptance and notification, in plain numbers. */
module VirtioRegisters {
  import opened Types
  import opened Virtqueue
  import opened Scatter
  import opened VirtioNet
  import opened VirtioRuns

  // ---- Registers ------------------------------------------------------------------------------

  /** A device as power-on and a reset leave it: nothing selected, negotiated, ready or counted. */
  lemma FreshExact(link: bool)
    ensures
      var q := Queue(0, false, false, 0, 0, 0, 0, 0);
      New(link)
      == Net(q, q, 0, 0, 0, 0, 0, Status(false, false, false, false, false, false), false, false, 0, link, 0, 0, 0)
  {
  }

  function Weigh(b: bool, weight: nat): nat { if b then weight else 0 }

  /**
   A status written bit by bit. FEATURES_OK is kept only for VERSION_1 with nothing else but MAC and
   STATUS; DRIVER_OK only with that, ACKNOWLEDGE and DRIVER; NEEDS_RESET cannot be taken back.
   */
  lemma StatusExact(
    ack: bool, driver: bool, driverOk: bool, featuresOk: bool, other: nat, needsReset: bool, failed: bool, old': bool,
    low: nat, high: nat)
    requires other < 4
    ensures
      var v := Weigh(ack, 1) + Weigh(driver, 2) + Weigh(driverOk, 4) + Weigh(featuresOk, 8) + 16 * other
               + Weigh(needsReset, 64) + Weigh(failed, 128);
      var s := NextStatus(v, old', low, high);
      var agreed := featuresOk && high == 1 && low in {0, 0x20, 0x1_0000, 0x1_0020};
      s == Status(ack, driver, driverOk && agreed && ack && driver, agreed, needsReset || old', failed)
  {
    StatusRead(ack, driver, driverOk, featuresOk, other, needsReset, failed);
  }

  lemma StatusRead(
    ack: bool, driver: bool, driverOk: bool, featuresOk: bool, other: nat, needsReset: bool, failed: bool)
    requires other < 4
    ensures
      StatusBits(Weigh(ack, 1) + Weigh(driver, 2) + Weigh(driverOk, 4) + Weigh(featuresOk, 8) + 16 * other
                 + Weigh(needsReset, 64) + Weigh(failed, 128))
      == Status(ack, driver, driverOk, featuresOk, needsReset, failed)
  {
    var high := other + Weigh(needsReset, 4) + Weigh(failed, 8);
    LowBits(ack, driver, driverOk, featuresOk, high);
    HighBits(Weigh(ack, 1) + Weigh(driver, 2) + Weigh(driverOk, 4) + Weigh(featuresOk, 8) + 16 * other,
             needsReset, failed);
  }

  lemma HighBits(low: nat, needsReset: bool, failed: bool)
    requires low < 64
    ensures var v := low + Weigh(needsReset, 64) + Weigh(failed, 128);
      (Bit(v, 64) <==> needsReset) && (Bit(v, 128) <==> failed)
  {
    var v := low + Weigh(needsReset, 64) + Weigh(failed, 128);
    assert v / 64 == Weigh(needsReset, 1) + Weigh(failed, 2) && v / 128 == Weigh(failed, 1);
  }

  lemma LowBits(a: bool, b: bool, c: bool, d: bool, rest: nat)
    ensures
      var v := Weigh(a, 1) + Weigh(b, 2) + Weigh(c, 4) + Weigh(d, 8) + 16 * rest;
      (Bit(v, 1) <==> a) && (Bit(v, 2) <==> b) && (Bit(v, 4) <==> c) && (Bit(v, 8) <==> d)
  {
    var v := Weigh(a, 1) + Weigh(b, 2) + Weigh(c, 4) + Weigh(d, 8) + 16 * rest;
    var v2, v4, v8 := Weigh(b, 1) + Weigh(c, 2) + Weigh(d, 4) + 8 * rest, Weigh(c, 1) + Weigh(d, 2) + 4 * rest,
      Weigh(d, 1) + 2 * rest;
    assert v == 2 * v2 + Weigh(a, 1) && v2 == 2 * v4 + Weigh(b, 1) && v4 == 2 * v8 + Weigh(c, 1);
    Halved(v, v2, a);
    Halved(v2, v4, b);
    Halved(v4, v8, c);
    Halved(v8, rest, d);
    assert v / 4 == v4 && v / 8 == v8;
  }

  lemma Halved(v: nat, half: nat, odd: bool)
    requires v == 2 * half + Weigh(odd, 1)
    ensures v / 2 == half && (v % 2 == 1 <==> odd)
  {
  }

  /** The device runs when the driver says so with agreed features, and neither side has given up. */
  lemma RunningExact(n: Net)
    ensures
      Running(n) <==>
        n.status == Status(n.status.ack, n.status.driver, true, true, false, false)
  {
  }

  /** An address register takes its two halves in either order and changes nothing else. */
  lemma AddressesExact(q: Queue, low: nat, high: nat)
    requires !q.ready && low < U32_LIMIT
    ensures WriteQueue(WriteQueue(q, 0x80, low), 0x84, high) == q.(desc := low + 0x1_0000_0000 * high)
    ensures WriteQueue(WriteQueue(q, 0x84, high), 0x80, low) == q.(desc := low + 0x1_0000_0000 * high)
    ensures WriteQueue(WriteQueue(q, 0x90, low), 0x94, high) == q.(avail := low + 0x1_0000_0000 * high)
    ensures WriteQueue(WriteQueue(q, 0x94, high), 0x90, low) == q.(avail := low + 0x1_0000_0000 * high)
    ensures WriteQueue(WriteQueue(q, 0xa0, low), 0xa4, high) == q.(used := low + 0x1_0000_0000 * high)
    ensures WriteQueue(WriteQueue(q, 0xa4, high), 0xa0, low) == q.(used := low + 0x1_0000_0000 * high)
  {
    HalvesExact(q.desc, low, high);
    HalvesExact(q.avail, low, high);
    HalvesExact(q.used, low, high);
  }

  lemma HalvesExact(address: nat, low: nat, high: nat)
    requires low < U32_LIMIT
    ensures High(Low(address, low), high) == low + 0x1_0000_0000 * high
    ensures Low(High(address, high), low) == low + 0x1_0000_0000 * high
  {
  }

  /** Size and readiness; a ready queue takes nothing but being made unready, or ready again. */
  lemma QueueExact(q: Queue, offset: nat, v: nat)
    ensures WriteQueue(q, 0x44, 0) == q.(ready := false, pending := false)
    ensures WriteQueue(q, 0x44, 1) == q.(ready := true, pending := true)
    ensures !q.ready ==> WriteQueue(q, 0x38, v) == q.(num := v)
    ensures q.ready && offset != 0x44 ==> WriteQueue(q, offset, v) == q
    ensures v > 1 ==> WriteQueue(q, 0x44, v) == q
    ensures offset !in {0x38, 0x44, 0x80, 0x84, 0x90, 0x94, 0xa0, 0xa4} ==> WriteQueue(q, offset, v) == q
  {
  }

  /** Selectors, features, notification and acknowledgement; queue registers act on the queue selected. */
  lemma WordExact(n: Net, offset: nat, v: nat)
    ensures WriteWord(n, 0x14, v) == n.(deviceSel := v)
    ensures WriteWord(n, 0x24, v) == n.(driverSel := v)
    ensures WriteWord(n, 0x30, v) == n.(queueSel := v)
    ensures
      WriteWord(n, 0x20, v)
      == if n.status.featuresOk then n
         else if n.driverSel == 0 then n.(low := v) else if n.driverSel == 1 then n.(high := v) else n
    ensures WriteWord(n, 0x50, 0) == n.(rx := n.rx.(pending := n.rx.ready))
    ensures WriteWord(n, 0x50, 1) == n.(tx := n.tx.(pending := n.tx.ready))
    ensures v > 1 ==> WriteWord(n, 0x50, v) == n
    ensures
      offset in {0x38, 0x44, 0x80, 0x84, 0x90, 0x94, 0xa0, 0xa4} ==>
        WriteWord(n, offset, v)
        == if n.queueSel == 0 then n.(rx := WriteQueue(n.rx, offset, v))
           else if n.queueSel == 1 then n.(tx := WriteQueue(n.tx, offset, v)) else n
  {
  }

  /** Writing a one to a cause takes it back: bit 0 for used buffers, bit 1 for the configuration. */
  lemma AcknowledgeExact(n: Net, used: bool, config: bool, rest: nat)
    ensures
      WriteWord(n, 0x64, Weigh(used, 1) + Weigh(config, 2) + 4 * rest)
      == n.(usedIrq := n.usedIrq && !used, configIrq := n.configIrq && !config)
  {
    var v, half := Weigh(used, 1) + Weigh(config, 2) + 4 * rest, Weigh(config, 1) + 2 * rest;
    Halved(v, half, used);
    Halved(half, rest, config);
  }

  /** Status zero starts over and keeps the link; starting to run looks at both queues again. */
  lemma ResetExact(n: Net, v: nat)
    ensures WriteWord(n, 0x70, 0) == New(n.link)
    ensures
      v != 0 ==>
        var m, s := WriteWord(n, 0x70, v), NextStatus(v, n.status.needsReset, n.low, n.high);
        if !Running(n) && Running(n.(status := s))
        then m == n.(status := s, rx := n.rx.(pending := n.rx.ready), tx := n.tx.(pending := n.tx.ready))
        else m == n.(status := s)
  {
  }

  /** Registers are four bytes wide, aligned, in one page. */
  lemma RegisterExact(n: Net, offset: nat, size: nat, value: nat)
    ensures WriteRegister(n, offset, size, value).None? <==> size != 4 || offset % 4 != 0 || offset > 4092
    ensures
      size == 4 && offset % 4 == 0 && offset <= 4092 ==>
        WriteRegister(n, offset, size, value) == Some(WriteWord(n, offset, value % 0x1_0000_0000))
  {
  }

  /** A link that changes counts a configuration generation, and tells a running driver that has STATUS. */
  lemma LinkExact(n: Net, up: bool, rest: nat, low: nat, status: bool)
    requires low < 0x1_0000 && n.low == low + Weigh(status, 0x1_0000) + 0x2_0000 * rest
    ensures
      SetLink(n, up)
      == if up == n.link then n
         else n.(link := up, generation := if n.generation % 256 == 255 then 0 else n.generation % 256 + 1,
                 configIrq := n.configIrq || (status && Running(n)))
  {
    assert n.low / 0x1_0000 == Weigh(status, 1) + 2 * rest;
  }

  // ---- What a queue must be ------------------------------------------------------------------------

  /** A power of two of at most 128, aligned tables, each wholly in guest RAM. */
  lemma QueueValidExact(env: Env, q: Queue)
    ensures
      QueueValid(env, q) <==>
        && q.num in {1, 2, 4, 8, 16, 32, 64, 128} && q.desc % 16 == 0 && q.avail % 2 == 0 && q.used % 4 == 0
        && Outside(env, Descriptor(q.desc, 16 * q.num, 0, 0)) && q.desc + 16 * q.num < U64_LIMIT
        && Outside(env, Descriptor(q.avail, 6 + 2 * q.num, 0, 0)) && q.avail + 6 + 2 * q.num < U64_LIMIT
        && Outside(env, Descriptor(q.used, 6 + 8 * q.num, 0, 0)) && q.used + 6 + 8 * q.num < U64_LIMIT
  {
    if q.num > 0 {
      OutsideValid(env, q.desc, 16 * q.num);
      OutsideValid(env, q.avail, 6 + 2 * q.num);
      OutsideValid(env, q.used, 6 + 8 * q.num);
    }
  }

  lemma OutsideValid(env: Env, address: nat, length: nat)
    requires length > 0
    ensures
      env.Valid(address, length) <==> Outside(env, Descriptor(address, length, 0, 0)) && address + length < U64_LIMIT
  {
  }

  /** A two-byte word in guest memory as access `t` finds it. */
  function Found16(env: Env, t: nat, address: nat): nat {
    env.guest(t, address) as nat + 0x100 * env.guest(t, address + 1) as nat
  }

  /**
   Taking a chain, by how many entries `d` the driver is ahead: none and the queue is not looked at again
   until it is kicked, more than fit is an error, else the next entry's chain is followed.
   */
  lemma TakeExact(q: Queue, h: Host, writable: bool, d: nat) returns (f: Host)
    requires QueueValid(h.env, q) && q.ready && q.pending && d < 0x1_0000
    requires (q.nextAvail + d) % 0x1_0000 == Found16(h.env, |h.log|, q.avail + 2)
    ensures f.env == h.env && |f.log| == |h.log| + 1 && Quiet(h, f)
    ensures
      TakeNext(q, h, writable)
      == if d == 0 then Take(q.(pending := false), f, Nothing)
         else if d > q.num then Take(q, f, Bad) else TakeHead(q, f, writable)
  {
    SubrangeValid(h.env, q.avail, 6 + 2 * q.num, q.avail + 2, 2);
    FetchReads(h, q.avail + 2, 2);
    var read := Fetch(h, q.avail + 2, 2);
    f := read.host;
    assert Word16(read.bytes.value, 0) == Found16(h.env, |h.log|, q.avail + 2);
    Distance(q.nextAvail, d, Word16(read.bytes.value, 0));
  }

  lemma Distance(from: nat, d: nat, to: nat)
    requires d < U16_LIMIT && to < U16_LIMIT && (from + d) % U16_LIMIT == to
    ensures (to - from) % U16_LIMIT == d
  {
  }

  /** A well-formed chain of `n` descriptors from `head`, read by the accesses after `t`. */
  ghost predicate ChainFrom(env: Env, q: Queue, writable: bool, t: nat, head: nat, n: nat) {
    WellFormed(TableAt(env, q.desc), Fit(env, writable), t + 1, q.num, head, n)
  }

  /** The next entry's head is taken exactly if a well-formed chain starts there, and then with that chain. */
  lemma HeadExact(q: Queue, h: Host, writable: bool)
    requires QueueValid(h.env, q)
    ensures
      var head := Found16(h.env, |h.log|, q.avail + 4 + 2 * (q.nextAvail % q.num));
      var t := TakeHead(q, h, writable);
      && t.queue == q
      && (t.taken == Bad <==> !exists n: nat :: ChainFrom(h.env, q, writable, |h.log|, head, n))
      && forall n: nat :: ChainFrom(h.env, q, writable, |h.log|, head, n) ==>
           t.taken == Got(head, Chain(TableAt(h.env, q.desc), |h.log| + 1, head, n))
  {
    var f, head := HeadRead(q, h, writable);
    ChainsExact(q, f, writable, head, |h.log|);
  }

  lemma HeadRead(q: Queue, h: Host, writable: bool) returns (f: Host, head: nat)
    requires QueueValid(h.env, q)
    ensures f.env == h.env && |f.log| == |h.log| + 1
    ensures head == Found16(h.env, |h.log|, q.avail + 4 + 2 * (q.nextAvail % q.num))
    ensures
      var w := Walk(f, q.desc, q.num, writable, head, {});
      TakeHead(q, h, writable) == Take(q, w.host, if w.chain.None? then Bad else Got(head, w.chain.value))
  {
    var slot := q.avail + 4 + 2 * (q.nextAvail % q.num);
    SubrangeValid(h.env, q.avail, 6 + 2 * q.num, slot, 2);
    FetchReads(h, slot, 2);
    var read := Fetch(h, slot, 2);
    f, head := read.host, Found16(h.env, |h.log|, slot);
    assert Word16(read.bytes.value, 0) == head;
  }

  lemma ChainsExact(q: Queue, h: Host, writable: bool, head: nat, t: nat)
    requires QueueValid(h.env, q) && |h.log| == t + 1
    ensures
      var w := Walk(h, q.desc, q.num, writable, head, {});
      && (w.chain.Some? <==> exists n: nat :: ChainFrom(h.env, q, writable, t, head, n))
      && forall n: nat :: ChainFrom(h.env, q, writable, t, head, n) ==>
           w.chain == Some(Chain(TableAt(h.env, q.desc), t + 1, head, n))
  {
    WalkExact(h, q.desc, q.num, writable, head);
    assert forall n: nat ::
        ChainFrom(h.env, q, writable, t, head, n)
        <==> WellFormed(TableAt(h.env, q.desc), Fit(h.env, writable), |h.log|, q.num, head, n);
  }

  /** A queue that is not ready or was not kicked is not looked at; one that may not be used breaks the device. */
  lemma TakeNothing(q: Queue, h: Host, writable: bool)
    ensures !q.ready || !q.pending ==> TakeNext(q, h, writable) == Take(q, h, Nothing)
    ensures q.ready && q.pending && !QueueValid(h.env, q) ==> TakeNext(q, h, writable) == Take(q, h, Bad)
  {
  }

  // ---- What is carried ---------------------------------------------------------------------------------

  /** Broken: the driver is asked for a reset, told so, and the error counted. */
  predicate Broke(n: Net, m: Net) {
    m == n.(status := n.status.(needsReset := true), configIrq := true,
            errors := if n.errors < 0xffff_ffff_ffff_ffff then n.errors + 1 else n.errors)
  }

  /** Carried: counted, and the driver told of the used buffer if it wants to be. */
  predicate Told(n: Net, m: Net, wanted: bool) {
    m == n.(rx := m.rx, tx := m.tx, sent := m.sent, received := m.received, usedIrq := n.usedIrq || wanted)
  }

  function Counted(v: nat): nat { if v < 0xffff_ffff_ffff_ffff then v + 1 else v }

  /** No offload, no segmentation, no buffer count: flags, type and `num_buffers` are zero. */
  predicate PlainHeader(b: seq<byte>) { |b| == 12 && b[0] == 0 && b[1] == 0 && b[10] == 0 && b[11] == 0 }

  /**
   A chain to transmit is carried exactly if it is a plain header and a frame of legal length; else the
   device breaks. A driver is told unless bit 0 of the available ring's flags says not to.
   */
  lemma TransmitExact(n: Net, h: Host, head: nat, chain: seq<Descriptor>)
    requires AllValid(h.env, chain) && QueueValid(h.env, n.tx) && n.tx.num > 0
    requires n.errors < U64_LIMIT && n.sent < U64_LIMIT
    ensures
      var o := TransmitChain(n, h, head, chain);
      if 12 + 14 <= Total(chain) <= 12 + 1514 && PlainHeader(Header(h, chain)) then
        && o.frame != [] && |o.host.log| > 0 && o.net.sent == Counted(n.sent) && o.net.received == n.received
        && Told(n, o.net, o.host.env.guest(|o.host.log| - 1, n.tx.avail) % 2 == 0)
      else o.frame == [] && Broke(n, o.net)
  {
    if 12 + 14 <= Total(chain) <= 12 + 1514 {
      GatherReads(h, chain, 0, HEADER_SIZE);
      if PlainHeader(Header(h, chain)) { CarriedExact(n, Gather(h, chain, 0, HEADER_SIZE).host, head, chain); }
    }
  }

  lemma CarriedExact(n: Net, h: Host, head: nat, chain: seq<Descriptor>)
    requires AllValid(h.env, chain) && QueueValid(h.env, n.tx) && Total(chain) > HEADER_SIZE
    requires n.sent < U64_LIMIT
    ensures
      var o := TransmitBody(n, h, head, chain);
      && o.frame != [] && |o.host.log| > 0 && o.net.sent == Counted(n.sent) && o.net.received == n.received
      && Told(n, o.net, o.host.env.guest(|o.host.log| - 1, n.tx.avail) % 2 == 0)
  {
    var mid := TransmitBodyIs(n, h, head, chain);
    Wanted(n.tx, mid, head, 0);
  }

  /** The first twelve bytes of a chain, as read. */
  function Header(h: Host, chain: seq<Descriptor>): seq<byte>
    requires Total(chain) >= 12
  {
    var f := Gather(h, chain, 0, HEADER_SIZE);
    if f.bytes.Some? then f.bytes.value else []
  }

  /** What a completion reads last decides whether the driver is told. */
  lemma Wanted(q: Queue, h: Host, head: nat, length: nat)
    requires QueueValid(h.env, q)
    ensures
      var c := Complete(q, h, head, length);
      && |c.host.log| > 0 && c.host.env == h.env
      && c.notify == Some(h.env.guest(|c.host.log| - 1, q.avail) % 2 == 0)
  {
    CompletePublishes(q, h, head, length);
    WantedBit(h.env.guest(|h.log| + 2, q.avail), h.env.guest(|h.log| + 2, q.avail + 1));
    var last := CompletesValid(q, h, head, length);
  }

  lemma WantedBit(low: byte, high: byte)
    ensures (low as nat + 0x100 * high as nat) % 2 == low as nat % 2
  {
  }

  /** A frame is received exactly if the chain has room for it behind the header; else the device breaks. */
  lemma ReceiveExact(n: Net, h: Host, head: nat, chain: seq<Descriptor>, frame: seq<byte>)
    requires AllValid(h.env, chain) && QueueValid(h.env, n.rx) && 14 <= |frame| <= FRAME_SIZE
    requires n.errors < U64_LIMIT && n.received < U64_LIMIT
    ensures
      var o := ReceiveChain(n, h, head, chain, frame);
      if 12 + |frame| <= Total(chain) then
        && o.accepted && |o.host.log| > 0 && o.net.received == Counted(n.received) && o.net.sent == n.sent
        && Told(n, o.net, o.host.env.guest(|o.host.log| - 1, n.rx.avail) % 2 == 0)
      else !o.accepted && o.host == h && Broke(n, o.net)
  {
    if 12 + |frame| <= Total(chain) {
      SpreadWrites(h, chain, 0, RX_HEADER);
      var header := Spread(h, chain, 0, RX_HEADER).host;
      SpreadWrites(header, chain, HEADER_SIZE, frame);
      var mid := Spread(header, chain, HEADER_SIZE, frame).host;
      CompletePublishes(n.rx, mid, head, HEADER_SIZE + |frame|);
      Wanted(n.rx, mid, head, HEADER_SIZE + |frame|);
    }
  }

  /** Which of these a call does: nothing while not running, nothing without a chain, and it breaks on a bad one. */
  lemma CallExact(n: Net, h: Host, frame: seq<byte>)
    requires n.errors < U64_LIMIT
    ensures
      var t := TakeNext(n.tx, h, false);
      Transmit(n, h)
      == if !Running(n) then Sent(n, h, [])
         else
           var m := n.(tx := t.queue);
           match t.taken
           case Nothing => Sent(m, t.host, [])
           case Bad => Sent(Break(m), t.host, [])
           case Got(head, chain) => TransmitChain(m, t.host, head, chain)
    ensures
      var t := TakeNext(n.rx, h, true);
      Receive(n, h, frame)
      == if !Running(n) || |frame| < 14 || |frame| > 1514 then Delivery(n, h, false)
         else
           var m := n.(rx := t.queue);
           match t.taken
           case Nothing => Delivery(m, t.host, false)
           case Bad => Delivery(Break(m), t.host, false)
           case Got(head, chain) => ReceiveChain(m, t.host, head, chain, frame)
    ensures Broke(n, Break(n))
  {
  }
}
