/** The virtio network device: queue progress, the status register, and one packet in each direction. */
module VirtioNet {
  import opened Types
  import opened Virtqueue
  import opened Scatter
  import Loader

  const HEADER_SIZE := 12
  const TX := 1
  const RX := 0

  // ---- Queues ---------------------------------------------------------------------------------

  datatype Queue = Queue(
    num: nat, ready: bool, pending: bool, desc: nat, avail: nat, used: nat, nextAvail: nat, nextUsed: nat)

  const FRESH := Queue(0, false, false, 0, 0, 0, 0, 0)

  predicate QueueValid(env: Env, q: Queue) {
    && q.num in {1, 2, 4, 8, 16, 32, 64, 128}
    && q.desc % 16 == 0 && q.avail % 2 == 0 && q.used % 4 == 0
    && env.Valid(q.desc, 16 * q.num) && env.Valid(q.avail, 6 + 2 * q.num) && env.Valid(q.used, 6 + 8 * q.num)
  }

  datatype Taken = Nothing | Bad | Got(head: nat, chain: seq<Descriptor>)

  datatype Take = Take(queue: Queue, host: Host, taken: Taken)

  /** The next available chain, if the driver was heard to add one. */
  function TakeNext(q: Queue, h: Host, writable: bool): Take {
    if !q.ready || !q.pending then Take(q, h, Nothing)
    else if !QueueValid(h.env, q) then Take(q, h, Bad)
    else TakeCounted(q, h, writable)
  }

  function TakeCounted(q: Queue, h: Host, writable: bool): Take
    requires q.num > 0
  {
    var f := Fetch(h, q.avail + 2, 2);
    if f.bytes.None? then Take(q, f.host, Bad)
    else
      var count := (Word16(f.bytes.value, 0) - q.nextAvail) % U16_LIMIT;
      if count == 0 then Take(q.(pending := false), f.host, Nothing)
      else if count > q.num then Take(q, f.host, Bad)
      else TakeHead(q, f.host, writable)
  }

  function TakeHead(q: Queue, h: Host, writable: bool): Take
    requires q.num > 0
  {
    var f := Fetch(h, q.avail + 4 + 2 * (q.nextAvail % q.num), 2);
    if f.bytes.None? then Take(q, f.host, Bad)
    else
      var head := Word16(f.bytes.value, 0);
      var w := Walk(f.host, q.desc, q.num, writable, head, {});
      Take(q, w.host, if w.chain.None? then Bad else Got(head, w.chain.value))
  }

  datatype Completion = Completion(queue: Queue, host: Host, notify: Option<bool>)

  function UsedEntry(head: nat, length: nat): seq<byte> { Loader.Le32(head) + Loader.Le32(length) }

  /** Publish a used entry, then the index, then ask whether the driver wants an interrupt. */
  function Complete(q: Queue, h: Host, head: nat, length: nat): Completion
    requires q.num > 0
  {
    var entry := Write(h, q.used + 4 + 8 * (q.nextUsed % q.num), UsedEntry(head, length));
    if !entry.done then Completion(q, entry.host, None)
    else
      var q1 := q.(nextUsed := (q.nextUsed + 1) % U16_LIMIT);
      var index := Write(entry.host, q.used + 2, Le16(q1.nextUsed));
      if !index.done then Completion(q1, index.host, None)
      else
        var q2 := q1.(nextAvail := (q.nextAvail + 1) % U16_LIMIT);
        var f := Fetch(index.host, q.avail, 2);
        Completion(q2, f.host, if f.bytes.None? then None else Some(Word16(f.bytes.value, 0) % 2 == 0))
  }

  // ---- The device ------------------------------------------------------------------------------

  /** The six status bits that are kept: 0, 1, 2, 3, 6 and 7. */
  datatype Status = Status(ack: bool, driver: bool, driverOk: bool, featuresOk: bool, needsReset: bool, failed: bool)

  const RESET := Status(false, false, false, false, false, false)

  function Bit(v: nat, weight: nat): bool
    requires weight > 0
  {
    v / weight % 2 == 1
  }

  function StatusBits(v: nat): Status {
    Status(Bit(v, 1), Bit(v, 2), Bit(v, 4), Bit(v, 8), Bit(v, 64), Bit(v, 128))
  }

  datatype Net = Net(
    rx: Queue, tx: Queue, queueSel: nat, deviceSel: nat, driverSel: nat, low: nat, high: nat, status: Status,
    usedIrq: bool, configIrq: bool, generation: nat, link: bool, sent: nat, received: nat, errors: nat)

  function New(link: bool): Net { Net(FRESH, FRESH, 0, 0, 0, 0, 0, RESET, false, false, 0, link, 0, 0, 0) }

  predicate Running(n: Net) {
    n.status.driverOk && n.status.featuresOk && !n.status.needsReset && !n.status.failed
  }

  function Up(v: nat): nat { if v + 1 < U64_LIMIT then v + 1 else v }

  function Break(n: Net): Net {
    n.(status := n.status.(needsReset := true), configIrq := true, errors := Up(n.errors))
  }

  function SetLink(n: Net, up: bool): Net {
    if n.link == up then n
    else n.(link := up, generation := (n.generation + 1) % 256,
            configIrq := n.configIrq || (Running(n) && Bit(n.low, 65536)))
  }

  datatype Sent = Sent(net: Net, host: Host, frame: seq<byte>)

  predicate HeaderOk(b: seq<byte>)
    requires |b| == HEADER_SIZE
  {
    b[0] == 0 && b[1] == 0 && b[10] == 0 && b[11] == 0
  }

  /** One packet from the driver; `[]` when there is none or the device broke. */
  function Transmit(n: Net, h: Host): Sent {
    if !Running(n) then Sent(n, h, [])
    else
      var t := TakeNext(n.tx, h, false);
      var m := n.(tx := t.queue);
      match t.taken
      case Nothing => Sent(m, t.host, [])
      case Bad => Sent(Break(m), t.host, [])
      case Got(head, chain) => TransmitChain(m, t.host, head, chain)
  }

  function TransmitChain(n: Net, h: Host, head: nat, chain: seq<Descriptor>): Sent {
    var total := Total(chain);
    if total < HEADER_SIZE + 14 || total > HEADER_SIZE + FRAME_SIZE || n.tx.num == 0 then Sent(Break(n), h, [])
    else
      var header := Gather(h, chain, 0, HEADER_SIZE);
      if header.bytes.None? || !HeaderOk(header.bytes.value) then Sent(Break(n), header.host, [])
      else
        TransmitBody(n, header.host, head, chain)
  }

  function TransmitBody(n: Net, h: Host, head: nat, chain: seq<Descriptor>): Sent
    requires Total(chain) >= HEADER_SIZE && n.tx.num > 0
  {
    var frame := Gather(h, chain, HEADER_SIZE, Total(chain) - HEADER_SIZE);
    if frame.bytes.None? then Sent(Break(n), frame.host, [])
    else SendDone(n, Complete(n.tx, frame.host, head, 0), frame.bytes.value)
  }

  function SendDone(n: Net, c: Completion, frame: seq<byte>): Sent {
    var m := n.(tx := c.queue);
    if c.notify.None? then Sent(Break(m), c.host, [])
    else Sent(m.(usedIrq := m.usedIrq || c.notify.value, sent := Up(m.sent)), c.host, frame)
  }

  datatype Delivery = Delivery(net: Net, host: Host, accepted: bool)

  /** `num_buffers` is 1 and nothing else is set. */
  const RX_HEADER: seq<byte> := [0, 0, 0, 0, 0, 0, 0, 0, 0, 0, 1, 0]

  function Receive(n: Net, h: Host, frame: seq<byte>): Delivery {
    if !Running(n) || |frame| < 14 || |frame| > FRAME_SIZE then Delivery(n, h, false)
    else
      var t := TakeNext(n.rx, h, true);
      var m := n.(rx := t.queue);
      match t.taken
      case Nothing => Delivery(m, t.host, false)
      case Bad => Delivery(Break(m), t.host, false)
      case Got(head, chain) => ReceiveChain(m, t.host, head, chain, frame)
  }

  function ReceiveChain(n: Net, h: Host, head: nat, chain: seq<Descriptor>, frame: seq<byte>): Delivery {
    if Total(chain) < HEADER_SIZE + |frame| || n.rx.num == 0 then Delivery(Break(n), h, false)
    else
      var header := Spread(h, chain, 0, RX_HEADER);
      if !header.done then Delivery(Break(n), header.host, false)
      else
        var body := Spread(header.host, chain, HEADER_SIZE, frame);
        if !body.done then Delivery(Break(n), body.host, false)
        else ReceiveDone(n, Complete(n.rx, body.host, head, HEADER_SIZE + |frame|))
  }

  function ReceiveDone(n: Net, c: Completion): Delivery {
    var m := n.(rx := c.queue);
    if c.notify.None? then Delivery(Break(m), c.host, false)
    else Delivery(m.(usedIrq := m.usedIrq || c.notify.value, received := Up(m.received)), c.host, true)
  }

  // ---- Registers ---------------------------------------------------------------------------------

  /** Only MAC, STATUS and VERSION_1 may be accepted, and VERSION_1 must be. */
  predicate Supported(low: nat, high: nat) { high == 1 && low in {0, 32, 65536, 65568} }

  function Wake(q: Queue): Queue { q.(pending := q.ready) }

  /** NEEDS_RESET sticks, and neither FEATURES_OK nor DRIVER_OK is taken without what it stands for. */
  function NextStatus(v: nat, needsReset: bool, low: nat, high: nat): Status {
    var asked := StatusBits(v).(needsReset := Bit(v, 64) || needsReset);
    var s := asked.(featuresOk := asked.featuresOk && Supported(low, high));
    s.(driverOk := s.driverOk && s.featuresOk && s.ack && s.driver)
  }

  function WriteStatus(n: Net, v: nat): Net {
    if v == 0 then New(n.link)
    else
      var m := n.(status := NextStatus(v, n.status.needsReset, n.low, n.high));
      if !Running(n) && Running(m) then m.(rx := Wake(m.rx), tx := Wake(m.tx)) else m
  }

  function Low(address: nat, v: nat): nat { address / U32_LIMIT * U32_LIMIT + v }

  function High(address: nat, v: nat): nat { address % U32_LIMIT + v * U32_LIMIT }

  function WriteQueue(q: Queue, offset: nat, v: nat): Queue {
    if offset == 0x44 then
      if v == 0 then q.(ready := false, pending := false)
      else if v == 1 then q.(ready := true, pending := true)
      else q
    else if q.ready then q
    else if offset == 0x38 then q.(num := v)
    else if offset == 0x80 then q.(desc := Low(q.desc, v))
    else if offset == 0x84 then q.(desc := High(q.desc, v))
    else if offset == 0x90 then q.(avail := Low(q.avail, v))
    else if offset == 0x94 then q.(avail := High(q.avail, v))
    else if offset == 0xa0 then q.(used := Low(q.used, v))
    else if offset == 0xa4 then q.(used := High(q.used, v))
    else q
  }

  /** A guest store to a device register; `None` is the access-size error. */
  function WriteRegister(n: Net, offset: nat, size: nat, value: nat): Option<Net> {
    if size != 4 || offset % 4 != 0 || offset >= 4096 then None
    else Some(WriteWord(n, offset, value % U32_LIMIT))
  }

  function WriteWord(n: Net, offset: nat, v: nat): Net {
    if offset in {0x14, 0x20, 0x24, 0x30} then Choose(n, offset, v) else Act(n, offset, v)
  }

  /** The selectors and the features accepted. */
  function Choose(n: Net, offset: nat, v: nat): Net {
    if offset == 0x14 then n.(deviceSel := v)
    else if offset == 0x24 then n.(driverSel := v)
    else if offset == 0x30 then n.(queueSel := v)
    else if n.status.featuresOk || n.driverSel >= 2 then n
    else if n.driverSel == 0 then n.(low := v) else n.(high := v)
  }

  function Act(n: Net, offset: nat, v: nat): Net {
    if offset == 0x50 then
      if v == RX then n.(rx := Wake(n.rx)) else if v == TX then n.(tx := Wake(n.tx)) else n
    else if offset == 0x64 then n.(usedIrq := n.usedIrq && !Bit(v, 1), configIrq := n.configIrq && !Bit(v, 2))
    else if offset == 0x70 then WriteStatus(n, v)
    else if n.queueSel == RX then n.(rx := WriteQueue(n.rx, offset, v))
    else if n.queueSel == TX then n.(tx := WriteQueue(n.tx, offset, v))
    else n
  }
}
