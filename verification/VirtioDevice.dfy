/** The virtio network device with its registers and queues as mutable state. */
module VirtioDevice {
  import opened Types
  import opened Virtqueue
  import opened Scatter
  import opened VirtioDriver
  import V = VirtioNet

  class QueueDevice {
    var num: nat
    var ready: bool
    var pending: bool
    var desc: nat
    var avail: nat
    var used: nat
    var nextAvail: nat
    var nextUsed: nat

    ghost function View(): V.Queue
      reads this
    {
      V.Queue(num, ready, pending, desc, avail, used, nextAvail, nextUsed)
    }

    constructor ()
      ensures View() == V.FRESH
    {
      num, ready, pending, desc, avail, used, nextAvail, nextUsed := 0, false, false, 0, 0, 0, 0, 0;
    }

    method Clear()
      modifies this
      ensures View() == V.FRESH
    {
      num, ready, pending, desc, avail, used, nextAvail, nextUsed := 0, false, false, 0, 0, 0, 0, 0;
    }

    method Usable(memory: GuestMemory) returns (ok: bool)
      ensures ok == V.QueueValid(memory.env, View())
    {
      ok := num in {1, 2, 4, 8, 16, 32, 64, 128}
        && desc % 16 == 0 && avail % 2 == 0 && used % 4 == 0
        && memory.env.Valid(desc, 16 * num) && memory.env.Valid(avail, 6 + 2 * num)
        && memory.env.Valid(used, 6 + 8 * num);
    }

    /** What a search for a chain answers: `None` is the memory error. */
    ghost predicate Answers(taken: V.Taken, found: Option<bool>, head: nat, chain: seq<Descriptor>) {
      match taken
      case Nothing => found == Some(false)
      case Bad => found == None
      case Got(h, c) => found == Some(true) && head == h && chain == c
    }

    /** `Some(true)` leaves the chain in `chain`. */
    method Next(memory: GuestMemory, writable: bool, chain: Chain) returns (found: Option<bool>, head: nat)
      requires chain.Valid()
      modifies this`pending, chain, chain.segments, memory
      ensures chain.Valid()
      ensures
        var t := V.TakeNext(old(View()), old(memory.View()), writable);
        View() == t.queue && memory.View() == t.host && Answers(t.taken, found, head, chain.View())
    {
      if !ready || !pending { return Some(false), 0; }
      var ok := Usable(memory);
      if !ok { return None, 0; }
      found, head := Counted(memory, writable, chain);
    }

    method Counted(memory: GuestMemory, writable: bool, chain: Chain) returns (found: Option<bool>, head: nat)
      requires chain.Valid() && 0 < num <= QUEUE_SIZE
      modifies this`pending, chain, chain.segments, memory
      ensures chain.Valid()
      ensures
        var t := V.TakeCounted(old(View()), old(memory.View()), writable);
        View() == t.queue && memory.View() == t.host && Answers(t.taken, found, head, chain.View())
    {
      var available := memory.Read(avail + 2, 2);
      if available.None? { return None, 0; }
      var count := (Word16(available.value, 0) - nextAvail) % U16_LIMIT;
      if count == 0 {
        pending := false;
        return Some(false), 0;
      }
      if count > num { return None, 0; }
      found, head := Chase(memory, writable, chain);
    }

    method Chase(memory: GuestMemory, writable: bool, chain: Chain) returns (found: Option<bool>, head: nat)
      requires chain.Valid() && 0 < num <= QUEUE_SIZE
      modifies chain, chain.segments, memory
      ensures chain.Valid()
      ensures
        var t := V.TakeHead(View(), old(memory.View()), writable);
        View() == t.queue && memory.View() == t.host && Answers(t.taken, found, head, chain.View())
    {
      head := 0;
      var bytes := memory.Read(avail + 4 + 2 * (nextAvail % num), 2);
      if bytes.None? { return None, 0; }
      head := Word16(bytes.value, 0);
      var ok := chain.Follow(memory, desc, num, writable, head);
      found := if ok then Some(true) else None;
    }

    method Finish(memory: GuestMemory, head: nat, length: nat) returns (notify: Option<bool>)
      requires num > 0
      modifies this, memory
      ensures
        V.Complete(old(View()), old(memory.View()), head, length) == V.Completion(View(), memory.View(), notify)
    {
      var done := memory.Write(used + 4 + 8 * (nextUsed % num), V.UsedEntry(head, length));
      if !done { return None; }
      nextUsed := (nextUsed + 1) % U16_LIMIT;
      done := memory.Write(used + 2, Le16(nextUsed));
      if !done { return None; }
      nextAvail := (nextAvail + 1) % U16_LIMIT;
      var flags := memory.Read(avail, 2);
      notify := if flags.None? then None else Some(Word16(flags.value, 0) % 2 == 0);
    }

    method Wake()
      modifies this
      ensures View() == V.Wake(old(View()))
    {
      pending := ready;
    }

    method Write(offset: nat, v: nat)
      modifies this
      ensures View() == V.WriteQueue(old(View()), offset, v)
    {
      if offset == 0x44 {
        if v == 0 {
          ready, pending := false, false;
        } else if v == 1 {
          ready, pending := true, true;
        }
      } else if !ready {
        if offset == 0x38 { num := v; }
        else if offset == 0x80 { desc := V.Low(desc, v); }
        else if offset == 0x84 { desc := V.High(desc, v); }
        else if offset == 0x90 { avail := V.Low(avail, v); }
        else if offset == 0x94 { avail := V.High(avail, v); }
        else if offset == 0xa0 { used := V.Low(used, v); }
        else if offset == 0xa4 { used := V.High(used, v); }
      }
    }
  }

  class NetDevice {
    const rx: QueueDevice
    const tx: QueueDevice
    const chain: Chain
    var queueSel: nat
    var deviceSel: nat
    var driverSel: nat
    var low: nat
    var high: nat
    var status: V.Status
    var usedIrq: bool
    var configIrq: bool
    var generation: nat
    var link: bool
    var sent: nat
    var received: nat
    var errors: nat

    ghost predicate Valid()
      reads this, chain, chain.segments
    {
      rx != tx && chain.Valid()
    }

    ghost function View(): V.Net
      reads this, rx, tx
    {
      V.Net(rx.View(), tx.View(), queueSel, deviceSel, driverSel, low, high, status, usedIrq, configIrq, generation,
            link, sent, received, errors)
    }

    constructor ()
      ensures Valid() && View() == V.New(false)
      ensures fresh(rx) && fresh(tx) && fresh(chain) && fresh(chain.segments)
    {
      rx := new QueueDevice();
      tx := new QueueDevice();
      chain := new Chain();
      queueSel, deviceSel, driverSel, low, high := 0, 0, 0, 0, 0;
      status, usedIrq, configIrq, generation, link := V.RESET, false, false, 0, false;
      sent, received, errors := 0, 0, 0;
    }

    method Running() returns (r: bool)
      ensures r == V.Running(View())
    {
      r := status.driverOk && status.featuresOk && !status.needsReset && !status.failed;
    }

    method SetLink(up: bool)
      modifies this
      ensures View() == V.SetLink(old(View()), up)
    {
      if link != up {
        var running := Running();
        link, generation := up, (generation + 1) % 256;
        if running && V.Bit(low, 65536) { configIrq := true; }
      }
    }

    method Broken()
      modifies this
      ensures View() == V.Break(old(View()))
    {
      status, configIrq, errors := status.(needsReset := true), true, V.Up(errors);
    }

    /** The frame the driver queued, or `[]`. */
    method Transmit(memory: GuestMemory) returns (frame: seq<byte>)
      requires Valid()
      modifies this, tx, chain, chain.segments, memory
      ensures Valid()
      ensures V.Transmit(old(View()), old(memory.View())) == V.Sent(View(), memory.View(), frame)
    {
      frame := [];
      var running := Running();
      if running {
        var found, head := tx.Next(memory, false, chain);
        if found.None? {
          Broken();
        } else if found.value {
          frame := TransmitChain(memory, head);
        }
      }
    }

    method TransmitChain(memory: GuestMemory, head: nat) returns (frame: seq<byte>)
      requires Valid()
      modifies this, tx, memory
      ensures Valid()
      ensures V.TransmitChain(old(View()), old(memory.View()), head, chain.View())
           == V.Sent(View(), memory.View(), frame)
    {
      frame := [];
      if chain.length < V.HEADER_SIZE + 14 || chain.length > V.HEADER_SIZE + FRAME_SIZE || tx.num == 0 {
        Broken();
        return;
      }
      var header := chain.Read(memory, 0, V.HEADER_SIZE);
      if header.None? || !V.HeaderOk(header.value) {
        Broken();
        return;
      }
      frame := TransmitBody(memory, head);
    }

    method TransmitBody(memory: GuestMemory, head: nat) returns (frame: seq<byte>)
      requires Valid() && chain.length >= V.HEADER_SIZE && tx.num > 0
      modifies this, tx, memory
      ensures Valid()
      ensures V.TransmitBody(old(View()), old(memory.View()), head, chain.View())
           == V.Sent(View(), memory.View(), frame)
    {
      ghost var f := Gather(memory.View(), chain.View(), V.HEADER_SIZE, chain.length - V.HEADER_SIZE);
      var bytes := chain.Read(memory, V.HEADER_SIZE, chain.length - V.HEADER_SIZE);
      assert Fetched(memory.View(), bytes) == f;
      if bytes.None? {
        Broken();
        return [];
      }
      frame := SendDone(memory, head, bytes.value);
    }

    method SendDone(memory: GuestMemory, head: nat, bytes: seq<byte>) returns (frame: seq<byte>)
      requires Valid() && tx.num > 0
      modifies this, tx, memory
      ensures Valid()
      ensures V.SendDone(old(View()), V.Complete(old(tx.View()), old(memory.View()), head, 0), bytes)
           == V.Sent(View(), memory.View(), frame)
    {
      var notify := tx.Finish(memory, head, 0);
      if notify.None? {
        Broken();
        return [];
      }
      if notify.value { usedIrq := true; }
      sent := V.Up(sent);
      return bytes;
    }

    method Receive(memory: GuestMemory, frame: seq<byte>) returns (accepted: bool)
      requires Valid()
      modifies this, rx, chain, chain.segments, memory
      ensures Valid()
      ensures V.Receive(old(View()), old(memory.View()), frame) == V.Delivery(View(), memory.View(), accepted)
    {
      accepted := false;
      var running := Running();
      if running && 14 <= |frame| <= FRAME_SIZE {
        var found, head := rx.Next(memory, true, chain);
        if found.None? {
          Broken();
        } else if found.value {
          accepted := ReceiveChain(memory, head, frame);
        }
      }
    }

    method ReceiveChain(memory: GuestMemory, head: nat, frame: seq<byte>) returns (accepted: bool)
      requires Valid()
      modifies this, rx, memory
      ensures Valid()
      ensures V.ReceiveChain(old(View()), old(memory.View()), head, chain.View(), frame)
           == V.Delivery(View(), memory.View(), accepted)
    {
      accepted := false;
      if chain.length < V.HEADER_SIZE + |frame| || rx.num == 0 {
        Broken();
        return;
      }
      var done := chain.Write(memory, 0, V.RX_HEADER);
      if !done {
        Broken();
        return;
      }
      done := chain.Write(memory, V.HEADER_SIZE, frame);
      if !done {
        Broken();
        return;
      }
      accepted := ReceiveDone(memory, head, V.HEADER_SIZE + |frame|);
    }

    method ReceiveDone(memory: GuestMemory, head: nat, length: nat) returns (accepted: bool)
      requires Valid() && rx.num > 0
      modifies this, rx, memory
      ensures Valid()
      ensures V.ReceiveDone(old(View()), V.Complete(old(rx.View()), old(memory.View()), head, length))
           == V.Delivery(View(), memory.View(), accepted)
    {
      var notify := rx.Finish(memory, head, length);
      if notify.None? {
        Broken();
        return false;
      }
      if notify.value { usedIrq := true; }
      received := V.Up(received);
      return true;
    }

    method Reset()
      requires Valid()
      modifies this, rx, tx
      ensures Valid() && View() == V.New(old(link))
    {
      rx.Clear();
      tx.Clear();
      ForgetSelections();
      ForgetState();
    }

    method ForgetSelections()
      modifies this`queueSel, this`deviceSel, this`driverSel, this`low, this`high
      ensures queueSel == deviceSel == driverSel == low == high == 0
    {
      queueSel, deviceSel, driverSel, low, high := 0, 0, 0, 0, 0;
    }

    method ForgetState()
      modifies this`status, this`usedIrq, this`configIrq, this`generation, this`sent, this`received, this`errors
      ensures status == V.RESET && !usedIrq && !configIrq && generation == sent == received == errors == 0
    {
      status, usedIrq, configIrq, generation := V.RESET, false, false, 0;
      sent, received, errors := 0, 0, 0;
    }

    method Negotiate(v: nat) returns (next: V.Status)
      ensures next == V.NextStatus(v, status.needsReset, low, high)
    {
      next := V.StatusBits(v);
      if status.needsReset { next := next.(needsReset := true); }
      if next.featuresOk && !V.Supported(low, high) { next := next.(featuresOk := false); }
      if !(next.featuresOk && next.ack && next.driver) { next := next.(driverOk := false); }
    }

    method WriteStatus(v: nat)
      requires Valid()
      modifies this, rx, tx
      ensures Valid() && View() == V.WriteStatus(old(View()), v)
    {
      if v == 0 {
        Reset();
        return;
      }
      var next := Negotiate(v);
      var was := Running();
      status := next;
      var now := Running();
      if !was && now {
        rx.Wake();
        tx.Wake();
      }
    }

    /** One register store by the guest; `false` is the access-size error. */
    method Write(offset: nat, size: nat, value: nat) returns (ok: bool)
      requires Valid()
      modifies this, rx, tx
      ensures Valid() && ok == V.WriteRegister(old(View()), offset, size, value).Some?
      ensures View() == if ok then V.WriteRegister(old(View()), offset, size, value).value else old(View())
    {
      if size != 4 || offset % 4 != 0 || offset >= 4096 { return false; }
      WriteWord(offset, value % U32_LIMIT);
      return true;
    }

    method Choose(offset: nat, v: nat)
      requires offset in {0x14, 0x20, 0x24, 0x30}
      modifies this`deviceSel, this`driverSel, this`queueSel, this`low, this`high
      ensures View() == V.Choose(old(View()), offset, v)
    {
      if offset == 0x14 {
        deviceSel := v;
      } else if offset == 0x24 {
        driverSel := v;
      } else if offset == 0x30 {
        queueSel := v;
      } else if !status.featuresOk && driverSel < 2 {
        if driverSel == 0 { low := v; } else { high := v; }
      }
    }

    method WriteQueue(offset: nat, v: nat)
      requires Valid()
      modifies rx, tx
      ensures rx.View() == if queueSel == V.RX then V.WriteQueue(old(rx.View()), offset, v) else old(rx.View())
      ensures tx.View() == if queueSel == V.TX then V.WriteQueue(old(tx.View()), offset, v) else old(tx.View())
    {
      if queueSel == V.RX {
        rx.Write(offset, v);
      } else if queueSel == V.TX {
        tx.Write(offset, v);
      }
    }

    method Acknowledge(v: nat)
      modifies this`usedIrq, this`configIrq
      ensures usedIrq == (old(usedIrq) && !V.Bit(v, 1)) && configIrq == (old(configIrq) && !V.Bit(v, 2))
    {
      usedIrq, configIrq := usedIrq && !V.Bit(v, 1), configIrq && !V.Bit(v, 2);
    }

    method Act(offset: nat, v: nat)
      requires Valid()
      modifies this, rx, tx
      ensures Valid() && View() == V.Act(old(View()), offset, v)
    {
      if offset == 0x50 {
        if v == V.RX { rx.Wake(); } else if v == V.TX { tx.Wake(); }
      } else if offset == 0x64 {
        Acknowledge(v);
      } else if offset == 0x70 {
        WriteStatus(v);
      } else {
        WriteQueue(offset, v);
      }
    }

    method WriteWord(offset: nat, v: nat)
      requires Valid()
      modifies this, rx, tx
      ensures Valid() && View() == V.WriteWord(old(View()), offset, v)
    {
      if offset in {0x14, 0x20, 0x24, 0x30} {
        Choose(offset, v);
      } else {
        Act(offset, v);
      }
    }
  }
}
