/** The NCM receive half of the controller driver, over its endpoint's ring and two DMA buffers. */
module XudcDriver {
  import opened Types
  import opened XudcRing
  import R = XudcReceive
  import Ncm

  class Receiver {
    const ring: Endpoint
    const slots: array<R.Slot>
    const buffers: array<seq<byte>>
    var active: bool
    var failed: bool
    var index: nat
    var block: seq<Ncm.Datagram>
    var cursor: nat

    ghost predicate Valid()
      reads this, ring, ring.words, ring.bits, slots, buffers
    {
      slots.Length == R.SLOT_COUNT && buffers.Length == R.SLOT_COUNT && ring.Valid() && R.Shaped(View())
    }

    ghost function View(): R.State
      requires slots.Length == R.SLOT_COUNT && buffers.Length == R.SLOT_COUNT && ring.Valid()
      reads this, ring, ring.words, ring.bits, slots, buffers
    {
      R.State(active, failed, slots[..], index, block, cursor, ring.View(), buffers[..])
    }

    constructor ()
      ensures Valid() && View() == R.Start(buffers[..]).state
      ensures fresh(ring) && fresh(ring.words) && fresh(ring.bits) && fresh(slots) && fresh(buffers)
    {
      ring := new Endpoint();
      slots := new R.Slot[R.SLOT_COUNT](_ => R.NO_SLOT);
      buffers := new seq<byte>[R.SLOT_COUNT](_ => seq(Ncm.NTB_SIZE, _ => 0));
      active, failed, index, block, cursor := false, false, 0, [], 0;
    }

    method ArmSlot(i: nat)
      requires Valid() && i < R.SLOT_COUNT
      modifies ring, ring.words, ring.bits, slots
      ensures Valid() && View() == R.ArmSlot(old(View()), i)
    {
      if slots[i].out.None? && slots[i].length.None? {
        ghost var before := View();
        var pointer := ring.Queue(R.Descriptor(i));
        if pointer.Some? {
          slots[i] := R.Slot(pointer, None);
          assert slots[..] == before.slots[i := R.Slot(pointer, None)];
        }
      }
    }

    /** Refill in consumption order, even if both slots are free. */
    method Arm(halted: bool)
      requires Valid()
      modifies ring, ring.words, ring.bits, slots
      ensures Valid() && View() == R.Arm(old(View()), halted)
    {
      if active && !failed && !halted {
        ghost var first := R.ArmSlot(View(), index);
        ArmSlot(index);
        assert View() == first;
        ArmSlot(if index == 0 then 1 else 0);
      }
    }

    /** A transfer event of the OUT endpoint. */
    method Complete(pointer: nat, fine: bool, remaining: nat)
      requires Valid()
      modifies this`failed, ring`occupied, slots
      ensures Valid() && View() == R.Completed(old(View()), pointer, fine, remaining)
    {
      ghost var before := View();
      var outstanding := ring.Complete(pointer);
      if !outstanding { return; }
      if !fine {
        failed := true;
        return;
      }
      Finish(pointer, remaining, before);
    }

    /** The slot that waits for `pointer`, if there is one, completes. */
    method Finish(pointer: nat, remaining: nat, ghost before: R.State)
      requires Valid() && R.Shaped(before) && Retire(before.ring, pointer) == (ring.View(), true)
      requires View() == before.(ring := ring.View())
      modifies this`failed, slots
      ensures Valid() && View() == R.Completed(before, pointer, true, remaining)
    {
      for i := 0 to R.SLOT_COUNT
        invariant Valid() && View() == before.(ring := ring.View()) && ring.View() == old(ring.View())
        invariant forall j: nat :: j < i ==> slots[j].out != Some(pointer)
      {
        if slots[i].out == Some(pointer) {
          if remaining > Ncm.NTB_SIZE {
            failed := true;
          } else {
            slots[i] := R.Slot(None, Some(Ncm.NTB_SIZE - remaining));
            assert slots[..] == before.slots[i := R.Slot(None, Some(Ncm.NTB_SIZE - remaining))];
          }
          return;
        }
      }
    }

    method Release(halted: bool)
      requires Valid()
      modifies this, ring, ring.words, ring.bits, slots
      ensures Valid() && View() == R.Release(old(View()), halted)
    {
      ghost var before := View();
      slots[index] := R.Slot(slots[index].out, None);
      index, block, cursor := if index == 0 then 1 else 0, [], 0;
      assert View() == R.Released(before);
      Arm(halted);
    }

    /** Decode the next completed block if none is in progress; whether there is one. */
    method Open() returns (open: bool)
      requires Valid()
      modifies this`block, this`cursor
      ensures Valid() && open == R.Opened(old(View())).Some?
      ensures View() == if open then R.Opened(old(View())).value else old(View())
    {
      if cursor != |block| { return true; }
      var length := slots[index].length;
      if length.None? || length.value > Ncm.NTB_SIZE { return false; }
      cursor := 0;
      var decoded := Ncm.Decode(buffers[index][..length.value]);
      block := match decoded case Ok(ds) => ds case Err(_) => [];
      return true;
    }

    /** One datagram for the callback, if one is there. */
    method ReceiveFrame(halted: bool) returns (frame: Option<seq<byte>>)
      requires Valid()
      modifies this, ring, ring.words, ring.bits, slots
      ensures Valid() && R.Received(View(), frame) == R.Receive(old(View()), halted)
    {
      if !active || failed { return None; }
      var open := Open();
      if !open { return None; }
      frame := Drain(halted);
    }

    method Drain(halted: bool) returns (frame: Option<seq<byte>>)
      requires Valid()
      modifies this, ring, ring.words, ring.bits, slots
      ensures Valid() && R.Received(View(), frame) == R.Drained(old(View()), halted)
    {
      if cursor >= |block| {
        Release(halted);
        return None;
      }
      var d := block[cursor];
      frame := Some(if R.InBuffer(d) then buffers[index][d.offset..d.offset + d.length] else []);
      cursor := cursor + 1;
      if cursor == |block| { Release(halted); }
    }

    /** A new alternate setting, or a cleared halt; the ring is only set up for use. */
    method Restart(on: bool)
      requires Valid()
      modifies this, ring, ring.words, ring.bits, slots
      ensures Valid() && View() == R.Restart(old(View()), on)
    {
      slots[0], slots[1] := R.NO_SLOT, R.NO_SLOT;
      assert slots[..] == [R.NO_SLOT, R.NO_SLOT];
      active, index, block, cursor := on, 0, [], 0;
      if on { ring.Reset(); }
    }

    method ResetPort()
      requires Valid()
      modifies this, ring, ring.words, ring.bits, slots
      ensures Valid() && View() == R.PortReset(old(View()))
    {
      Restart(false);
      failed := false;
    }
  }
}
