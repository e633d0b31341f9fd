/**
 The GICv2 driver itself: fixed arrays updated in place, loops over registers and slots, and
 memory-mapped hardware. Every method computes the operation of module `Vgic` on `Model()`.
 */
module VgicDriver {
  import opened Types
  import opened Vgic

  /**
   The hypervisor interface (GICH), the acknowledge, end and deactivate registers of GICC, and what they
   act on: the active interrupts, and those among them whose priority still counts. `repended` lists the
   interrupts set pending again through GICD_ISPENDR.
   */
  class Hardware {
    var lrs: seq<Lr>
    var hcr: nat
    ghost var active: set<nat>
    ghost var running: set<nat>
    ghost var repended: seq<nat>

    ghost predicate Valid()
      reads this
    {
      |lrs| == LR_CAPACITY
    }

    constructor ()
      ensures Valid() && fresh(this)
      ensures lrs == seq(LR_CAPACITY, _ => NO_LR) && active == {} && hcr == 0 && running == {} && repended == []
    {
      lrs := seq(LR_CAPACITY, _ => NO_LR);
      hcr := 0;
      active, running, repended := {}, {}, [];
    }

    function Register(word: nat, bit: nat): Lr
      requires Valid() && word < 2 && bit < 32
      reads this
    {
      lrs[32 * word + bit]
    }

    /** One 32-bit word of GICH_ELRSR; registers past the implemented ones read as empty. */
    function Elrsr(word: nat): set<nat>
      requires Valid() && word < 2
      reads this
    {
      set bit: nat | bit < 32 && IsEmpty(Register(word, bit))
    }

    function Eisr(word: nat): set<nat>
      requires Valid() && word < 2
      reads this
    {
      set bit: nat | bit < 32 && IsEoi(Register(word, bit))
    }

    method WriteLr(i: nat, word: nat)
      requires Valid() && i < LR_CAPACITY
      modifies this`lrs
      ensures Valid() && lrs == old(lrs)[i := DecodeLr(word)]
    {
      lrs := lrs[i := DecodeLr(word)];
    }

    /** GICC_EOIR under EOImodeNS: the priority is dropped, nothing is deactivated. */
    method WriteEoir(iar: Iar)
      requires iar.id < 1020 && Key(iar) in running
      modifies this`running
      ensures running == old(running) - {Key(iar)}
    {
      running := running - {Key(iar)};
    }

    /** GICC_DIR, which must come after the priority drop. */
    method WriteDir(iar: Iar)
      requires iar.id < 1020 && Key(iar) !in running
      modifies this`active
      ensures active == old(active) - {Key(iar)}
    {
      active := active - {Key(iar)};
    }

    /** Reading GICC_IAR activates the interrupt that the controller presents. */
    method Acknowledge(iar: Iar)
      modifies this`active, this`running
      ensures iar.id >= 1020 ==> active == old(active) && running == old(running)
      ensures iar.id < 1020 ==> active == old(active) + {Key(iar)} && running == old(running) + {Key(iar)}
    {
      if iar.id < 1020 {
        active, running := active + {Key(iar)}, running + {Key(iar)};
      }
    }

    method SetPending(id: nat)
      modifies this`repended
      ensures repended == old(repended) + [id]
    {
      repended := repended + [id];
    }
  }

  class GicV2 {
    const mmio: Hardware
    const pending: array<Pending>
    const lrIar: array<Iar>
    var listRegisters: nat
    var distributorEnabled: bool
    var pendingCount: nat
    var ownedInterrupt: nat
    var networkInterrupt: nat
    ghost var tokens: set<nat>

    ghost predicate Valid()
      reads this, mmio
    {
      && mmio.Valid() && pending.Length == PENDING_SLOTS && lrIar.Length == LR_CAPACITY
      && 1 <= listRegisters <= LR_CAPACITY
    }

    ghost function Model(): (s: State)
      requires Valid()
      reads this, mmio, pending, lrIar
      ensures Shape(s)
    {
      State(listRegisters, mmio.lrs, mmio.active, mmio.hcr % 2 == 1, mmio.hcr / 2 % 2 == 1,
            distributorEnabled, pending[..], pendingCount, lrIar[..],
            ownedInterrupt, networkInterrupt, tokens)
    }

    constructor (count: nat, owned: nat, network: nat)
      requires 1 <= count <= LR_CAPACITY
      ensures Valid() && fresh(mmio) && fresh(pending) && fresh(lrIar)
      ensures Model() == State(count, seq(LR_CAPACITY, _ => NO_LR), {}, true, false, true,
        seq(PENDING_SLOTS, _ => EMPTY), 0, seq(LR_CAPACITY, _ => SPURIOUS), owned, network, {})
    {
      var hardware := new Hardware();
      mmio := hardware;
      pending := new Pending[PENDING_SLOTS](_ => EMPTY);
      lrIar := new Iar[LR_CAPACITY](_ => SPURIOUS);
      listRegisters, distributorEnabled, pendingCount := count, true, 0;
      ownedInterrupt, networkInterrupt, tokens := owned, network, {};
      new;
      mmio.hcr := 1;
    }

    method EmptyRegisters() returns (mask: set<nat>)
      requires Valid()
      ensures mask == EmptyLrs(Model())
    {
      var low := mmio.Elrsr(0);
      var high: set<nat> := {};
      if listRegisters > 32 {
        high := set bit | bit in mmio.Elrsr(1) :: bit + 32;
      }
      mask := set i | i in low + high && i < listRegisters;
      assert forall i :: i in high ==> i - 32 in mmio.Elrsr(1);
      forall i: nat | i in EmptyLrs(Model()) ensures i in mask {
        if i >= 32 { assert i - 32 in mmio.Elrsr(1); }
      }
    }

    method EoiRegisters() returns (mask: set<nat>)
      requires Valid()
      ensures forall i: nat :: i < listRegisters ==> (i in mask <==> i in EoiLrs(Model()))
    {
      mask := mmio.Eisr(0);
      if listRegisters > 32 {
        var high := set bit | bit in mmio.Eisr(1) :: bit + 32;
        forall i: nat | 32 <= i < listRegisters ensures i in high <==> i in EoiLrs(Model()) {
          if i in EoiLrs(Model()) { assert i - 32 in mmio.Eisr(1); }
        }
        mask := mask + high;
      }
    }

    /** No software interrupt is still running, so each EOI collected may be deactivated. */
    ghost predicate Dropped()
      reads mmio
    {
      forall k :: k in mmio.running ==> k >= SGI_SLOTS
    }

    method DrainSgiEois()
      requires Valid() && Dropped()
      modifies mmio`lrs, mmio`active, lrIar
      ensures Valid() && Model() == Drain(old(Model()))
    {
      var eois := EoiRegisters();
      ghost var was := Model();
      for index := 0 to listRegisters
        invariant Valid() && Model() == DrainUpTo(was, EoiLrs(was), index)
      {
        if index in eois { CollectEoi(index); }
      }
    }

    /** A register whose guest interrupt ended is emptied, and its physical SGI deactivated. */
    method CollectEoi(index: nat)
      requires Valid() && Dropped() && index < listRegisters
      modifies mmio`lrs, mmio`active, lrIar
      ensures Valid() && Model() == Emptied(old(Model()), index)
    {
      mmio.WriteLr(index, 0);
      var iar := lrIar[index];
      lrIar[index] := SPURIOUS;
      if iar.id < 16 {
        mmio.WriteDir(iar);
      }
    }

    method InjectAt(index: nat, p: Pending)
      requires Valid() && index < LR_CAPACITY
      modifies mmio`lrs, lrIar
      ensures Valid() && Model() == Inject(old(Model()), index, p)
    {
      lrIar[index] := if p.iar.id < 16 then p.iar else SPURIOUS;
      mmio.WriteLr(index, EncodeLr(p));
    }

    predicate CanTake(p: Pending)
      requires Valid()
      reads this, mmio, pending, lrIar
      ensures CanTake(p) == Injectable(Model(), p)
    {
      p.iar.id >= 16 || !exists i: nat :: i < listRegisters && lrIar[i].id == p.iar.id
    }

    method EnqueuePending(p: Pending)
      requires Valid()
      modifies this`pendingCount, pending
      ensures Valid() && Model() == Enqueue(old(Model()), p)
    {
      match Slot(p.iar)
      case Some(slot) =>
        if !pending[slot].Valid() {
          pending[slot] := p;
          pendingCount := pendingCount + 1;
        }
      case None =>
    }

    method TryInject(p: Pending) returns (done: bool)
      requires Valid()
      modifies mmio`lrs, lrIar
      ensures Valid() && done == CanInject(old(Model()), p)
      ensures Model() ==
        if done then Inject(old(Model()), Lowest(EmptyLrs(old(Model()))), p) else old(Model())
    {
      if !distributorEnabled || !CanTake(p) {
        return false;
      }
      var empty := EmptyRegisters();
      if empty == {} {
        return false;
      }
      InjectAt(Lowest(empty), p);
      return true;
    }

    method PopHighest() returns (popped: Option<Pending>)
      requires Valid() && pendingCount > 0
      modifies this`pendingCount, pending
      ensures Valid()
      ensures match Best(old(Model()))
        case None => popped == None && Model() == old(Model())
        case Some(k) => popped == Some(old(Model()).pending[k]) && Model() == Pop(old(Model()), k)
    {
      var best: Option<nat> := None;
      for index := 0 to PENDING_SLOTS
        invariant best == BestUpTo(Model(), index)
      {
        var value := pending[index];
        if value.Valid() && CanTake(value) && (best.None? || Before(value, pending[best.value])) {
          best := Some(index);
        }
      }
      match best
      case None => popped := None;
      case Some(k) =>
        pendingCount := pendingCount - 1;
        popped := Some(pending[k]);
        pending[k] := EMPTY;
    }

    method WriteControl()
      requires Valid()
      modifies mmio`hcr
      ensures Valid() && Model() == UpdateHcr(old(Model()))
    {
      var control := 0;
      if distributorEnabled {
        control := 1;
        if pendingCount != 0 && exists k: nat :: k < PENDING_SLOTS && pending[k].Valid() && CanTake(pending[k]) {
          control := 3;
        }
      }
      assert HasInjectable(Model()) <==>
        exists k: nat :: k < PENDING_SLOTS && pending[k].Valid() && CanTake(pending[k]) by {
        assert forall k: nat :: k < PENDING_SLOTS ==>
          (Candidate(Model(), k) <==> pending[k].Valid() && CanTake(pending[k]));
      }
      mmio.hcr := control;
    }

    method RefillRegisters()
      requires Valid()
      modifies this`pendingCount, mmio`lrs, mmio`hcr, pending, lrIar
      ensures Valid() && Model() == Refill(old(Model()))
    {
      if distributorEnabled {
        var empty: set<nat> := EmptyRegisters();
        while empty != {} && pendingCount != 0
          invariant Valid() && distributorEnabled && forall i :: i in empty ==> i < LR_CAPACITY
          invariant RefillLoop(Model(), empty) == RefillLoop(old(Model()), EmptyLrs(old(Model())))
          decreases |empty|
        {
          var popped := PopHighest();
          if popped.None? {
            break;
          }
          var index := Lowest(empty);
          InjectAt(index, popped.value);
          empty := empty - {index};
        }
      }
      WriteControl();
    }

    method DeliverPending(p: Pending)
      requires Valid()
      modifies this`pendingCount, mmio`lrs, mmio`hcr, pending, lrIar
      ensures Valid() && Model() == Deliver(old(Model()), p)
    {
      var done := false;
      if pendingCount == 0 {
        done := TryInject(p);
      }
      if !done {
        EnqueuePending(p);
        RefillRegisters();
      }
    }

    method PollInterrupts()
      requires Valid() && Dropped()
      modifies this`pendingCount, mmio`lrs, mmio`hcr, mmio`active, pending, lrIar
      ensures Valid() && Model() == Poll(old(Model()))
    {
      DrainSgiEois();
      RefillRegisters();
    }

    method SetDistributorEnabled(enabled: bool)
      requires Valid()
      modifies this`pendingCount, this`distributorEnabled, mmio`lrs, mmio`hcr, pending, lrIar
      ensures Valid() && Model() == SetEnabled(old(Model()), enabled)
    {
      if distributorEnabled != enabled {
        distributorEnabled := enabled;
        RefillRegisters();
      }
    }

    /**
     `word` and `rpr` are what GICC_IAR and then GICC_RPR return. Whatever was acknowledged, its priority
     has been dropped when the method returns.
     */
    method TakeInterrupt(word: nat, rpr: nat)
      requires Valid() && mmio.running == {}
      modifies this`pendingCount, this`tokens, mmio`lrs, mmio`hcr, mmio`active, mmio`running, pending, lrIar
      ensures Valid() && Model() == Take(old(Model()), UnpackIar(word), rpr) && mmio.running == {}
    {
      var iar := UnpackIar(word);
      mmio.Acknowledge(iar);
      if iar.id >= 1020 {
        return;
      }
      if iar.id == MAINTENANCE_IRQ {
        PollInterrupts();
        mmio.WriteEoir(iar);
        mmio.WriteDir(iar);
        return;
      }
      var p := Pending(iar, rpr / 8 % 32);
      mmio.WriteEoir(iar);
      if iar.id == ownedInterrupt || iar.id == networkInterrupt {
        tokens := tokens + {Key(iar)};
        return;
      }
      DeliverPending(p);
    }

    /** A delivered interrupt is first set pending again: one still asserted comes back after the guest's EOI. */
    method FinishOwnedInterrupt(p: Pending, deliver: bool)
      requires Valid() && p.Valid() && mmio.running == {}
      modifies this`pendingCount, this`tokens, mmio`lrs, mmio`hcr, mmio`active, mmio`repended, pending, lrIar
      ensures Valid() && Model() == Finish(old(Model()), p, deliver)
      ensures mmio.repended == old(mmio.repended) + if deliver then [p.iar.id] else []
    {
      tokens := tokens - {Key(p.iar)};
      if deliver {
        mmio.SetPending(p.iar.id);
        DeliverPending(p);
      } else {
        mmio.WriteDir(p.iar);
      }
    }
  }
}
