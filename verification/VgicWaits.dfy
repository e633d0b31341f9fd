/**
 What becomes of one acknowledged interrupt: the priority it carries until the guest takes it, and
 that it is not left in the overflow beside a free list register.
 */
module VgicWaits {
  import opened Types
  import opened Vgic
  import opened VgicRuns

  /** The two fields of GICC_IAR: bits 0 to 9 and 10 to 12. */
  lemma IarUnpacked(word: nat)
    requires word < 0x2000
    ensures word == UnpackIar(word).id + 0x400 * UnpackIar(word).source
  {
  }

  /** A pending list register for `iar`: linked to its own physical id, or an SGI from its source. */
  predicate Offers(lr: Lr, iar: Iar, priority: nat) {
    && lr.state == 1 && lr.id == iar.id && lr.priority == priority
    && if iar.id < 16 then !lr.hw && lr.eoi && lr.source == iar.source else lr.hw && lr.physical == iar.id
  }

  /** `iar` is on its way to the guest with this priority: in its overflow slot, or pending in a register. */
  ghost predicate Waits(s: State, iar: Iar, priority: nat)
    requires Shape(s) && iar.id < 1020
  {
    || s.pending[Key(iar)] == Pending(iar, priority)
    || exists i: nat :: i < s.n && Offers(s.lrs[i], iar, priority)
  }

  lemma EntryOffers(p: Pending)
    requires p.Valid() && p.priority < 32
    ensures Offers(DecodeLr(EncodeLr(p)), p.iar, p.priority)
  {
    EncodedLr(p);
  }

  /** A write to a register that offers nothing loses no waiting interrupt. */
  lemma InjectWaits(s: State, i: nat, p: Pending, iar: Iar, priority: nat)
    requires Shape(s) && i < s.n && s.lrs[i].state != 1 && iar.id < 1020 && Waits(s, iar, priority)
    ensures Waits(Inject(s, i, p), iar, priority)
  {
    if s.pending[Key(iar)] != Pending(iar, priority) {
      var j: nat :| j < s.n && Offers(s.lrs[j], iar, priority);
      assert Inject(s, i, p).lrs[j] == s.lrs[j];
    }
  }

  lemma InjectedWaits(s: State, i: nat, p: Pending)
    requires Shape(s) && i < s.n && p.Valid() && p.priority < 32
    ensures Waits(Inject(s, i, p), p.iar, p.priority)
  {
    EntryOffers(p);
    assert Offers(Inject(s, i, p).lrs[i], p.iar, p.priority);
  }

  /** Moving slot `k` into register `i` loses no waiting interrupt, that of the slot included. */
  lemma MoveWaits(s: State, k: nat, i: nat, iar: Iar, priority: nat)
    requires Shape(s) && k < PENDING_SLOTS && s.count > 0 && i < s.n && s.lrs[i].state != 1
    requires s.pending[k].Valid() && s.pending[k].priority < 32 && iar.id < 1020 && Waits(s, iar, priority)
    ensures Waits(Inject(Pop(s, k), i, s.pending[k]), iar, priority)
  {
    if s.pending[Key(iar)] == Pending(iar, priority) && k == Key(iar) {
      InjectedWaits(Pop(s, k), i, s.pending[k]);
    } else {
      if s.pending[Key(iar)] != Pending(iar, priority) {
        var j: nat :| j < s.n && Offers(s.lrs[j], iar, priority);
        assert Offers(Pop(s, k).lrs[j], iar, priority);
      }
      InjectWaits(Pop(s, k), i, s.pending[k], iar, priority);
    }
  }

  lemma {:induction false} RefillLoopWaits(s: State, held: set<nat>, iar: Iar, priority: nat)
    requires Conserved(s, held) && iar.id < 1020 && Waits(s, iar, priority)
    ensures Waits(RefillLoop(s, EmptyLrs(s)), iar, priority)
    decreases |EmptyLrs(s)|
  {
    var k, i := NextRefill(s);
    if k.Some? {
      RefillTurn(s, held, k.value, i);
      MoveWaits(s, k.value, i, iar, priority);
      RefillLoopWaits(Inject(Pop(s, k.value), i, s.pending[k.value]), held, iar, priority);
    }
  }

  lemma RefillWaits(s: State, held: set<nat>, iar: Iar, priority: nat)
    requires Conserved(s, held) && iar.id < 1020 && Waits(s, iar, priority)
    ensures Waits(Refill(s), iar, priority)
  {
    RefillLoopWaits(s, held, iar, priority);
    var t := if s.enabled then RefillLoop(s, EmptyLrs(s)) else s;
    SameWaits(t, Refill(s), iar, priority);
  }

  lemma SameWaits(s: State, r: State, iar: Iar, priority: nat)
    requires Shape(s) && Shape(r) && r.n == s.n && iar.id < 1020 && Waits(s, iar, priority)
    requires r.pending[Key(iar)] == s.pending[Key(iar)]
    requires forall j: nat :: j < s.n && s.lrs[j].state == 1 ==> r.lrs[j] == s.lrs[j]
    ensures Waits(r, iar, priority)
  {
    if s.pending[Key(iar)] != Pending(iar, priority) {
      var j: nat :| j < s.n && Offers(s.lrs[j], iar, priority);
      assert Offers(r.lrs[j], iar, priority);
    }
  }

  /** What is delivered waits with the priority it was given, whichever way it went. */
  lemma DeliveredWaits(s: State, p: Pending)
    requires p.Valid() && p.priority < 32 && Key(p.iar) !in s.tokens
    requires Conserved(s, s.tokens + {Key(p.iar)})
    ensures Waits(Deliver(s, p), p.iar, p.priority)
  {
    if s.count != 0 || !CanInject(s, p) {
      EnqueueKeeps(s, s.tokens, p);
      RefillWaits(Enqueue(s, p), s.tokens, p.iar, p.priority);
    } else {
      InjectedWaits(s, Lowest(EmptyLrs(s)), p);
    }
  }

  /** Delivering another interrupt takes nothing from one that waits. */
  lemma DeliverSpares(s: State, p: Pending, iar: Iar, priority: nat)
    requires p.Valid() && p.priority < 32 && Key(p.iar) !in s.tokens
    requires Conserved(s, s.tokens + {Key(p.iar)}) && iar.id < 1020 && Waits(s, iar, priority) && priority < 32
    ensures Waits(Deliver(s, p), iar, priority)
  {
    if s.count != 0 || !CanInject(s, p) {
      EnqueueKeeps(s, s.tokens, p);
      EnqueueSpares(s, p, iar, priority);
      RefillWaits(Enqueue(s, p), s.tokens, iar, priority);
    } else {
      InjectWaits(s, Lowest(EmptyLrs(s)), p, iar, priority);
    }
  }

  lemma EnqueueSpares(s: State, p: Pending, iar: Iar, priority: nat)
    requires Shape(s) && iar.id < 1020 && Waits(s, iar, priority)
    ensures Shape(Enqueue(s, p)) && Waits(Enqueue(s, p), iar, priority)
  {
    if s.pending[Key(iar)] == Pending(iar, priority) {
      assert s.pending[Key(iar)].Valid();
    } else {
      var j: nat :| j < s.n && Offers(s.lrs[j], iar, priority);
      assert Offers(Enqueue(s, p).lrs[j], iar, priority);
    }
  }

  lemma PollSpares(s: State, held: set<nat>, iar: Iar, priority: nat)
    requires Conserved(s, held) && iar.id < 1020 && Waits(s, iar, priority)
    ensures Waits(Poll(s), iar, priority)
  {
    DrainUpToKeeps(s, held, EoiLrs(s), s.n);
    DrainSpares(s, EoiLrs(s), s.n);
    var t := DrainUpTo(s, EoiLrs(s), s.n);
    assert Drain(s) == t;
    SameWaits(s, t, iar, priority);
    RefillWaits(Drain(s), held, iar, priority);
  }

  /** A sweep writes only registers whose EOI is being collected. */
  lemma {:induction false} DrainSpares(s: State, eois: set<nat>, k: nat)
    requires Shape(s) && eois == EoiLrs(s) && k <= s.n
    ensures
      var r := DrainUpTo(s, eois, k);
      && r.pending == s.pending && forall j: nat :: j < s.n && s.lrs[j].state == 1 ==> r.lrs[j] == s.lrs[j]
    decreases k
  {
    if k > 0 { DrainSpares(s, eois, k - 1); }
  }

  /** What the guest does to a register: pending becomes active, and active becomes invalid. */
  lemma GuestExact(s: State, i: nat)
    requires Shape(s) && i < s.n
    ensures GuestAck(s, i) == s.(lrs := s.lrs[i := s.lrs[i].(state := 2)])
    ensures
      var r, lr := GuestEoi(s, i), s.lrs[i];
      && r.lrs == s.lrs[i := lr.(state := 0)] && r == s.(lrs := r.lrs, active := r.active)
      && forall iar: Iar :: iar.id < 1020 && Key(iar) in s.active ==>
           (Key(iar) in r.active <==> !(lr.hw && iar.id >= 16 && iar.id == lr.physical))
  {
  }

  // ---- Main results ------------------------------------------------------------------------------

  /** What the acknowledgement of `iar` leaves behind, `priority` being the priority it was taken with. */
  ghost predicate Acknowledged(s: State, iar: Iar, priority: nat, r: State)
    requires Shape(s) && Shape(r) && iar.id < 1020
  {
    if iar.id == 25 then Key(iar) !in r.active && r.tokens == s.tokens
    else if iar.id == s.owned || iar.id == s.network then
      r == s.(active := s.active + {Key(iar)}, tokens := s.tokens + {Key(iar)})
    else Key(iar) in r.active && r.tokens == s.tokens && Waits(r, iar, priority)
  }

  /**
   Every acknowledgement has its outcome: the maintenance interrupt is completed, an owned one is held
   for EL2, and any other waits for the guest with the top five bits of the running priority.
   */
  lemma AcknowledgedIsKept(s: State, iar: Iar, rpr: nat) returns (priority: nat)
    requires Inv(s) && Allowed(s, Took(iar, rpr))
    ensures 8 * priority <= rpr % 256 < 8 * priority + 8
    ensures if iar.id >= 1020 then Take(s, iar, rpr) == s else Acknowledged(s, iar, priority, Take(s, iar, rpr))
  {
    priority := rpr / 8 % 32;
    if iar.id < 1020 { AcknowledgedOne(s, iar, rpr); }
  }

  lemma AcknowledgedOne(s: State, iar: Iar, rpr: nat)
    requires Inv(s) && Allowed(s, Took(iar, rpr)) && iar.id < 1020
    ensures Acknowledged(s, iar, rpr / 8 % 32, Take(s, iar, rpr))
  {
    var acked := s.(active := s.active + {Key(iar)});
    AckedConserved(s, iar, acked);
    if iar.id == MAINTENANCE_IRQ {
      PollKeeps(acked, s.tokens + {Key(iar)});
    } else if !IsOwned(s, iar.id) {
      DeliverAcked(s, acked, Pending(iar, rpr / 8 % 32));
    }
  }

  lemma AckedConserved(s: State, iar: Iar, acked: State)
    requires Inv(s) && iar.id < 1020 && Key(iar) !in s.active && acked == s.(active := s.active + {Key(iar)})
    ensures Conserved(acked, s.tokens + {Key(iar)}) && Key(iar) !in s.tokens
  {
  }

  lemma DeliverAcked(s: State, acked: State, p: Pending)
    requires Inv(s) && p.Valid() && p.priority < 32 && Key(p.iar) !in s.tokens
    requires acked == s.(active := s.active + {Key(p.iar)}) && Conserved(acked, s.tokens + {Key(p.iar)})
    ensures var r := Deliver(acked, p);
      r.tokens == s.tokens && Key(p.iar) in r.active && Waits(r, p.iar, p.priority)
  {
    assert forall q: nat :: Candidate(acked, q) <==> Candidate(s, q);
    DeliverKeeps(acked, p);
    DeliveredWaits(acked, p);
  }

  /** A token given back waits with its own priority, or is inactive at once. */
  lemma FinishedIsKept(s: State, p: Pending, deliver: bool)
    requires Inv(s) && Allowed(s, Finished(p, deliver))
    ensures var r, k := Finish(s, p, deliver), Key(p.iar);
      && r.tokens == s.tokens - {k}
      && if deliver then k in r.active && Waits(r, p.iar, p.priority)
         else k !in r.active && r.lrs == s.lrs && r.pending == s.pending
  {
    var key := Key(p.iar);
    var released := s.(tokens := s.tokens - {key});
    assert released.tokens + {key} == s.tokens;
    if deliver {
      assert forall q: nat :: Candidate(released, q) <==> Candidate(s, q);
      DeliverKeeps(released, p);
      DeliveredWaits(released, p);
    }
  }

  /** Until the guest takes it, a waiting interrupt keeps waiting with its priority, whatever else happens. */
  lemma WaitsOn(s: State, e: Event, iar: Iar, priority: nat)
    requires Inv(s) && Allowed(s, e) && iar.id < 1020 && priority < 32 && Waits(s, iar, priority)
    requires e.GuestAcked? ==> !Offers(s.lrs[e.index], iar, priority)
    ensures Waits(Step(s, e), iar, priority)
  {
    match e
    case Took(other, rpr) => if other.id < 1020 { TakeSpares(s, other, rpr, iar, priority); }
    case Finished(p, deliver) => FinishSpares(s, p, deliver, iar, priority);
    case Polled => PollSpares(s, s.tokens, iar, priority);
    case Switched(enabled) => RefillWaits(s.(enabled := enabled), s.tokens, iar, priority);
    case GuestAcked(i) =>
      if s.pending[Key(iar)] != Pending(iar, priority) {
        var j: nat :| j < s.n && Offers(s.lrs[j], iar, priority);
        assert Step(s, e).lrs[j] == s.lrs[j];
      }
    case GuestEnded(i) => SameWaits(s, Step(s, e), iar, priority);
  }

  lemma TakeSpares(s: State, other: Iar, rpr: nat, iar: Iar, priority: nat)
    requires Inv(s) && Allowed(s, Took(other, rpr)) && other.id < 1020
    requires iar.id < 1020 && priority < 32 && Waits(s, iar, priority)
    ensures Waits(Take(s, other, rpr), iar, priority)
  {
    var key := Key(other);
    var acked := s.(active := s.active + {key});
    assert Conserved(acked, s.tokens + {key});
    SameWaits(s, acked, iar, priority);
    if other.id == MAINTENANCE_IRQ {
      PollSpares(acked, s.tokens + {key}, iar, priority);
      SameWaits(Poll(acked), Take(s, other, rpr), iar, priority);
    } else if IsOwned(s, other.id) {
      SameWaits(s, Take(s, other, rpr), iar, priority);
    } else {
      DeliverSpares(acked, Pending(other, rpr / 8 % 32), iar, priority);
    }
  }

  lemma FinishSpares(s: State, p: Pending, deliver: bool, iar: Iar, priority: nat)
    requires Inv(s) && Allowed(s, Finished(p, deliver)) && iar.id < 1020 && priority < 32 && Waits(s, iar, priority)
    ensures Waits(Finish(s, p, deliver), iar, priority)
  {
    var key := Key(p.iar);
    var released := s.(tokens := s.tokens - {key});
    assert released.tokens + {key} == s.tokens;
    SameWaits(s, released, iar, priority);
    if deliver { DeliverSpares(released, p, iar, priority); }
  }

  // ---- Nothing is left behind --------------------------------------------------------------------------

  /** An SGI number may be in one list register at a time, whoever sent it. */
  ghost predicate Blocked(s: State, id: nat)
    requires Shape(s)
  {
    id < 16 && exists i: nat :: i < s.n && !s.lrs[i].hw && s.lrs[i].id == id && (s.lrs[i].state != 0 || s.lrs[i].eoi)
  }

  /** Overflow slot `k` holds an interrupt that a free list register could take. */
  ghost predicate Due(s: State, k: nat)
    requires Shape(s)
  {
    k < PENDING_SLOTS && s.pending[k].iar.id < 1020 && !Blocked(s, s.pending[k].iar.id)
  }

  ghost predicate Free(s: State, i: nat)
    requires Shape(s)
  {
    i < s.n && s.lrs[i].state == 0 && !s.lrs[i].eoi
  }

  lemma BlockedIs(s: State, id: nat)
    requires Tables(s)
    ensures Blocked(s, id) <==> SgiInLr(s, id)
  {
    if Blocked(s, id) {
      var i: nat :| i < s.n && !s.lrs[i].hw && s.lrs[i].id == id && (s.lrs[i].state != 0 || s.lrs[i].eoi);
      assert LrAgrees(s.lrs[i], s.lrIar[i]);
    }
    if SgiInLr(s, id) {
      var i: nat :| i < s.n && s.lrIar[i].id == id;
      assert LrAgrees(s.lrs[i], s.lrIar[i]);
    }
  }

  lemma DueIs(s: State, k: nat)
    requires Tables(s)
    ensures Due(s, k) <==> Candidate(s, k)
  {
    if k < PENDING_SLOTS { BlockedIs(s, s.pending[k].iar.id); }
  }

  /** In every state of every run the control register asks for underflow exactly when something is due. */
  lemma RunUnderflows(states: seq<State>, events: seq<Event>, i: nat)
    requires Run(states, events) && i < |states|
    ensures states[i].hcrEnable == states[i].enabled
    ensures states[i].hcrUnderflow <==> states[i].enabled && exists k: nat :: Due(states[i], k)
  {
    RunConserves(states, events, i, 0);
    var s := states[i];
    forall k: nat ensures Due(s, k) <==> Candidate(s, k) { DueIs(s, k); }
  }

  /** The events after which the overflow has been served: everything but the guest's own and those kept by EL2. */
  predicate Serves(s: State, e: Event) {
    match e
    case Took(iar, _) => iar.id < 1020 && iar.id != s.owned && iar.id != s.network
    case Finished(_, deliver) => deliver
    case Polled => true
    case Switched(enabled) => enabled != s.enabled
    case _ => false
  }

  /** Served with the distributor on, no interrupt is due while a list register is free. */
  lemma NothingStuck(s: State, e: Event, k: nat, i: nat)
    requires Inv(s) && Allowed(s, e) && Serves(s, e)
    ensures var r := Step(s, e); r.enabled && Due(r, k) ==> !Free(r, i)
  {
    var r := Step(s, e);
    StepKeeps(s, e);
    ServedEmpties(s, e);
    DueIs(r, k);
    if Candidate(r, k) { assert HasInjectable(r); }
    if Free(r, i) { assert i in EmptyLrs(r); }
  }

  lemma ServedEmpties(s: State, e: Event)
    requires Inv(s) && Allowed(s, e) && Serves(s, e)
    ensures var r := Step(s, e); !r.enabled || EmptyLrs(r) == {} || !HasInjectable(r)
  {
    match e
    case Took(iar, rpr) =>
      var acked := s.(active := s.active + {Key(iar)});
      AckedConserved(s, iar, acked);
      assert forall q: nat :: Candidate(acked, q) <==> Candidate(s, q);
      if iar.id == MAINTENANCE_IRQ {
        PollKeeps(acked, s.tokens + {Key(iar)});
        SameCandidates(Poll(acked), Take(s, iar, rpr));
      } else {
        DeliverKeeps(acked, Pending(iar, rpr / 8 % 32));
      }
    case Finished(p, _) =>
      var released := s.(tokens := s.tokens - {Key(p.iar)});
      assert released.tokens + {Key(p.iar)} == s.tokens;
      assert forall q: nat :: Candidate(released, q) <==> Candidate(s, q);
      DeliverKeeps(released, p);
    case Polled => PollKeeps(s, s.tokens);
    case Switched(enabled) => RefillSchedules(s.(enabled := enabled), s.tokens);
  }

  lemma SameCandidates(s: State, r: State)
    requires Shape(s) && Shape(r) && r == s.(active := r.active)
    ensures EmptyLrs(r) == EmptyLrs(s) && HasInjectable(r) == HasInjectable(s)
  {
    assert forall q: nat :: Candidate(r, q) <==> Candidate(s, q);
  }

  /** A switch is what the guest asked for, and hides or shows the list registers at once. */
  lemma SwitchedTo(s: State, enabled: bool)
    requires Inv(s)
    ensures var r := SetEnabled(s, enabled);
      r.enabled == r.hcrEnable == enabled && (!enabled ==> r.lrs == s.lrs && r.pending == s.pending)
  {
    if enabled != s.enabled {
      var t := s.(enabled := enabled);
      RefillSchedules(t, t.tokens);
      if !enabled { assert Refill(t) == UpdateHcr(t); }
    }
  }

  /** Polling leaves no guest EOI uncollected. */
  lemma PollCollects(s: State, i: nat)
    requires Inv(s) && i < s.n
    ensures var lr := Poll(s).lrs[i]; !(lr.state == 0 && lr.eoi)
  {
    DrainUpToKeeps(s, s.tokens, EoiLrs(s), s.n);
    DrainUpToFrame(s, EoiLrs(s), s.n);
    var t := DrainUpTo(s, EoiLrs(s), s.n);
    assert Drain(s) == t;
    RefillLoopEois(t, s.tokens, i);
  }

  lemma {:induction false} RefillLoopEois(s: State, held: set<nat>, i: nat)
    requires Conserved(s, held) && i < s.n && !IsEoi(s.lrs[i])
    ensures !IsEoi(RefillLoop(s, EmptyLrs(s)).lrs[i])
    decreases |EmptyLrs(s)|
  {
    var k, j := NextRefill(s);
    if k.Some? {
      RefillTurn(s, held, k.value, j);
      EntryOffers(s.pending[k.value]);
      RefillLoopEois(Inject(Pop(s, k.value), j, s.pending[k.value]), held, i);
    }
  }
}
