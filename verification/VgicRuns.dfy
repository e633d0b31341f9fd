/**
 Interrupt conservation and scheduling over whole runs of the vGIC driver, interleaved with
 everything the guest may do to its list registers. The environment keeps one promise:
 an interrupt that is still physically active is not acknowledged again.
 */
module VgicRuns {
  import opened Types
  import opened Vgic

  // ---- Partition of the active interrupts ---------------------------------------------------

  /** The active interrupt a list register stands for, given the acknowledge value beside it. */
  function Content(lr: Lr, iar: Iar): Option<nat> {
    if IsEmpty(lr) then None else if lr.hw then Some(SGI_SLOTS + lr.physical) else Slot(iar)
  }

  function Contents(n: nat, lrs: seq<Lr>, iars: seq<Iar>): (c: seq<Option<nat>>)
    requires n <= |lrs| == |iars|
  {
    seq(n, i requires 0 <= i < n => Content(lrs[i], iars[i]))
  }

  ghost predicate Holds(c: seq<Option<nat>>, i: nat, k: nat) { i < |c| && c[i] == Some(k) }

  ghost predicate Listed(c: seq<Option<nat>>, k: nat) { exists i: nat :: Holds(c, i, k) }

  /** The active interrupts are exactly those in a list register, an overflow slot or `held`;
      these three are disjoint and no interrupt is in two list registers. */
  ghost predicate Partition(c: seq<Option<nat>>, slots: set<nat>, held: set<nat>, active: set<nat>) {
    && (forall k :: k in active <==> Listed(c, k) || k in slots || k in held)
    && slots !! held
    && (forall k :: k in slots || k in held ==> !Listed(c, k))
    && (forall i: nat, j: nat, k: nat :: Holds(c, i, k) && Holds(c, j, k) ==> i == j)
  }

  lemma PutInRegister(c: seq<Option<nat>>, slots: set<nat>, held: set<nat>, active: set<nat>, i: nat, k: nat)
    requires Partition(c, slots, held + {k}, active) && k !in held && i < |c| && c[i] == None
    ensures Partition(c[i := Some(k)], slots, held, active)
  {
    var d := c[i := Some(k)];
    assert k in held + {k} && Holds(d, i, k);
    forall x ensures Listed(d, x) <==> Listed(c, x) || x == k {
      if Listed(c, x) { var j: nat :| Holds(c, j, x); assert Holds(d, j, x); }
      if Listed(d, x) && x != k { var j: nat :| Holds(d, j, x); assert Holds(c, j, x); }
    }
    forall j: nat, m: nat, x: nat | Holds(d, j, x) && Holds(d, m, x) ensures j == m {
      if j != i { assert Holds(c, j, x); }
      if m != i { assert Holds(c, m, x); }
    }
  }

  lemma ClearRegister(c: seq<Option<nat>>, slots: set<nat>, held: set<nat>, active: set<nat>, i: nat, k: nat)
    requires Partition(c, slots, held, active) && Holds(c, i, k)
    ensures Partition(c[i := None], slots, held, active - {k})
  {
    var d := c[i := None];
    assert Listed(c, k);
    forall x ensures Listed(d, x) <==> Listed(c, x) && x != k {
      if Listed(c, x) && x != k { var j: nat :| Holds(c, j, x); assert Holds(d, j, x); }
      if Listed(d, x) { var j: nat :| Holds(d, j, x); assert Holds(c, j, x); }
    }
    forall j: nat, m: nat, x: nat | Holds(d, j, x) && Holds(d, m, x) ensures j == m {
      assert Holds(c, j, x) && Holds(c, m, x);
    }
  }

  // ---- The invariant -----------------------------------------------------------------------

  /** A used list register agrees with the acknowledge value kept beside it. */
  predicate LrAgrees(lr: Lr, iar: Iar) {
    if IsEmpty(lr) then iar == SPURIOUS
    else if lr.hw then iar == SPURIOUS && !lr.eoi && 16 <= lr.id == lr.physical < 1020
    else lr.eoi && iar.id < 16 && lr.id == iar.id && lr.source == iar.source
  }

  /** Slots are indexed by what they hold, the count is exact, no SGI id is in two registers. */
  ghost predicate Tables(s: State) {
    && Shape(s)
    && (forall k: nat :: k < PENDING_SLOTS && s.pending[k].Valid() ==>
          Slot(s.pending[k].iar) == Some(k) && s.pending[k].priority < 32)
    && s.count == |Occupied(s.pending)|
    && (forall i: nat :: i < s.n ==> LrAgrees(s.lrs[i], s.lrIar[i]))
    && (forall i: nat, j: nat :: i < s.n && j < s.n && s.lrIar[i].id == s.lrIar[j].id < 16 ==> i == j)
  }

  ghost predicate Conserved(s: State, held: set<nat>) {
    && Tables(s)
    && Partition(Contents(s.n, s.lrs, s.lrIar), Occupied(s.pending), held, s.active)
  }

  ghost predicate HcrExact(s: State)
    requires Shape(s)
  {
    s.hcrEnable == s.enabled && s.hcrUnderflow == (s.enabled && HasInjectable(s))
  }

  ghost predicate Inv(s: State) {
    && Conserved(s, s.tokens) && HcrExact(s)
    && SGI_SLOTS + MAINTENANCE_IRQ !in s.active
  }

  // ---- Moving one interrupt ------------------------------------------------------------------

  lemma OccupiedUpdate(ps: seq<Pending>, k: nat, p: Pending)
    requires k < |ps|
    ensures Occupied(ps[k := p]) == if p.Valid() then Occupied(ps) + {k} else Occupied(ps) - {k}
  {
  }

  lemma ContentsUpdate(n: nat, lrs: seq<Lr>, iars: seq<Iar>, i: nat, lr: Lr, iar: Iar)
    requires i < n <= |lrs| == |iars|
    ensures Contents(n, lrs[i := lr], iars[i := iar]) == Contents(n, lrs, iars)[i := Content(lr, iar)]
  {
  }

  lemma InjectTables(s: State, i: nat, p: Pending)
    requires Tables(s) && p.Valid() && p.priority < 32 && i in EmptyLrs(s) && Injectable(s, p)
    ensures var r := Inject(s, i, p);
      && Tables(r) && EmptyLrs(r) == EmptyLrs(s) - {i}
      && Contents(r.n, r.lrs, r.lrIar) == Contents(s.n, s.lrs, s.lrIar)[i := Some(Key(p.iar))]
      && Contents(s.n, s.lrs, s.lrIar)[i] == None
  {
    EncodedLr(p);
    ContentsUpdate(s.n, s.lrs, s.lrIar, i, Entry(p), if p.iar.id < 16 then p.iar else SPURIOUS);
    InjectFills(s, i, p);
  }

  lemma InjectFills(s: State, i: nat, p: Pending)
    requires Tables(s) && p.Valid() && p.priority < 32 && i in EmptyLrs(s) && Injectable(s, p)
    ensures Tables(Inject(s, i, p)) && EmptyLrs(Inject(s, i, p)) == EmptyLrs(s) - {i}
  {
    EncodedLr(p);
  }

  lemma InjectKeeps(s: State, held: set<nat>, i: nat, p: Pending)
    requires p.Valid() && p.priority < 32 && Conserved(s, held + {Key(p.iar)})
    requires Key(p.iar) !in held && i in EmptyLrs(s) && Injectable(s, p)
    ensures Conserved(Inject(s, i, p), held)
    ensures EmptyLrs(Inject(s, i, p)) == EmptyLrs(s) - {i}
  {
    InjectTables(s, i, p);
    PutInRegister(Contents(s.n, s.lrs, s.lrIar), Occupied(s.pending), held, s.active, i, Key(p.iar));
  }

  lemma EnqueueKeeps(s: State, held: set<nat>, p: Pending)
    requires p.Valid() && p.priority < 32 && Conserved(s, held + {Key(p.iar)}) && Key(p.iar) !in held
    ensures Conserved(Enqueue(s, p), held)
    ensures Enqueue(s, p).pending == s.pending[Key(p.iar) := p]
  {
    assert Key(p.iar) in held + {Key(p.iar)};
    OccupiedUpdate(s.pending, Key(p.iar), p);
  }

  lemma PopKeeps(s: State, held: set<nat>, k: nat)
    requires Conserved(s, held) && k in Occupied(s.pending)
    ensures s.count > 0 && Conserved(Pop(s, k), held + {k}) && k !in held
  {
    OccupiedUpdate(s.pending, k, EMPTY);
  }

  // ---- Scheduling ------------------------------------------------------------------------

  /** The scan picks the least (priority, id) candidate, the lowest slot among equals. */
  lemma {:induction false} BestUpToIsLeast(s: State, k: nat)
    requires Shape(s) && k <= PENDING_SLOTS
    ensures var best := BestUpTo(s, k);
      match best
      case None => forall j: nat :: j < k ==> !Candidate(s, j)
      case Some(b) =>
        && Candidate(s, b)
        && (forall j: nat :: j < k && Candidate(s, j) && j != b ==>
              || s.pending[b].priority < s.pending[j].priority
              || (s.pending[b].priority == s.pending[j].priority
                  && (|| s.pending[b].iar.id < s.pending[j].iar.id
                      || (s.pending[b].iar.id == s.pending[j].iar.id && b < j))))
  {
    if k > 0 { BestUpToIsLeast(s, k - 1); }
  }

  lemma CandidateNeedsCount(s: State)
    requires Tables(s) && HasInjectable(s)
    ensures s.count > 0
  {
    var k: nat :| k < PENDING_SLOTS && Candidate(s, k);
    assert k in Occupied(s.pending);
  }

  /** An interrupt that shares its number with a held one still does after an injection. */
  lemma SgiStays(s: State, i: nat, p: Pending, id: nat)
    requires Tables(s) && i in EmptyLrs(s) && SgiInLr(s, id)
    ensures SgiInLr(Inject(s, i, p), id)
  {
    var j: nat :| j < s.n && s.lrIar[j].id == id;
    assert j != i;
    assert Inject(s, i, p).lrIar[j].id == id;
  }

  lemma CandidatesShrink(s: State, k: nat, i: nat, q: nat)
    requires Tables(s) && k < PENDING_SLOTS && s.count > 0 && i in EmptyLrs(s)
    requires Tables(Pop(s, k))
    requires Candidate(Inject(Pop(s, k), i, s.pending[k]), q)
    ensures Candidate(s, q)
  {
    forall id: nat | SgiInLr(s, id) ensures SgiInLr(Inject(Pop(s, k), i, s.pending[k]), id) {
      var popped := Pop(s, k);
      assert SgiInLr(popped, id);
      SgiStays(popped, i, s.pending[k], id);
    }
  }

  /** One turn of the refill loop: overflow slot `k` moves into free register `i`. */
  lemma RefillTurn(s: State, held: set<nat>, k: nat, i: nat)
    requires Conserved(s, held) && k < PENDING_SLOTS && Candidate(s, k) && i in EmptyLrs(s)
    ensures s.count > 0
    ensures var next := Inject(Pop(s, k), i, s.pending[k]);
      && Conserved(next, held)
      && EmptyLrs(next) == EmptyLrs(s) - {i}
      && Occupied(next.pending) == Occupied(s.pending) - {k}
      && (forall q: nat :: q < PENDING_SLOTS && q != k ==> next.pending[q] == s.pending[q])
      && (forall q: nat :: Candidate(next, q) ==> Candidate(s, q))
  {
    PopKeeps(s, held, k);
    var popped := Pop(s, k);
    assert EmptyLrs(popped) == EmptyLrs(s);
    InjectKeeps(popped, held, i, s.pending[k]);
    OccupiedUpdate(s.pending, k, EMPTY);
    var next := Inject(popped, i, s.pending[k]);
    forall q: nat | Candidate(next, q) ensures Candidate(s, q) { CandidatesShrink(s, k, i, q); }
  }

  /** What left the overflow is of lower priority value than what stays injectable, or equal and of no higher id. */
  ghost predicate Outranks(s: State, r: State) {
    && Shape(s) && Shape(r)
    && forall k: nat, q: nat :: k in Occupied(s.pending) - Occupied(r.pending) && Candidate(r, q) ==>
          || s.pending[k].priority < r.pending[q].priority
          || (s.pending[k].priority == r.pending[q].priority && s.pending[k].iar.id <= r.pending[q].iar.id)
  }

  ghost predicate Shrinks(s: State, r: State) {
    && Shape(s) && Shape(r)
    && forall q: nat :: Candidate(r, q) ==> Candidate(s, q) && r.pending[q] == s.pending[q]
  }

  lemma {:induction false} RefillLoopKeeps(s: State, held: set<nat>)
    requires Conserved(s, held)
    ensures var r := RefillLoop(s, EmptyLrs(s));
      && Conserved(r, held)
      && r == s.(lrs := r.lrs, lrIar := r.lrIar, pending := r.pending, count := r.count)
      && (EmptyLrs(r) == {} || !HasInjectable(r))
      && Outranks(s, r) && Shrinks(s, r)
    decreases |EmptyLrs(s)|
  {
    var k, i := NextRefill(s);
    if k.Some? {
      RefillTurn(s, held, k.value, i);
      var next := Inject(Pop(s, k.value), i, s.pending[k.value]);
      RefillLoopKeeps(next, held);
      RefillChain(s, next, RefillLoop(next, EmptyLrs(next)), k.value);
    }
  }

  /** What the next turn of the loop does, or why there is none. */
  lemma NextRefill(s: State) returns (k: Option<nat>, i: nat)
    requires Tables(s)
    ensures k.None? ==> RefillLoop(s, EmptyLrs(s)) == s && (EmptyLrs(s) == {} || !HasInjectable(s))
    ensures k.Some? ==>
      && Candidate(s, k.value) && i in EmptyLrs(s) && s.count > 0
      && (forall q: nat :: Candidate(s, q) ==> !Before(s.pending[q], s.pending[k.value]))
      && RefillLoop(s, EmptyLrs(s)) ==
         RefillLoop(Inject(Pop(s, k.value), i, s.pending[k.value]), EmptyLrs(s) - {i})
  {
    k, i := None, 0;
    BestUpToIsLeast(s, PENDING_SLOTS);
    var empty := EmptyLrs(s);
    if HasInjectable(s) { CandidateNeedsCount(s); }
    if empty != {} && s.count != 0 && Best(s).Some? {
      k, i := Best(s), Lowest(empty);
    }
  }

  lemma RefillChain(s: State, next: State, r: State, k: nat)
    requires Shape(s) && Outranks(next, r) && Shrinks(next, r) && k < PENDING_SLOTS
    requires Occupied(next.pending) == Occupied(s.pending) - {k}
    requires forall q: nat :: q < PENDING_SLOTS && q != k ==> next.pending[q] == s.pending[q]
    requires forall q: nat :: Candidate(next, q) ==> Candidate(s, q)
    requires forall q: nat :: Candidate(s, q) && q != k ==> !Before(s.pending[q], s.pending[k])
    ensures Outranks(s, r) && Shrinks(s, r)
  {
    forall q: nat | Candidate(r, q) ensures Candidate(s, q) && q != k && r.pending[q] == s.pending[q] {
      assert Candidate(next, q);
      assert q in Occupied(next.pending);
    }
    forall j: nat, q: nat | j in Occupied(s.pending) - Occupied(r.pending) && Candidate(r, q)
      ensures !Before(r.pending[q], s.pending[j])
    {
      if j != k { assert j in Occupied(next.pending); }
    }
  }

  /** A refill conserves; afterwards no register is free, nothing is injectable, or the
      distributor is off; the underflow bit is exact; what was injected outranks what stays. */
  lemma RefillSchedules(s: State, held: set<nat>)
    requires Conserved(s, held)
    ensures var r := Refill(s);
      && Conserved(r, held) && HcrExact(r)
      && r.active == s.active && r.tokens == s.tokens && r.enabled == s.enabled
      && r.owned == s.owned && r.network == s.network && r.n == s.n
      && (!r.enabled || EmptyLrs(r) == {} || !HasInjectable(r))
      && Outranks(s, r)
  {
    RefillLoopKeeps(s, held);
    var t := if s.enabled then RefillLoop(s, EmptyLrs(s)) else s;
    if HasInjectable(t) { CandidateNeedsCount(t); }
    var r := Refill(s);
    assert forall q: nat :: Candidate(r, q) <==> Candidate(t, q);
  }

  // ---- Collecting guest EOIs ---------------------------------------------------------------

  /** Register `i` emptied and its physical interrupt deactivated. */
  function Collected(t: State, i: nat): State
    requires Shape(t) && i < t.n && t.lrIar[i].id < 16
  {
    t.(lrs := t.lrs[i := NO_LR], lrIar := t.lrIar[i := SPURIOUS], active := t.active - {Key(t.lrIar[i])})
  }

  lemma DrainOneKeeps(t: State, held: set<nat>, i: nat)
    requires Conserved(t, held) && i < t.n && IsEoi(t.lrs[i])
    ensures t.lrIar[i].id < 16
    ensures Conserved(Collected(t, i), held)
  {
    assert LrAgrees(t.lrs[i], t.lrIar[i]);
    ContentsUpdate(t.n, t.lrs, t.lrIar, i, NO_LR, SPURIOUS);
    ClearRegister(Contents(t.n, t.lrs, t.lrIar), Occupied(t.pending), held, t.active, i, Key(t.lrIar[i]));
  }

  lemma {:induction false} DrainTurn(s: State, eois: set<nat>, k: nat, t: State)
    requires Shape(s) && 0 < k <= s.n && t == DrainUpTo(s, eois, k - 1)
    ensures k - 1 !in eois ==> DrainUpTo(s, eois, k) == t
    ensures k - 1 in eois && t.lrIar[k - 1].id < 16 ==> DrainUpTo(s, eois, k) == Collected(t, k - 1)
  {
  }

  /** The sweep over the first `k` registers touches nothing else and leaves no EOI among them. */
  lemma {:induction false} DrainUpToFrame(s: State, eois: set<nat>, k: nat)
    requires Shape(s) && eois == EoiLrs(s) && k <= s.n
    ensures var r := DrainUpTo(s, eois, k);
      && r.active <= s.active && r == s.(lrs := r.lrs, lrIar := r.lrIar, active := r.active)
      && (forall j: nat :: k <= j < s.n ==> r.lrs[j] == s.lrs[j])
      && (forall j: nat :: j < k ==> !IsEoi(r.lrs[j]))
    decreases k
  {
    if k > 0 { DrainUpToFrame(s, eois, k - 1); }
  }

  lemma {:induction false} DrainTurnKeeps(s: State, held: set<nat>, eois: set<nat>, k: nat, t: State)
    requires Shape(s) && 0 < k <= s.n && t == DrainUpTo(s, eois, k - 1) && Conserved(t, held) && t.n == s.n
    requires k - 1 in eois ==> IsEoi(t.lrs[k - 1])
    ensures Conserved(DrainUpTo(s, eois, k), held)
  {
    if k - 1 in eois { DrainOneKeeps(t, held, k - 1); }
    DrainTurn(s, eois, k, t);
  }

  /** A register the sweep has not reached still shows the EOI it is swept for. */
  lemma {:induction false} EoiAhead(s: State, eois: set<nat>, k: nat) returns (t: State)
    requires Shape(s) && eois == EoiLrs(s) && 0 < k <= s.n
    ensures t == DrainUpTo(s, eois, k - 1) && Shape(t) && t.n == s.n && (k - 1 in eois ==> IsEoi(t.lrs[k - 1]))
  {
    DrainUpToFrame(s, eois, k - 1);
    t := DrainUpTo(s, eois, k - 1);
  }

  lemma {:induction false} DrainUpToKeeps(s: State, held: set<nat>, eois: set<nat>, k: nat)
    requires Conserved(s, held) && eois == EoiLrs(s) && k <= s.n
    ensures Conserved(DrainUpTo(s, eois, k), held)
    decreases k
  {
    if k > 0 {
      DrainUpToKeeps(s, held, eois, k - 1);
      var t := EoiAhead(s, eois, k);
      DrainTurnKeeps(s, held, eois, k, t);
    } else {
      assert DrainUpTo(s, eois, 0) == s;
    }
  }

  lemma PollKeeps(s: State, held: set<nat>)
    requires Conserved(s, held)
    ensures var r := Poll(s);
      && Conserved(r, held) && HcrExact(r) && r.active <= s.active && r.tokens == s.tokens
      && (!r.enabled || EmptyLrs(r) == {} || !HasInjectable(r))
  {
    DrainUpToKeeps(s, held, EoiLrs(s), s.n);
    DrainUpToFrame(s, EoiLrs(s), s.n);
    RefillSchedules(Drain(s), held);
  }

  // ---- Steps and runs ---------------------------------------------------------------------

  datatype Event =
    | Took(iar: Iar, rpr: nat)
    | Finished(pending: Pending, deliver: bool)
    | Polled
    | Switched(enabled: bool)
    | GuestAcked(index: nat)
    | GuestEnded(index: nat)

  /** What callers, the guest and the interrupt controller may do in a state. */
  predicate Allowed(s: State, e: Event)
    requires Shape(s)
  {
    match e
    case Took(iar, _) => iar.id < 1020 ==> Key(iar) !in s.active
    case Finished(p, _) => p.Valid() && p.priority < 32 && Key(p.iar) in s.tokens
    case Polled => true
    case Switched(_) => true
    case GuestAcked(i) => i < s.n && s.lrs[i].state == 1
    case GuestEnded(i) => i < s.n && s.lrs[i].state == 2
  }

  function Step(s: State, e: Event): (r: State)
    requires Shape(s) && Allowed(s, e)
    ensures Shape(r)
  {
    match e
    case Took(iar, rpr) => Take(s, iar, rpr)
    case Finished(p, deliver) => Finish(s, p, deliver)
    case Polled => Poll(s)
    case Switched(enabled) => SetEnabled(s, enabled)
    case GuestAcked(i) => GuestAck(s, i)
    case GuestEnded(i) => GuestEoi(s, i)
  }

  lemma DeliverKeeps(s: State, p: Pending)
    requires p.Valid() && p.priority < 32 && Key(p.iar) !in s.tokens
    requires Conserved(s, s.tokens + {Key(p.iar)})
    requires s.count == 0 ==> HcrExact(s)
    ensures var r := Deliver(s, p);
      && Conserved(r, r.tokens) && HcrExact(r) && r.active == s.active && r.tokens == s.tokens
      && (!r.enabled || EmptyLrs(r) == {} || !HasInjectable(r))
  {
    if s.count != 0 || !CanInject(s, p) {
      EnqueueKeeps(s, s.tokens, p);
      RefillSchedules(Enqueue(s, p), s.tokens);
    } else {
      var r := Inject(s, Lowest(EmptyLrs(s)), p);
      InjectKeeps(s, s.tokens, Lowest(EmptyLrs(s)), p);
      if HasInjectable(r) { CandidateNeedsCount(r); }
      if HasInjectable(s) { CandidateNeedsCount(s); }
    }
  }

  lemma TakeKeeps(s: State, iar: Iar, rpr: nat)
    requires Inv(s) && Allowed(s, Took(iar, rpr))
    ensures Inv(Take(s, iar, rpr))
  {
    if iar.id < 1020 {
      var key := Key(iar);
      var acked := s.(active := s.active + {key});
      assert Conserved(acked, s.tokens + {key});
      assert iar.id == MAINTENANCE_IRQ <==> key == SGI_SLOTS + MAINTENANCE_IRQ;
      if iar.id == MAINTENANCE_IRQ {
        PollKeeps(acked, s.tokens + {key});
        var r := Take(s, iar, rpr);
        assert forall q: nat :: Candidate(r, q) <==> Candidate(Poll(acked), q);
      } else if IsOwned(s, iar.id) {
        var r := acked.(tokens := s.tokens + {key});
        assert forall q: nat :: Candidate(r, q) <==> Candidate(s, q);
      } else {
        assert forall q: nat :: Candidate(acked, q) <==> Candidate(s, q);
        DeliverKeeps(acked, Pending(iar, rpr / 8 % 32));
      }
    }
  }

  lemma FinishKeeps(s: State, p: Pending, deliver: bool)
    requires Inv(s) && Allowed(s, Finished(p, deliver))
    ensures Inv(Finish(s, p, deliver))
  {
    var key := Key(p.iar);
    var released := s.(tokens := s.tokens - {key});
    assert released.tokens + {key} == s.tokens;
    assert forall q: nat :: Candidate(released, q) <==> Candidate(s, q);
    if deliver {
      DeliverKeeps(released, p);
    } else {
      var r := Finish(s, p, deliver);
      assert forall q: nat :: Candidate(r, q) <==> Candidate(s, q);
    }
  }

  lemma GuestTables(s: State, i: nat, state: nat)
    requires Tables(s) && i < s.n && s.lrs[i].state != 0
    ensures var r := s.(lrs := s.lrs[i := s.lrs[i].(state := state)]);
      && Tables(r) && LrAgrees(s.lrs[i], s.lrIar[i]) && !IsEmpty(s.lrs[i])
      && Contents(r.n, r.lrs, r.lrIar) ==
         Contents(s.n, s.lrs, s.lrIar)[i := Content(r.lrs[i], s.lrIar[i])]
  {
    assert LrAgrees(s.lrs[i], s.lrIar[i]);
    ContentsUpdate(s.n, s.lrs, s.lrIar, i, s.lrs[i].(state := state), s.lrIar[i]);
    assert s.lrIar == s.lrIar[i := s.lrIar[i]];
  }

  lemma GuestKeeps(s: State, i: nat, ends: bool)
    requires Inv(s) && i < s.n && s.lrs[i].state != 0
    ensures Inv(if ends then GuestEoi(s, i) else GuestAck(s, i))
  {
    var r := if ends then GuestEoi(s, i) else GuestAck(s, i);
    GuestTables(s, i, r.lrs[i].state);
    var c := Contents(s.n, s.lrs, s.lrIar);
    assert forall q: nat :: Candidate(r, q) <==> Candidate(s, q);
    if ends && s.lrs[i].hw {
      ClearRegister(c, Occupied(s.pending), s.tokens, s.active, i, SGI_SLOTS + s.lrs[i].physical);
    } else {
      assert c[i := Content(r.lrs[i], s.lrIar[i])] == c;
    }
  }

  lemma StepKeeps(s: State, e: Event)
    requires Inv(s) && Allowed(s, e)
    ensures Inv(Step(s, e))
  {
    match e
    case Took(iar, rpr) => TakeKeeps(s, iar, rpr);
    case Finished(p, deliver) => FinishKeeps(s, p, deliver);
    case Polled => PollKeeps(s, s.tokens);
    case Switched(enabled) =>
      var t := s.(enabled := enabled);
      RefillSchedules(t, t.tokens);
    case GuestAcked(i) => GuestKeeps(s, i, false);
    case GuestEnded(i) => GuestKeeps(s, i, true);
  }

  /** The state `initialize` establishes on a controller with nothing active. */
  function Initial(n: nat, owned: nat, network: nat): State
    requires 1 <= n <= LR_CAPACITY
  {
    State(n, seq(LR_CAPACITY, _ => NO_LR), {}, true, false, true, seq(PENDING_SLOTS, _ => EMPTY), 0,
          seq(LR_CAPACITY, _ => SPURIOUS), owned, network, {})
  }

  lemma InitialInv(n: nat, owned: nat, network: nat)
    requires 1 <= n <= LR_CAPACITY
    ensures Inv(Initial(n, owned, network))
  {
    var s := Initial(n, owned, network);
    assert Occupied(s.pending) == {};
    assert forall i: nat, k :: !Holds(Contents(n, s.lrs, s.lrIar), i, k);
  }

  /** `states` is a run: it starts initialized and each event is allowed where it happens. */
  ghost predicate Run(states: seq<State>, events: seq<Event>) {
    && |states| == |events| + 1
    && (exists n: nat, a: nat, b: nat :: 1 <= n <= LR_CAPACITY && states[0] == Initial(n, a, b))
    && (forall i: nat :: i < |states| ==> Shape(states[i]))
    && (forall i: nat :: i < |events| ==>
          Allowed(states[i], events[i]) && states[i + 1] == Step(states[i], events[i]))
  }

  /** How many of the three places hold the interrupt `k`, counting list registers one by one. */
  ghost function Places(s: State, k: nat): nat
    requires Shape(s)
  {
    |set i: nat | i < s.n && Holds(Contents(s.n, s.lrs, s.lrIar), i, k)|
    + (if k in Occupied(s.pending) then 1 else 0) + (if k in s.tokens then 1 else 0)
  }

  lemma CountedOnce(s: State, k: nat)
    requires Inv(s)
    ensures Places(s, k) == if k in s.active then 1 else 0
  {
    var c := Contents(s.n, s.lrs, s.lrIar);
    var regs := set j: nat | j < s.n && Holds(c, j, k);
    if Listed(c, k) {
      var j: nat :| Holds(c, j, k);
      assert regs == {j};
    } else {
      assert regs == {};
    }
  }

  /**
   Conservation: in every state of every run, each interrupt acknowledged and not yet deactivated is in
   exactly one place, and every other one is in none; the overflow count and the control register are
   exact throughout.
   */
  lemma {:induction false} RunConserves(states: seq<State>, events: seq<Event>, i: nat, k: nat)
    requires Run(states, events) && i < |states|
    ensures Places(states[i], k) == if k in states[i].active then 1 else 0
    ensures Tables(states[i]) && HcrExact(states[i])
  {
    var n: nat, a: nat, b: nat :| 1 <= n <= LR_CAPACITY && states[0] == Initial(n, a, b);
    InitialInv(n, a, b);
    for j := 0 to i
      invariant Inv(states[j])
    {
      StepKeeps(states[j], events[j]);
    }
    CountedOnce(states[i], k);
  }
}
