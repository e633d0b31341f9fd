/**
 The forwarding state of one pinned vCPU: list registers, software overflow slots and
 tokens held by EL2. `State` is the joint state of the driver and of the hardware it
 drives (section 5.3 of the Arm GICv2 architecture specification, IHI 0048B); register
 masks are sets of bit positions and packed words are naturals.
 */
module Vgic {
  import opened Types

  const MAINTENANCE_IRQ := 25
  const SPURIOUS_IRQ := 1023
  const SGI_SLOTS := 128
  const PENDING_SLOTS := 1148
  const LR_CAPACITY := 64

  /** The two fields of an acknowledge value: interrupt id and, for an SGI, its source CPU. */
  datatype IarFields = Iar(id: nat, source: nat)

  type Iar = i: IarFields | i.id < 0x400 && i.source < 8 witness Iar(0, 0)

  const SPURIOUS: Iar := Iar(SPURIOUS_IRQ, 0)

  function UnpackIar(word: nat): Iar {
    Iar(word % 0x400, word / 0x400 % 8)
  }

  datatype Pending = Pending(iar: Iar, priority: nat) {
    predicate Valid() { iar.id < 1020 }
  }

  const EMPTY := Pending(SPURIOUS, 0xff)

  /** The overflow slot of an acknowledged interrupt; it also names the interrupt. */
  function Slot(iar: Iar): Option<nat> {
    if iar.id < 16 then Some(iar.id * 8 + iar.source)
    else if iar.id < 1020 then Some(SGI_SLOTS + iar.id)
    else None
  }

  function Key(iar: Iar): (k: nat)
    requires iar.id < 1020
    ensures k < PENDING_SLOTS && Slot(iar) == Some(k)
  {
    Slot(iar).value
  }

  /** Slots separate exactly the interrupts that can be active at the same time. */
  lemma SlotSeparates(a: Iar, b: Iar)
    requires a.id < 1020 && b.id < 1020
    ensures Slot(a) == Slot(b) <==> a.id == b.id && (a.id < 16 ==> a.source == b.source)
  {
  }

  // ---- List registers -------------------------------------------------------------

  /** A list register as the hardware decodes it. State: 0 invalid, 1 pending, 2 active. A
      hardware entry has a physical id; a software entry an EOI request and a source CPU. */
  datatype Lr = Lr(state: nat, id: nat, hw: bool, physical: nat, eoi: bool, source: nat, priority: nat)

  const NO_LR := Lr(0, 0, false, 0, false, 0, 0)

  function DecodeLr(w: nat): Lr {
    var hw := w / 0x8000_0000 % 2 == 1;
    Lr(w / 0x1000_0000 % 4, w % 0x400, hw,
       if hw then w / 0x400 % 0x400 else 0,
       !hw && w / 0x8_0000 % 2 == 1,
       if hw then 0 else w / 0x400 % 8,
       w / 0x80_0000 % 32)
  }

  function EncodeLr(p: Pending): nat {
    var id := p.iar.id;
    id + 0x1000_0000 + p.priority * 0x80_0000
    + if id < 16 then p.iar.source * 0x400 + 0x8_0000 else 0x8000_0000 + id * 0x400
  }

  /** The list register an interrupt should occupy. */
  function Entry(p: Pending): Lr {
    if p.iar.id < 16 then Lr(1, p.iar.id, false, 0, true, p.iar.source, p.priority)
    else Lr(1, p.iar.id, true, p.iar.id, false, 0, p.priority)
  }

  lemma EncodedLr(p: Pending)
    requires p.Valid() && p.priority < 32
    ensures DecodeLr(EncodeLr(p)) == Entry(p)
  {
    var w := EncodeLr(p);
    var low := if p.iar.id < 16 then 0x200 + p.iar.source else p.iar.id;
    var top := if p.iar.id < 16 then 0 else 1;
    assert w == p.iar.id + 0x400 * low + 0x80_0000 * p.priority + 0x1000_0000 + 0x8000_0000 * top;
    LrFields(w, p.iar.id, low, p.priority, top);
  }

  lemma LrFields(w: nat, id: nat, low: nat, priority: nat, top: nat)
    requires id < 0x400 && low < 0x400 && priority < 32 && top < 2
    requires w == id + 0x400 * low + 0x80_0000 * priority + 0x1000_0000 + 0x8000_0000 * top
    ensures w % 0x400 == id && w / 0x80_0000 % 32 == priority && w / 0x1000_0000 % 4 == 1
    ensures w / 0x8000_0000 % 2 == top
    ensures w / 0x400 % 0x400 == low && w / 0x400 % 8 == low % 8 && w / 0x8_0000 % 2 == low / 0x200
  {
    assert w / 0x400 == low + 0x400 * (8 * priority + 0x100 + 0x800 * top);
    assert w / 0x8_0000 == low / 0x200 + 2 * (8 * priority + 0x100 + 0x800 * top);
    assert w / 0x80_0000 == priority + 32 + 256 * top;
    assert w / 0x1000_0000 == 1 + 8 * top;
    assert w / 0x8000_0000 == top;
  }

  /** GICH_ELRSR: writing here loses neither an interrupt nor an EOI notification. */
  predicate IsEmpty(lr: Lr) { lr.state == 0 && !lr.eoi }

  /** GICH_EISR: a software entry whose guest EOI has not been collected yet. */
  predicate IsEoi(lr: Lr) { lr.state == 0 && lr.eoi }

  // ---- State ----------------------------------------------------------------------

  datatype State = State(
    n: nat,                 // implemented list registers
    lrs: seq<Lr>,
    active: set<nat>,       // physically active interrupts, by slot
    hcrEnable: bool,
    hcrUnderflow: bool,
    enabled: bool,
    pending: seq<Pending>,
    count: nat,
    lrIar: seq<Iar>,
    owned: nat,
    network: nat,
    tokens: set<nat>)       // acknowledged, held by EL2 for explicit completion

  function Occupied(pending: seq<Pending>): set<nat> {
    set k: nat | k < |pending| && pending[k].Valid()
  }

  predicate Shape(s: State) {
    && 1 <= s.n <= LR_CAPACITY && |s.lrs| == |s.lrIar| == LR_CAPACITY
    && |s.pending| == PENDING_SLOTS
  }

  function EmptyLrs(s: State): set<nat>
    requires Shape(s)
  {
    set i: nat | i < s.n && IsEmpty(s.lrs[i])
  }

  predicate SgiInLr(s: State, id: nat)
    requires Shape(s)
  {
    id < 16 && exists i: nat :: i < s.n && s.lrIar[i].id == id
  }

  predicate Injectable(s: State, p: Pending)
    requires Shape(s)
  {
    p.iar.id >= 16 || !SgiInLr(s, p.iar.id)
  }

  predicate Candidate(s: State, k: nat)
    requires Shape(s)
  {
    k < PENDING_SLOTS && s.pending[k].Valid() && Injectable(s, s.pending[k])
  }

  predicate HasInjectable(s: State)
    requires Shape(s)
  {
    exists k: nat :: k < PENDING_SLOTS && Candidate(s, k)
  }

  /** Lexicographic (priority, id); a smaller priority value is served first. */
  predicate Before(a: Pending, b: Pending) {
    a.priority < b.priority || (a.priority == b.priority && a.iar.id < b.iar.id)
  }

  // ---- What each operation does ------------------------------------------------------

  /** Trailing zeros of a nonempty mask. */
  function Lowest(bits: set<nat>): (i: nat)
    requires bits != {} && forall j :: j in bits ==> j < LR_CAPACITY
    ensures i in bits && forall j :: j in bits ==> i <= j
  {
    LowestFrom(bits, 0)
  }

  function LowestFrom(bits: set<nat>, from: nat): (i: nat)
    requires exists j :: j in bits && j >= from
    requires forall j :: j in bits ==> j < LR_CAPACITY
    ensures i in bits && forall j :: j in bits && from <= j ==> i <= j
    decreases LR_CAPACITY - from
  {
    if from in bits then from else LowestFrom(bits, from + 1)
  }

  function Inject(s: State, i: nat, p: Pending): State
    requires Shape(s) && i < LR_CAPACITY
  {
    s.(lrs := s.lrs[i := DecodeLr(EncodeLr(p))],
       lrIar := s.lrIar[i := if p.iar.id < 16 then p.iar else SPURIOUS])
  }

  predicate CanInject(s: State, p: Pending)
    requires Shape(s)
  {
    s.enabled && Injectable(s, p) && EmptyLrs(s) != {}
  }

  function Enqueue(s: State, p: Pending): State
    requires Shape(s)
  {
    match Slot(p.iar)
    case Some(k) =>
      if s.pending[k].Valid() then s
      else s.(pending := s.pending[k := p], count := s.count + 1)
    case None => s
  }

  /** The scan of the overflow array, up to slot `k`. */
  function BestUpTo(s: State, k: nat): (best: Option<nat>)
    requires Shape(s) && k <= PENDING_SLOTS
    ensures best.Some? ==> best.value < k
  {
    if k == 0 then None
    else
      var best := BestUpTo(s, k - 1);
      if Candidate(s, k - 1) && (best.None? || Before(s.pending[k - 1], s.pending[best.value]))
      then Some(k - 1) else best
  }

  function Best(s: State): Option<nat>
    requires Shape(s)
  {
    BestUpTo(s, PENDING_SLOTS)
  }

  function Pop(s: State, k: nat): State
    requires Shape(s) && k < PENDING_SLOTS && s.count > 0
  {
    s.(pending := s.pending[k := EMPTY], count := s.count - 1)
  }

  function RefillLoop(s: State, empty: set<nat>): (r: State)
    requires Shape(s) && forall i :: i in empty ==> i < LR_CAPACITY
    ensures Shape(r)
    decreases |empty|
  {
    if empty == {} || s.count == 0 || Best(s).None? then s
    else
      var i := Lowest(empty);
      RefillLoop(Inject(Pop(s, Best(s).value), i, s.pending[Best(s).value]), empty - {i})
  }

  function UpdateHcr(s: State): State
    requires Shape(s)
  {
    s.(hcrEnable := s.enabled, hcrUnderflow := s.enabled && s.count != 0 && HasInjectable(s))
  }

  function Refill(s: State): (r: State)
    requires Shape(s)
    ensures Shape(r)
  {
    UpdateHcr(if s.enabled then RefillLoop(s, EmptyLrs(s)) else s)
  }

  /** Collect guest EOIs of software entries below `k`, deactivating their physical SGI. */
  function DrainUpTo(s: State, eois: set<nat>, k: nat): (r: State)
    requires Shape(s) && k <= s.n
    ensures Shape(r) && r.n == s.n
  {
    if k == 0 then s
    else
      var r := DrainUpTo(s, eois, k - 1);
      if (k - 1) in eois then Emptied(r, k - 1) else r
  }

  function Emptied(s: State, i: nat): (r: State)
    requires Shape(s) && i < s.n
    ensures Shape(r) && r.n == s.n
  {
    var iar := s.lrIar[i];
    s.(lrs := s.lrs[i := NO_LR], lrIar := s.lrIar[i := SPURIOUS],
       active := if iar.id < 16 then s.active - {Key(iar)} else s.active)
  }

  function EoiLrs(s: State): set<nat>
    requires Shape(s)
  {
    set i: nat | i < s.n && IsEoi(s.lrs[i])
  }

  function Drain(s: State): (r: State)
    requires Shape(s)
    ensures Shape(r)
  {
    DrainUpTo(s, EoiLrs(s), s.n)
  }

  /** Hand an acknowledged interrupt to the guest: directly, or through the overflow. */
  function Deliver(s: State, p: Pending): (r: State)
    requires Shape(s)
    ensures Shape(r)
  {
    if s.count != 0 || !CanInject(s, p) then Refill(Enqueue(s, p))
    else
      Inject(s, Lowest(EmptyLrs(s)), p)
  }

  function Poll(s: State): (r: State)
    requires Shape(s)
    ensures Shape(r)
  {
    Refill(Drain(s))
  }

  predicate IsOwned(s: State, id: nat) { id == s.owned || id == s.network }

  /** Acknowledge `iar`; `rpr` is the running priority read just after it. */
  function Take(s: State, iar: Iar, rpr: nat): (r: State)
    requires Shape(s)
    ensures Shape(r)
  {
    var id := iar.id;
    if id >= 1020 then s
    else
      var acked := s.(active := s.active + {Key(iar)});
      if id == MAINTENANCE_IRQ then
        var polled := Poll(acked);
        polled.(active := polled.active - {Key(iar)})
      else if IsOwned(s, id) then acked.(tokens := s.tokens + {Key(iar)})
      else Deliver(acked, Pending(iar, rpr / 8 % 32))
  }

  function Finish(s: State, p: Pending, deliver: bool): (r: State)
    requires Shape(s) && p.Valid()
    ensures Shape(r)
  {
    var released := s.(tokens := s.tokens - {Key(p.iar)});
    if deliver then Deliver(released, p)
    else released.(active := s.active - {Key(p.iar)})
  }

  function SetEnabled(s: State, enabled: bool): (r: State)
    requires Shape(s)
    ensures Shape(r)
  {
    if s.enabled != enabled then Refill(s.(enabled := enabled)) else s
  }

  /** The guest acknowledges, or ends and deactivates, the interrupt of list register `i`.
      Ending a hardware entry deactivates the linked physical interrupt. */
  function GuestAck(s: State, i: nat): State
    requires Shape(s) && i < s.n
  {
    s.(lrs := s.lrs[i := s.lrs[i].(state := 2)])
  }

  function GuestEoi(s: State, i: nat): State
    requires Shape(s) && i < s.n
  {
    s.(lrs := s.lrs[i := s.lrs[i].(state := 0)],
       active := if s.lrs[i].hw then s.active - {SGI_SLOTS + s.lrs[i].physical} else s.active)
  }
}
