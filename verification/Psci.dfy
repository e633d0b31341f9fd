/**
 CPU_ON, CPU_OFF and AFFINITY_INFO over shared atomics (Arm DEN0022). One step is one atomic
 access, one firmware call or one lock access, and the four participants interleave
 arbitrarily. The lock covers only the OFF to CLAIMED transition; everything after it, and the
 target's own transitions, happen outside. A participant runs one operation at a time.
 */
module Psci {
  import opened Types
  import opened Bakery

  datatype Launch = Launch(entry: nat, context: nat)

  datatype PowerState = ON | OFF | PENDING | CLAIMED

  datatype CpuRecord = CpuRecord(state: PowerState, started: bool, entry: nat, context: nat)

  /** Where a participant is inside `request` or `take_launch`. */
  datatype Local =
    | Ready
    | Entering(target: Cpu, launch: Launch)       // acquiring the lock
    | Inspect(target: Cpu, launch: Launch)        // lock held, about to load the state
    | Claim(target: Cpu, launch: Launch)          // lock held, saw OFF, about to store CLAIMED
    | Refuse(code: int)                           // lock held, about to release it and return
    | Unlock(target: Cpu, launch: Launch)         // claimed, about to release the lock
    | PutEntry(target: Cpu, launch: Launch)
    | PutContext(target: Cpu, launch: Launch)
    | CheckStarted(target: Cpu, launch: Launch)
    | Firmware(target: Cpu, launch: Launch)       // about to call boot_physical
    | Revert(target: Cpu, launch: Launch, status: int)
    | MarkStarted(target: Cpu, launch: Launch)
    | Announce(target: Cpu, launch: Launch)       // about to store PENDING
    | GetEntry                                    // target saw PENDING
    | GetContext(entry: nat)
    | GoOn(taken: Launch)                         // about to store ON and return `taken`

  /** What happened to one CPU, in order. */
  datatype Entry =
    | Claimed(claimant: Cpu, launch: Launch)
    | Booted
    | Reverted
    | Announced
    | Taken(launch: Launch)
    | PoweredOff
    | Refused(caller: Cpu, code: int)             // `request` saw a CPU that was not OFF
    | Queried(caller: Cpu, answer: int)           // AFFINITY_INFO
    | Missed                                      // `take_launch` found nothing

  datatype Fields = Fields(lock: Bakery.State, cpus: seq<CpuRecord>, locals: seq<Local>, logs: seq<seq<Entry>>)

  type State = s: Fields | |s.cpus| == |s.locals| == |s.logs| == CPU_COUNT
    witness Fields(Bakery.Initial(), seq(CPU_COUNT, _ => CpuRecord(OFF, false, 0, 0)),
                   seq(CPU_COUNT, _ => Ready), seq(CPU_COUNT, _ => []))

  const ALREADY_ON := -4
  const ON_PENDING := -5
  const INVALID_PARAMS := -2

  /** AFFINITY_INFO: a claim in progress reads as pending. */
  function Affinity(state: PowerState): int {
    match state case ON => 0 case OFF => 1 case _ => 2
  }

  /** What CPU_ON answers for a CPU that is not OFF. */
  function Refusal(state: PowerState): int { if state == ON then ALREADY_ON else ON_PENDING }

  const RAM_BASE := 0x8000_0000
  const IPA_LIMIT := 0x10_0000_0000
  const RESIDENT_BASE := 0xfec0_0000
  const RESIDENT_SIZE := 0x100_0000

  predicate GuestEntry(entry: nat) {
    RAM_BASE <= entry < IPA_LIMIT && entry % 4 == 0
    && !(RESIDENT_BASE <= entry < RESIDENT_BASE + RESIDENT_SIZE)
  }

  /** What CPU_ON answers at once, before it touches the lock. */
  function Rejection(target: nat, entry: nat): Option<int> {
    if target >= CPU_COUNT || !GuestEntry(entry) then Some(INVALID_PARAMS) else None
  }

  function Initial(): State {
    Fields(Bakery.Initial(),
           seq(CPU_COUNT, c => CpuRecord(if c == 0 then ON else OFF, c == 0, 0, 0)),
           seq(CPU_COUNT, _ => Ready), seq(CPU_COUNT, _ => []))
  }

  /** What an agent may do next. `status` is the answer of firmware to a boot request. */
  datatype Action =
    | Request(c: Cpu, target: nat, launch: Launch)
    | Lock(c: Cpu)
    | Go(c: Cpu, status: int)
    | TakeLaunch(c: Cpu)
    | PowerOff(c: Cpu)
    | Ask(c: Cpu, target: nat)

  predicate HoldsLock(l: Local) { l.Inspect? || l.Claim? || l.Refuse? || l.Unlock? }

  predicate Enabled(s: State, a: Action) {
    match a
    case Request(c, _, _) => s.locals[c].Ready?
    case Lock(c) => s.locals[c].Entering? && !s.lock.pcs[c].Critical? && Bakery.Next(s.lock.pcs[c])
    case Go(c, _) =>
      if s.locals[c].Entering? then s.lock.pcs[c].Critical?
      else !s.locals[c].Ready?
    case TakeLaunch(c) => s.locals[c].Ready?
    case PowerOff(c) => s.locals[c].Ready? && s.cpus[c].state == ON
    case Ask(c, _) => s.locals[c].Ready?
  }

  function SetLocal(s: State, c: Cpu, l: Local): (r: State)
  {
    s.(locals := s.locals[c := l])
  }

  function SetCpu(s: State, t: Cpu, record: CpuRecord): State {
    s.(cpus := s.cpus[t := record])
  }

  function Log(s: State, t: Cpu, entry: Entry): State {
    s.(logs := s.logs[t := s.logs[t] + [entry]])
  }

  function Release(s: State, c: Cpu): State
    requires s.lock.pcs[c].Critical?
  {
    s.(lock := Bakery.Step(s.lock, c))
  }

  /** The next access of participant `c` inside its current operation. */
  function Advance(s: State, c: Cpu, status: int): State
    requires Enabled(s, Go(c, status)) && (HoldsLock(s.locals[c]) ==> s.lock.pcs[c].Critical?)
  {
    match s.locals[c]
    case Entering(t, l) => SetLocal(s, c, Inspect(t, l))
    case Inspect(t, l) =>
      var seen := s.cpus[t].state;
      if seen == OFF then SetLocal(s, c, Claim(t, l))
      else Log(SetLocal(s, c, Refuse(Refusal(seen))), t, Refused(c, Refusal(seen)))
    case Claim(t, l) =>
      Log(SetCpu(SetLocal(s, c, Unlock(t, l)), t, s.cpus[t].(state := CLAIMED)), t, Claimed(c, l))
    case Refuse(_) => SetLocal(Release(s, c), c, Ready)
    case Unlock(t, l) => SetLocal(Release(s, c), c, PutEntry(t, l))
    case PutEntry(t, l) => SetCpu(SetLocal(s, c, PutContext(t, l)), t, s.cpus[t].(entry := l.entry))
    case PutContext(t, l) => SetCpu(SetLocal(s, c, CheckStarted(t, l)), t, s.cpus[t].(context := l.context))
    case CheckStarted(t, l) => SetLocal(s, c, if s.cpus[t].started then Announce(t, l) else Firmware(t, l))
    case Firmware(t, l) =>
      if status != 0 then SetLocal(s, c, Revert(t, l, status))
      else Log(SetLocal(s, c, MarkStarted(t, l)), t, Booted)
    case Revert(t, _, _) => Log(SetCpu(SetLocal(s, c, Ready), t, s.cpus[t].(state := OFF)), t, Reverted)
    case MarkStarted(t, l) => SetCpu(SetLocal(s, c, Announce(t, l)), t, s.cpus[t].(started := true))
    case Announce(t, _) => Log(SetCpu(SetLocal(s, c, Ready), t, s.cpus[t].(state := PENDING)), t, Announced)
    case GetEntry => SetLocal(s, c, GetContext(s.cpus[c].entry))
    case GetContext(e) => SetLocal(s, c, GoOn(Launch(e, s.cpus[c].context)))
    case GoOn(l) => Log(SetCpu(SetLocal(s, c, Ready), c, s.cpus[c].(state := ON)), c, Taken(l))
  }

  function Next(s: State, a: Action): State
    requires Enabled(s, a)
    requires a.Go? && HoldsLock(s.locals[a.c]) ==> s.lock.pcs[a.c].Critical?
  {
    match a
    case Request(c, target, l) =>
      if Rejection(target, l.entry).Some? then s else SetLocal(s, c, Entering(target, l))
    case Lock(c) => s.(lock := Bakery.Step(s.lock, c))
    case Go(c, status) => Advance(s, c, status)
    case TakeLaunch(c) => if s.cpus[c].state != PENDING then Log(s, c, Missed) else SetLocal(s, c, GetEntry)
    case Ask(c, target) =>
      if target >= CPU_COUNT then s else Log(s, target, Queried(c, Affinity(s.cpus[target].state)))
    case PowerOff(c) => Log(SetCpu(s, c, s.cpus[c].(state := OFF)), c, PoweredOff)
  }

  /** What the operation that `a` ends returns to its caller, if it ends one that returns a status. */
  function Answer(s: State, a: Action): Option<int> {
    match a
    case Request(_, target, l) => Rejection(target, l.entry)
    case Ask(_, target) => Some(if target >= CPU_COUNT then INVALID_PARAMS else Affinity(s.cpus[target].state))
    case Go(c, _) =>
      (match s.locals[c]
       case Refuse(code) => Some(code)
       case Revert(_, _, status) => Some(status)
       case Announce(_, _) => Some(0)
       case _ => None)
    case _ => None
  }

  // ---- The sequential machine each CPU must appear to be ---------------------------------

  datatype Phase = Running | Stopped | Held(claim: Launch) | Waiting(claim: Launch)

  datatype Power = Power(phase: Phase, booted: bool)

  /** The answers a caller may get in a phase. */
  predicate Fitting(phase: Phase, e: Entry) {
    match e
    case Refused(_, code) => code == (if phase.Running? then -4 else -5) && !phase.Stopped?
    case Queried(_, answer) => answer == if phase.Running? then 0 else if phase.Stopped? then 1 else 2
    case Missed => !phase.Waiting?
    case _ => false
  }

  predicate Observes(e: Entry) { e.Refused? || e.Queried? || e.Missed? }

  /** The sequential meaning of one entry; `None` when it may not happen in this state. */
  function Apply(p: Power, e: Entry): Option<Power> {
    match e
    case Claimed(_, l) => if p.phase.Stopped? then Some(p.(phase := Held(l))) else None
    case Booted => if p.phase.Held? && !p.booted then Some(p.(booted := true)) else None
    case Reverted => if p.phase.Held? && !p.booted then Some(p.(phase := Stopped)) else None
    case Announced => if p.phase.Held? && p.booted then Some(p.(phase := Waiting(p.phase.claim))) else None
    case Taken(l) => if p.phase == Waiting(l) then Some(p.(phase := Running)) else None
    case PoweredOff => if p.phase.Running? then Some(p.(phase := Stopped)) else None
    case _ => if Fitting(p.phase, e) then Some(p) else None
  }

  function Replay(p: Power, log: seq<Entry>): Option<Power> {
    if log == [] then Some(p)
    else
      var before := Replay(p, log[..|log| - 1]);
      if before.None? then None else Apply(before.value, log[|log| - 1])
  }

  function Cold(t: Cpu): Power {
    Power(if t == 0 then Running else Stopped, t == 0)
  }

  // ---- Invariant ---------------------------------------------------------------------------

  /** `l` is inside a request that has claimed `t`. */
  predicate Owns(l: Local, t: Cpu) {
    match l
    case Unlock(x, _) => x == t
    case PutEntry(x, _) => x == t
    case PutContext(x, _) => x == t
    case CheckStarted(x, _) => x == t
    case Firmware(x, _) => x == t
    case Revert(x, _, _) => x == t
    case MarkStarted(x, _) => x == t
    case Announce(x, _) => x == t
    case _ => false
  }

  predicate EntryStored(l: Local) {
    l.PutContext? || ContextStored(l)
  }

  predicate ContextStored(l: Local) {
    l.CheckStarted? || l.Firmware? || l.Revert? || l.MarkStarted? || l.Announce?
  }

  predicate Taking(l: Local) { l.GetEntry? || l.GetContext? || l.GoOn? }

  /** The lock program counter a participant at `l` must have. */
  predicate LockMatches(l: Local, pc: Bakery.Pc) {
    if HoldsLock(l) then pc.Critical? else l.Entering? || pc.Idle?
  }

  /** What the claimant at `l` has established for its target. */
  predicate OwnerInv(l: Local, t: Cpu, cpu: CpuRecord, p: Power)
    requires Owns(l, t)
  {
    && p.phase == Held(l.launch)
    && (EntryStored(l) ==> cpu.entry == l.launch.entry)
    && (ContextStored(l) ==> cpu.context == l.launch.context)
    && (l.Firmware? || l.Revert? ==> !p.booted)
    && (l.MarkStarted? || l.Announce? ==> p.booted)
    && cpu.started == (p.booted && !l.MarkStarted?)
  }

  predicate TakerInv(l: Local, cpu: CpuRecord)
    requires Taking(l)
  {
    && cpu.state == PENDING
    && (l.GetContext? ==> l.entry == cpu.entry)
    && (l.GoOn? ==> l.taken == Launch(cpu.entry, cpu.context))
  }

  /** The stored state of `t` agrees with its sequential phase. */
  predicate PhaseInv(cpu: CpuRecord, p: Power) {
    match p.phase
    case Running => cpu.state == ON && p.booted && cpu.started
    case Stopped => cpu.state == OFF && cpu.started == p.booted
    case Held(_) => cpu.state == CLAIMED
    case Waiting(l) => cpu.state == PENDING && p.booted && cpu.started && l == Launch(cpu.entry, cpu.context)
  }

  ghost predicate CpuInv(s: State, t: Cpu) {
    var p := Replay(Cold(t), s.logs[t]);
    && p.Some? && PhaseInv(s.cpus[t], p.value)
    && (s.cpus[t].state == CLAIMED ==> exists c: Cpu :: Owns(s.locals[c], t))
    && (forall c: Cpu :: Owns(s.locals[c], t) ==> OwnerInv(s.locals[c], t, s.cpus[t], p.value))
    && (forall c: Cpu, d: Cpu :: Owns(s.locals[c], t) && Owns(s.locals[d], t) ==> c == d)
    && (forall c: Cpu :: s.locals[c].Claim? && s.locals[c].target == t ==> s.cpus[t].state == OFF)
    && (Taking(s.locals[t]) ==> TakerInv(s.locals[t], s.cpus[t]))
  }

  ghost predicate Inv(s: State) {
    && Bakery.Inv(s.lock)
    && (forall c: Cpu :: LockMatches(s.locals[c], s.lock.pcs[c]))
    && (forall t: Cpu :: CpuInv(s, t))
  }

  lemma InitialInv()
    ensures Inv(Initial())
  {
    Bakery.InitialInv();
    var s := Initial();
    forall t: Cpu ensures CpuInv(s, t) { assert s.logs[t] == []; }
  }

  lemma ReplayAppend(p: Power, log: seq<Entry>, e: Entry)
    ensures var before := Replay(p, log);
      Replay(p, log + [e]) == if before.None? then None else Apply(before.value, e)
  {
    assert (log + [e])[..|log|] == log;
  }

  /** An answer that fits what the atomics show leaves the history where it was. */
  lemma AnswerFits(s: State, t: Cpu, e: Entry)
    requires CpuInv(s, t)
    requires match e
      case Refused(_, code) => s.cpus[t].state != OFF && code == Refusal(s.cpus[t].state)
      case Queried(_, answer) => answer == Affinity(s.cpus[t].state)
      case Missed => s.cpus[t].state != PENDING
      case _ => false
    ensures Replay(Cold(t), s.logs[t] + [e]) == Replay(Cold(t), s.logs[t])
  {
    ReplayAppend(Cold(t), s.logs[t], e);
  }

  /** Steps that move participant `c` without touching CPU `t` or its log, but for an answer. */
  lemma CpuFrame(s: State, r: State, t: Cpu, c: Cpu)
    requires CpuInv(s, t) && r.cpus[t] == s.cpus[t] && Replay(Cold(t), r.logs[t]) == Replay(Cold(t), s.logs[t])
    requires forall d: Cpu :: d != c ==> r.locals[d] == s.locals[d]
    requires Owns(r.locals[c], t) == Owns(s.locals[c], t)
    requires Owns(r.locals[c], t) ==> OwnerInv(r.locals[c], t, s.cpus[t], Replay(Cold(t), s.logs[t]).value)
    requires r.locals[c].Claim? && r.locals[c].target == t ==> s.cpus[t].state == OFF
    requires c == t && Taking(r.locals[c]) ==> TakerInv(r.locals[c], s.cpus[t])
    ensures CpuInv(r, t)
  {
    if s.cpus[t].state == CLAIMED {
      var d: Cpu :| Owns(s.locals[d], t);
      assert Owns(r.locals[d], t);
    }
  }

  /** A step of `c` on behalf of CPU `t` leaves every other CPU to its history. */
  lemma OthersKeep(s: State, r: State, c: Cpu, t: Cpu)
    requires Inv(s)
    requires forall x: Cpu :: x != t ==> r.cpus[x] == s.cpus[x] && r.logs[x] == s.logs[x]
    requires forall d: Cpu :: d != c ==> r.locals[d] == s.locals[d]
    requires forall x: Cpu :: x != t ==> !Owns(s.locals[c], x) && !Owns(r.locals[c], x)
    requires (r.locals[c].Claim? ==> r.locals[c].target == t) && (Taking(r.locals[c]) ==> c == t)
    ensures forall x: Cpu :: x != t ==> CpuInv(r, x)
  {
    forall x: Cpu | x != t ensures CpuInv(r, x) {
      assert CpuInv(s, x);
      CpuFrame(s, r, x, c);
    }
  }

  lemma LockInv(s: State, r: State, c: Cpu)
    requires Inv(s) && (r.lock == s.lock || (Bakery.Next(s.lock.pcs[c]) && r.lock == Bakery.Step(s.lock, c)))
    requires forall d: Cpu :: d != c ==> r.locals[d] == s.locals[d]
    requires LockMatches(r.locals[c], r.lock.pcs[c])
    ensures Bakery.Inv(r.lock) && forall d: Cpu :: LockMatches(r.locals[d], r.lock.pcs[d])
  {
    if r.lock != s.lock { Bakery.StepInv(s.lock, c); }
    forall d: Cpu ensures LockMatches(r.locals[d], r.lock.pcs[d]) { assert LockMatches(s.locals[d], s.lock.pcs[d]); }
  }

  /** Before CLAIMED is stored: everything up to there, and the lock itself, moves no CPU. */
  lemma EntryPath(s: State, c: Cpu)
    requires Inv(s) && Enabled(s, Go(c, 0))
    requires s.locals[c].Entering? || s.locals[c].Refuse? || s.locals[c].Unlock?
    ensures HoldsLock(s.locals[c]) ==> s.lock.pcs[c].Critical?
    ensures Inv(Advance(s, c, 0))
  {
    assert LockMatches(s.locals[c], s.lock.pcs[c]);
    var r := Advance(s, c, 0);
    LockInv(s, r, c);
    forall t: Cpu ensures CpuInv(r, t) {
      assert CpuInv(s, t);
      CpuFrame(s, r, t, c);
    }
  }

  /** Loading the state under the lock; what is not OFF is refused there and then. */
  lemma InspectPath(s: State, c: Cpu)
    requires Inv(s) && s.locals[c].Inspect?
    ensures s.lock.pcs[c].Critical? && Inv(Advance(s, c, 0))
  {
    assert LockMatches(s.locals[c], s.lock.pcs[c]);
    var r := Advance(s, c, 0);
    LockInv(s, r, c);
    var t := s.locals[c].target;
    assert CpuInv(s, t);
    if s.cpus[t].state != OFF { AnswerFits(s, t, Refused(c, Refusal(s.cpus[t].state))); }
    CpuFrame(s, r, t, c);
    OthersKeep(s, r, c, t);
  }

  /** Storing CLAIMED: the lock makes this participant the only one about to do so. */
  lemma ClaimStored(s: State, c: Cpu)
    requires Inv(s) && s.locals[c].Claim?
    ensures s.lock.pcs[c].Critical? && Inv(Advance(s, c, 0))
  {
    assert LockMatches(s.locals[c], s.lock.pcs[c]);
    var t := s.locals[c].target;
    var r := Advance(s, c, 0);
    LockInv(s, r, c);
    ClaimHeld(s, c, t);
    OthersKeep(s, r, c, t);
  }

  lemma ClaimAlone(s: State, c: Cpu)
    requires Inv(s) && s.locals[c].Claim?
    ensures forall d: Cpu :: d != c ==> !s.locals[d].Claim?
  {
    assert LockMatches(s.locals[c], s.lock.pcs[c]);
    forall d: Cpu | d != c ensures !s.locals[d].Claim? {
      assert LockMatches(s.locals[d], s.lock.pcs[d]);
      if s.locals[d].Claim? { Bakery.Exclusion(s.lock, c, d); }
    }
  }

  lemma ClaimHeld(s: State, c: Cpu, t: Cpu)
    requires Inv(s) && s.locals[c].Claim? && s.locals[c].target == t
    ensures CpuInv(Advance(s, c, 0), t)
  {
    var r := Advance(s, c, 0);
    assert CpuInv(s, t);
    ClaimAlone(s, c);
    ReplayAppend(Cold(t), s.logs[t], Claimed(c, s.locals[c].launch));
    assert Owns(r.locals[c], t);
    assert forall d: Cpu :: !Owns(s.locals[d], t);
  }

  lemma OwnerAlone(s: State, c: Cpu, t: Cpu)
    requires Inv(s) && Owns(s.locals[c], t)
    ensures s.cpus[t].state == CLAIMED && Replay(Cold(t), s.logs[t]).Some?
    ensures OwnerInv(s.locals[c], t, s.cpus[t], Replay(Cold(t), s.logs[t]).value)
    ensures forall d: Cpu :: d != c ==> !Owns(s.locals[d], t) && !(s.locals[d].Claim? && s.locals[d].target == t)
    ensures !Taking(s.locals[t])
  {
    assert CpuInv(s, t);
  }

  /** What is left to show of a claimant's step. */
  lemma OwnerKeeps(s: State, r: State, c: Cpu, t: Cpu)
    requires Inv(s) && Owns(s.locals[c], t) && forall d: Cpu :: d != c ==> r.locals[d] == s.locals[d]
    requires Replay(Cold(t), r.logs[t]).Some? && PhaseInv(r.cpus[t], Replay(Cold(t), r.logs[t]).value)
    requires Owns(r.locals[c], t) ==> OwnerInv(r.locals[c], t, r.cpus[t], Replay(Cold(t), r.logs[t]).value)
    requires !r.locals[c].Claim? && !Taking(r.locals[c]) && (r.cpus[t].state == CLAIMED ==> Owns(r.locals[c], t))
    ensures CpuInv(r, t)
  {
    OwnerAlone(s, c, t);
  }

  /** The claimant stores the launch and the started flag; nobody else can interfere. */
  lemma OwnerStores(s: State, c: Cpu, t: Cpu)
    requires Inv(s) && Owns(s.locals[c], t)
    requires var l := s.locals[c]; l.PutEntry? || l.PutContext? || l.CheckStarted? || l.MarkStarted?
    ensures CpuInv(Advance(s, c, 0), t)
  {
    OwnerAlone(s, c, t);
    OwnerKeeps(s, Advance(s, c, 0), c, t);
  }

  /** The claimant asks firmware, and publishes the launch or gives the CPU back. */
  lemma OwnerReports(s: State, c: Cpu, t: Cpu, status: int)
    requires Inv(s) && Owns(s.locals[c], t)
    requires var l := s.locals[c]; l.Firmware? || l.Revert? || l.Announce?
    ensures CpuInv(Advance(s, c, status), t)
  {
    OwnerAlone(s, c, t);
    ReplayAppend(Cold(t), s.logs[t],
                 if s.locals[c].Firmware? then Booted else if s.locals[c].Revert? then Reverted else Announced);
    OwnerKeeps(s, Advance(s, c, status), c, t);
  }

  lemma OwnerPath(s: State, c: Cpu, t: Cpu, status: int)
    requires Inv(s) && Owns(s.locals[c], t) && !s.locals[c].Unlock?
    ensures Inv(Advance(s, c, status))
  {
    assert LockMatches(s.locals[c], s.lock.pcs[c]);
    var r := Advance(s, c, status);
    LockInv(s, r, c);
    var l := s.locals[c];
    if l.Firmware? || l.Revert? || l.Announce? { OwnerReports(s, c, t, status); } else { OwnerStores(s, c, t); }
    OthersKeep(s, r, c, t);
  }

  /** The target consumes its launch. */
  lemma TakerPath(s: State, c: Cpu)
    requires Inv(s) && Taking(s.locals[c])
    ensures Inv(Advance(s, c, 0))
  {
    assert LockMatches(s.locals[c], s.lock.pcs[c]);
    var r := Advance(s, c, 0);
    LockInv(s, r, c);
    TakerTakes(s, c);
    OthersKeep(s, r, c, c);
  }

  lemma TakerTakes(s: State, c: Cpu)
    requires Inv(s) && Taking(s.locals[c])
    ensures CpuInv(Advance(s, c, 0), c)
  {
    assert CpuInv(s, c);
    if s.locals[c].GoOn? { ReplayAppend(Cold(c), s.logs[c], Taken(s.locals[c].taken)); }
  }

  lemma CallKeeps(s: State, a: Action)
    requires Inv(s) && Enabled(s, a) && (a.Request? || a.Lock? || a.TakeLaunch?)
    ensures Inv(Next(s, a))
  {
    var r := Next(s, a);
    assert LockMatches(s.locals[a.c], s.lock.pcs[a.c]);
    LockInv(s, r, a.c);
    forall x: Cpu ensures CpuInv(r, x) {
      assert CpuInv(s, x);
      if a.TakeLaunch? && x == a.c && s.cpus[x].state != PENDING { AnswerFits(s, x, Missed); }
      CpuFrame(s, r, x, a.c);
    }
  }

  lemma AskKeeps(s: State, c: Cpu, target: nat)
    requires Inv(s) && Enabled(s, Ask(c, target))
    ensures Inv(Next(s, Ask(c, target)))
  {
    var r := Next(s, Ask(c, target));
    if target < CPU_COUNT {
      assert CpuInv(s, target);
      AnswerFits(s, target, Queried(c, Affinity(s.cpus[target].state)));
      CpuFrame(s, r, target, c);
      OthersKeep(s, r, c, target);
    }
  }

  lemma OffKeeps(s: State, c: Cpu)
    requires Inv(s) && Enabled(s, PowerOff(c))
    ensures Inv(Next(s, PowerOff(c)))
  {
    assert CpuInv(s, c);
    ReplayAppend(Cold(c), s.logs[c], PoweredOff);
    OthersKeep(s, Next(s, PowerOff(c)), c, c);
  }

  lemma NextInv(s: State, a: Action)
    requires Inv(s) && Enabled(s, a)
    ensures a.Go? && HoldsLock(s.locals[a.c]) ==> s.lock.pcs[a.c].Critical?
    ensures Inv(Next(s, a))
  {
    assert LockMatches(s.locals[a.c], s.lock.pcs[a.c]);
    if a.Ask? { AskKeeps(s, a.c, a.target); }
    else if a.PowerOff? { OffKeeps(s, a.c); }
    else if !a.Go? { CallKeeps(s, a); }
    else if s.locals[a.c].Inspect? { InspectPath(s, a.c); }
    else if s.locals[a.c].Claim? { ClaimStored(s, a.c); }
    else if Taking(s.locals[a.c]) { TakerPath(s, a.c); }
    else if !s.locals[a.c].Entering? && !HoldsLock(s.locals[a.c]) {
      OwnerPath(s, a.c, s.locals[a.c].target, a.status);
    } else { EntryPath(s, a.c); }
  }

  // ---- Main results ----------------------------------------------------------------------------

  ghost predicate Run(states: seq<State>, actions: seq<Action>) {
    && |states| == |actions| + 1 && states[0] == Initial()
    && forall k: nat :: k < |actions| ==>
         Enabled(states[k], actions[k])
         && (actions[k].Go? && HoldsLock(states[k].locals[actions[k].c]) ==>
               states[k].lock.pcs[actions[k].c].Critical?)
         && states[k + 1] == Next(states[k], actions[k])
  }

  lemma {:induction false} RunInv(states: seq<State>, actions: seq<Action>, k: nat)
    requires Run(states, actions) && k < |states|
    ensures Inv(states[k])
  {
    if k == 0 { InitialInv(); } else { RunInv(states, actions, k - 1); NextInv(states[k - 1], actions[k - 1]); }
  }

  /**
   Linearization: in every run, what happened to each CPU, every refusal of CPU_ON and every answer of
   AFFINITY_INFO included, is a legal sequential history that ends in the phase its atomics show.
   */
  lemma Linearizes(states: seq<State>, actions: seq<Action>, k: nat, t: Cpu)
    requires Run(states, actions) && k < |states|
    ensures var p := Replay(Cold(t), states[k].logs[t]);
      && p.Some?
      && (states[k].cpus[t].state == ON <==> p.value.phase.Running?)
      && (states[k].cpus[t].state == OFF <==> p.value.phase.Stopped?)
      && (states[k].cpus[t].state == CLAIMED <==> p.value.phase.Held?)
      && (states[k].cpus[t].state == PENDING <==> p.value.phase.Waiting?)
  {
    RunInv(states, actions, k);
    assert CpuInv(states[k], t);
  }

  /** The launch returned in entry `i` of a legal history is that of the one claim of its OFF
      period: the last claim before it, announced once since, with at most a boot and answers otherwise. */
  lemma {:induction false} TakenIsClaimed(p: Power, log: seq<Entry>, i: nat) returns (j: nat, a: nat)
    requires Replay(p, log).Some? && i < |log| && log[i].Taken? && !p.phase.Waiting? && !p.phase.Held?
    ensures j < a < i && log[j].Claimed? && log[j].launch == log[i].launch && log[a] == Announced
    ensures forall m :: j < m < i && m != a ==> log[m] == Booted || Observes(log[m])
  {
    PrefixLegal(p, log, i + 1);
    assert log[..i + 1][..i] == log[..i];
    j, a := ClaimOf(p, log[..i]);
  }

  lemma {:induction false} PrefixLegal(p: Power, log: seq<Entry>, n: nat)
    requires Replay(p, log).Some? && n <= |log|
    ensures Replay(p, log[..n]).Some?
  {
    if n == |log| { assert log[..n] == log; }
    else {
      PrefixLegal(p, log[..|log| - 1], n);
      assert log[..|log| - 1][..n] == log[..n];
    }
  }

  /** The claim of a CPU that is claimed or pending, and its announcement at `a` if it is pending. */
  lemma {:induction false} ClaimOf(p: Power, log: seq<Entry>) returns (j: nat, a: nat)
    requires Replay(p, log).Some? && !p.phase.Waiting? && !p.phase.Held?
    requires var q := Replay(p, log).value.phase; q.Held? || q.Waiting?
    ensures j < |log| && log[j].Claimed? && log[j].launch == Replay(p, log).value.phase.claim
    ensures var q := Replay(p, log).value.phase;
      && (if q.Waiting? then j < a < |log| && log[a] == Announced else a == j)
      && forall m :: j < m < |log| && m != a ==> log[m] == Booted || Observes(log[m])
  {
    var before, last := log[..|log| - 1], log[|log| - 1];
    if last.Claimed? {
      j, a := |log| - 1, |log| - 1;
    } else {
      j, a := ClaimOf(p, before);
      if last == Announced { a := |log| - 1; }
    }
  }

  function Boots(log: seq<Entry>): nat {
    if log == [] then 0 else Boots(log[..|log| - 1]) + if log[|log| - 1] == Booted then 1 else 0
  }

  /** `boot_physical` succeeds at most once per CPU, and never for the boot CPU. */
  lemma {:induction false} BootsOnce(p: Power, log: seq<Entry>)
    requires Replay(p, log).Some?
    ensures Boots(log) + (if p.booted then 1 else 0) == if Replay(p, log).value.booted then 1 else 0
  {
    if log != [] { BootsOnce(p, log[..|log| - 1]); }
  }

  /** The same for every run, over all off/on cycles and failed attempts. */
  lemma BootsOnceInRuns(states: seq<State>, actions: seq<Action>, k: nat, t: Cpu)
    requires Run(states, actions) && k < |states|
    ensures Boots(states[k].logs[t]) <= if t == 0 then 0 else 1
  {
    Linearizes(states, actions, k, t);
    BootsOnce(Cold(t), states[k].logs[t]);
  }

  /** No launch is visible before firmware has accepted the CPU: whenever `take_launch` would
      return one, it is complete, is the claimant's, and the CPU is marked started. */
  lemma VisibleLaunch(states: seq<State>, actions: seq<Action>, k: nat, t: Cpu)
    requires Run(states, actions) && k < |states| && states[k].cpus[t].state == PENDING
    ensures states[k].cpus[t].started
    ensures Replay(Cold(t), states[k].logs[t]) ==
            Some(Power(Waiting(Launch(states[k].cpus[t].entry, states[k].cpus[t].context)), true))
  {
    RunInv(states, actions, k);
    assert CpuInv(states[k], t);
  }
}
