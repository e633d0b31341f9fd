/**
 The Bakery lock over one packed word per CPU: bit 0 means choosing, the rest is the number.
 Every atomic load or store is one step, and steps of the four CPUs interleave arbitrarily
 (sequential consistency). `Step(s, c)` is the next memory access of CPU `c`; entering from
 `Idle` and leaving from `Critical` are up to the caller of the lock.
 */
module Bakery {
  const CPU_COUNT := 4
  const MAX_NUMBER := 0x7fff_ffff_ffff_ffff
  const WORD_LIMIT := 0x1_0000_0000_0000_0000

  type Cpu = c: nat | c < CPU_COUNT

  datatype Pc =
    | Idle
    | Retry                                        // withdrawn, about to choose again
    | Scan(next: nat, maximum: nat)                // choosing, about to load slot `next`
    | Withdraw                                     // choosing, saw the largest number
    | Publish(number: nat)                         // choosing, about to store the number
    | Wait(other: nat, number: nat, checked: bool) // `checked`: saw `other` not choosing
    | Critical(number: nat)

  /** `ahead` holds (i, j) when i had published its number as j stored its choosing bit. */
  datatype Words = Words(slots: seq<nat>, pcs: seq<Pc>, ahead: set<(Cpu, Cpu)>)

  type State = s: Words | |s.slots| == |s.pcs| == CPU_COUNT
    witness Words([0, 0, 0, 0], [Idle, Idle, Idle, Idle], {})

  function Initial(): State {
    Words(seq(CPU_COUNT, _ => 0), seq(CPU_COUNT, _ => Idle), {})
  }

  predicate Published(pc: Pc) { pc.Wait? || pc.Critical? }

  predicate Choosing(pc: Pc) { pc.Scan? || pc.Withdraw? || pc.Publish? }

  function Max(a: nat, b: nat): nat { if a < b then b else a }

  /** The next CPU to wait for after `other`, or the critical section. */
  function Turn(c: Cpu, other: nat, number: nat): Pc {
    var next := if other == c then other + 1 else other;
    if next >= CPU_COUNT then Critical(number) else Wait(next, number, false)
  }

  function Step(s: State, c: Cpu): (r: State)
    requires Next(s.pcs[c])
    ensures forall j: nat :: j < CPU_COUNT && j != c ==> r.pcs[j] == s.pcs[j] && r.slots[j] == s.slots[j]
  {
    match s.pcs[c]
    case Idle => s.(slots := s.slots[c := 1], pcs := s.pcs[c := Scan(0, 0)], ahead := s.ahead + Arrivals(s, c))
    case Retry => s.(slots := s.slots[c := 1], pcs := s.pcs[c := Scan(0, 0)], ahead := s.ahead + Arrivals(s, c))
    case Scan(k, maximum) =>
      var seen := Max(maximum, s.slots[k] / 2);
      s.(pcs := s.pcs[c :=
        if k + 1 < CPU_COUNT then Scan(k + 1, seen)
        else if seen == MAX_NUMBER then Withdraw else Publish(seen + 1)])
    case Withdraw => s.(slots := s.slots[c := 0], pcs := s.pcs[c := Retry])
    case Publish(n) => s.(slots := s.slots[c := 2 * n], pcs := s.pcs[c := Turn(c, 0, n)])
    case Wait(j, n, checked) =>
      if !checked then
        if s.slots[j] % 2 != 0 then s else s.(pcs := s.pcs[c := Wait(j, n, true)])
      else
        var theirs := s.slots[j] / 2;
        if theirs == 0 || theirs > n || (theirs == n && j >= c)
        then s.(pcs := s.pcs[c := Turn(c, j + 1, n)]) else s
    case Critical(_) =>
      s.(slots := s.slots[c := 0], pcs := s.pcs[c := Idle],
         ahead := set p | p in s.ahead && p.0 != c && p.1 != c)
  }

  predicate Next(pc: Pc) {
    match pc
    case Scan(k, _) => k < CPU_COUNT
    case Wait(j, _, _) => j < CPU_COUNT
    case _ => true
  }

  function Arrivals(s: State, c: Cpu): set<(Cpu, Cpu)>
  {
    set i: Cpu | i < CPU_COUNT && i != c && Published(s.pcs[i]) :: (i, c)
  }

  // ---- Invariant -----------------------------------------------------------------------

  ghost predicate SlotMatches(pc: Pc, slot: nat) {
    match pc
    case Idle => slot == 0
    case Retry => slot == 0
    case Scan(k, m) => slot == 1 && k < CPU_COUNT && m <= MAX_NUMBER
    case Withdraw => slot == 1
    case Publish(n) => slot == 1 && 1 <= n <= MAX_NUMBER
    case Wait(j, n, _) => slot == 2 * n && 1 <= n <= MAX_NUMBER && j < CPU_COUNT
    case Critical(n) => slot == 2 * n && 1 <= n <= MAX_NUMBER
  }

  /** A CPU at `pc` that has no number yet will draw one larger than `n`, held by CPU `i`. */
  ghost predicate WillDrawAbove(pc: Pc, i: Cpu, n: nat) {
    match pc
    case Scan(k, m) => k <= i || m >= n
    case Publish(m) => m > n
    case _ => !Published(pc)
  }

  /** CPU `j` comes after `i` in lexicographic (number, CPU) order, now or once it has chosen. */
  ghost predicate After(s: State, i: Cpu, j: Cpu)
    requires Published(s.pcs[i])
  {
    var n := s.pcs[i].number;
    if Published(s.pcs[j]) then s.pcs[j].number > n || (s.pcs[j].number == n && j > i)
    else WillDrawAbove(s.pcs[j], i, n)
  }

  /** CPU `i` has finished waiting for CPU `j`. */
  ghost predicate Passed(pc: Pc, j: Cpu) { pc.Critical? || (pc.Wait? && pc.other > j) }

  ghost predicate PairInv(s: State, i: Cpu, j: Cpu)
  {
    && (Passed(s.pcs[i], j) ==> After(s, i, j))
    && (s.pcs[i].Wait? && s.pcs[i].other == j && s.pcs[i].checked && !Published(s.pcs[j]) ==>
          After(s, i, j))
    && ((i, j) in s.ahead ==>
          && Published(s.pcs[i]) && After(s, i, j)
          && (Published(s.pcs[j]) ==> s.pcs[j].number > s.pcs[i].number))
  }

  ghost predicate Inv(s: State) {
    && (forall c: Cpu :: SlotMatches(s.pcs[c], s.slots[c]) && (s.pcs[c].Wait? ==> s.pcs[c].other != c))
    && (forall i: Cpu, j: Cpu :: i != j ==> PairInv(s, i, j))
    && (forall c: Cpu :: (c, c) !in s.ahead)
  }

  lemma InitialInv()
    ensures Inv(Initial())
  {
  }

  lemma FirstMoves(s: State, i: Cpu, j: Cpu)
    requires Inv(s) && i != j
    ensures PairInv(Step(s, i), i, j)
  {
    assert PairInv(s, i, j);
    assert SlotMatches(s.pcs[j], s.slots[j]);
  }

  /** What `j` does while it has no number keeps it after `i`. */
  lemma DrawsAbove(s: State, i: Cpu, j: Cpu)
    requires Inv(s) && i != j && Published(s.pcs[i]) && !Published(s.pcs[j]) && After(s, i, j)
    ensures After(Step(s, j), i, j)
    ensures Published(Step(s, j).pcs[j]) ==> Step(s, j).pcs[j].number > s.pcs[i].number
  {
    assert SlotMatches(s.pcs[i], s.slots[i]);
  }

  /** A CPU that starts to choose comes after everyone with a number; one that has a number keeps it. */
  lemma StartsAbove(s: State, i: Cpu, j: Cpu)
    requires Inv(s) && i != j && Published(s.pcs[i]) && (s.pcs[j].Idle? || s.pcs[j].Retry? || s.pcs[j].Critical?)
    ensures After(Step(s, j), i, j) && !Published(Step(s, j).pcs[j])
  {
  }

  lemma SecondMoves(s: State, i: Cpu, j: Cpu)
    requires Inv(s) && i != j
    ensures PairInv(Step(s, j), i, j)
  {
    assert PairInv(s, i, j);
    if Published(s.pcs[i]) {
      if s.pcs[j].Idle? || s.pcs[j].Retry? || s.pcs[j].Critical? {
        StartsAbove(s, i, j);
      } else if !Published(s.pcs[j]) && After(s, i, j) {
        DrawsAbove(s, i, j);
      }
    }
  }

  lemma StepPair(s: State, c: Cpu, i: Cpu, j: Cpu)
    requires Inv(s) && i != j
    ensures PairInv(Step(s, c), i, j)
  {
    assert PairInv(s, i, j);
    if i == c { FirstMoves(s, i, j); } else if j == c { SecondMoves(s, i, j); }
  }

  lemma StepInv(s: State, c: Cpu)
    requires Inv(s)
    ensures Inv(Step(s, c))
  {
    var r := Step(s, c);
    forall i: Cpu, j: Cpu | i != j ensures PairInv(r, i, j) { StepPair(s, c, i, j); }
    forall d: Cpu ensures SlotMatches(r.pcs[d], r.slots[d]) && (r.pcs[d].Wait? ==> r.pcs[d].other != d) {
      assert SlotMatches(s.pcs[d], s.slots[d]);
      if s.pcs[c].Scan? { assert SlotMatches(s.pcs[s.pcs[c].next], s.slots[s.pcs[c].next]); }
    }
  }

  // ---- Main results ---------------------------------------------------------------------

  ghost predicate Run(states: seq<State>, schedule: seq<Cpu>) {
    && |states| == |schedule| + 1 && states[0] == Initial()
    && forall k: nat :: k < |schedule| ==> Follows(states, schedule, k)
  }

  /** State `k + 1` is what the scheduled CPU's access makes of state `k`. */
  ghost predicate Follows(states: seq<State>, schedule: seq<Cpu>, k: nat)
    requires |states| == |schedule| + 1 && k < |schedule|
  {
    Next(states[k].pcs[schedule[k]]) && states[k + 1] == Step(states[k], schedule[k])
  }

  lemma {:induction false} RunInv(states: seq<State>, schedule: seq<Cpu>, k: nat)
    requires Run(states, schedule) && k < |states|
    ensures Inv(states[k])
  {
    if k == 0 {
      InitialInv();
    } else {
      RunInv(states, schedule, k - 1);
      assert Follows(states, schedule, k - 1);
      StepInv(states[k - 1], schedule[k - 1]);
    }
  }

  lemma Exclusion(s: State, i: Cpu, j: Cpu)
    requires Inv(s) && s.pcs[i].Critical? && s.pcs[j].Critical?
    ensures i == j
  {
    assert i == j || PairInv(s, i, j);
    assert i == j || PairInv(s, j, i);
  }

  /** Mutual exclusion under every interleaving of single loads and stores. */
  lemma MutualExclusion(states: seq<State>, schedule: seq<Cpu>, k: nat, i: Cpu, j: Cpu)
    requires Run(states, schedule) && k < |states|
    requires states[k].pcs[i].Critical? && states[k].pcs[j].Critical?
    ensures i == j
  {
    RunInv(states, schedule, k);
    Exclusion(states[k], i, j);
  }

  /** First come, first served: while a CPU that had its number before `j` began to choose has
      not left, `j` is not in the critical section. Withdrawals do not change this. */
  lemma FirstComeFirstServed(states: seq<State>, schedule: seq<Cpu>, from: nat, to: nat, i: Cpu, j: Cpu)
    requires Run(states, schedule) && from < to < |states| && i != j
    requires Published(states[from].pcs[i]) && schedule[from] == j
    requires states[from].pcs[j].Idle? || states[from].pcs[j].Retry?
    requires forall k: nat :: from <= k <= to ==> Published(states[k].pcs[i])
    requires forall k: nat :: from < k <= to ==> !states[k].pcs[j].Idle?
    ensures !states[to].pcs[j].Critical?
  {
    AheadStays(states, schedule, from, to, i, j);
    RunInv(states, schedule, to);
    assert PairInv(states[to], i, j) && PairInv(states[to], j, i);
  }

  lemma {:induction false} AheadStays(states: seq<State>, schedule: seq<Cpu>, from: nat, to: nat, i: Cpu, j: Cpu)
    requires Run(states, schedule) && from < to < |states| && i != j
    requires Published(states[from].pcs[i]) && schedule[from] == j
    requires states[from].pcs[j].Idle? || states[from].pcs[j].Retry?
    requires forall k: nat :: from <= k <= to ==> Published(states[k].pcs[i])
    requires forall k: nat :: from < k <= to ==> !states[k].pcs[j].Idle?
    ensures (i, j) in states[to].ahead
  {
    if to > from + 1 {
      AheadStays(states, schedule, from, to - 1, i, j);
      assert Follows(states, schedule, to - 1);
      assert !(states[to - 1].pcs[schedule[to - 1]].Critical? && schedule[to - 1] in {i, j});
    } else {
      assert Follows(states, schedule, from);
      assert (i, j) in Arrivals(states[from], j);
    }
  }

  /** No slot overflows its 64-bit word, and a withdrawn CPU shows an idle slot. */
  lemma WordsFit(states: seq<State>, schedule: seq<Cpu>, k: nat, c: Cpu)
    requires Run(states, schedule) && k < |states|
    ensures states[k].slots[c] < WORD_LIMIT
    ensures states[k].pcs[c].Retry? ==> states[k].slots[c] == 0
  {
    RunInv(states, schedule, k);
    assert SlotMatches(states[k].pcs[c], states[k].slots[c]);
  }

  /** With nobody choosing, the waiting CPU least in (number, CPU) order is never held up, and a CPU
      that is choosing or retrying always advances. */
  lemma LeastAdvances(s: State, c: Cpu)
    requires Inv(s)
    requires s.pcs[c].Wait? ==> forall j: Cpu :: j != c ==> !Choosing(s.pcs[j]) && After(s, c, j)
    ensures Step(s, c).pcs[c] != s.pcs[c]
  {
    if s.pcs[c].Wait? {
      var j := s.pcs[c].other;
      assert SlotMatches(s.pcs[j], s.slots[j]);
    }
  }

  /** The number and CPU of `c` come no later than those of any waiting CPU below `n`. */
  ghost predicate LeastBelow(s: State, c: Cpu, n: nat) {
    && s.pcs[c].Wait?
    && forall j: Cpu :: j < n && s.pcs[j].Wait? ==>
         s.pcs[c].number < s.pcs[j].number || (s.pcs[c].number == s.pcs[j].number && c <= j)
  }

  /** Among waiting CPUs one is least. */
  lemma FindLeast(s: State, w: Cpu) returns (c: Cpu)
    requires s.pcs[w].Wait?
    ensures LeastBelow(s, c, CPU_COUNT)
  {
    var n := 0;
    c := w;
    while n < CPU_COUNT
      invariant n <= CPU_COUNT && LeastBelow(s, c, n)
      decreases CPU_COUNT - n
    {
      if s.pcs[n].Wait? && (s.pcs[n].number < s.pcs[c].number || (s.pcs[n].number == s.pcs[c].number && n < c)) {
        c := n;
      }
      n := n + 1;
    }
  }

  ghost predicate Engaged(pc: Pc) { !pc.Idle? }

  /**
   No deadlock: in every reachable state in which some CPU wants the lock or has it, the next access of
   some such CPU moves it on.
   */
  lemma SomeoneMoves(states: seq<State>, schedule: seq<Cpu>, k: nat, w: Cpu) returns (c: Cpu)
    requires Run(states, schedule) && k < |states| && Engaged(states[k].pcs[w])
    ensures Engaged(states[k].pcs[c]) && Next(states[k].pcs[c])
    ensures Step(states[k], c).pcs[c] != states[k].pcs[c]
  {
    var s := states[k];
    RunInv(states, schedule, k);
    if exists d: Cpu :: Engaged(s.pcs[d]) && !s.pcs[d].Wait? {
      c :| Engaged(s.pcs[c]) && !s.pcs[c].Wait?;
      assert SlotMatches(s.pcs[c], s.slots[c]);
    } else {
      c := FindLeast(s, w);
      assert SlotMatches(s.pcs[c], s.slots[c]);
      forall j: Cpu | j != c ensures !Choosing(s.pcs[j]) && After(s, c, j) {
        assert Engaged(s.pcs[j]) ==> s.pcs[j].Wait?;
      }
      LeastAdvances(s, c);
    }
  }

  /** `n` accesses of CPU `c` with the others standing still. */
  ghost function Alone(s: State, c: Cpu, n: nat): State {
    if n == 0 then s
    else
      var r := Alone(s, c, n - 1);
      if Next(r.pcs[c]) then Step(r, c) else r
  }

  function Left(pc: Pc): nat {
    if pc.Wait? && pc.other < CPU_COUNT then 2 * (CPU_COUNT - pc.other) - (if pc.checked then 1 else 0) else 0
  }

  // ---- Among the others --------------------------------------------------------------------------

  /** CPU `c` waits, everyone else comes after it, now or once it has chosen, and nobody is inside. */
  ghost predicate First(s: State, c: Cpu) {
    s.pcs[c].Wait? && forall j: Cpu :: j != c ==> After(s, c, j) && !s.pcs[j].Critical?
  }

  /** The CPU that `c` is about to look at is in the middle of choosing. */
  predicate HeldUp(s: State, c: Cpu) {
    s.pcs[c].Wait? && !s.pcs[c].checked && s.pcs[c].other < CPU_COUNT && Choosing(s.pcs[s.pcs[c].other])
  }

  /** A step of another CPU takes nothing from the first. */
  lemma OtherStep(s: State, c: Cpu, d: Cpu)
    requires Inv(s) && First(s, c) && d != c && Next(s.pcs[d])
    ensures Step(s, d).pcs[c] == s.pcs[c] && First(Step(s, d), c)
  {
    var r := Step(s, d);
    StepInv(s, d);
    if s.pcs[d].Idle? || s.pcs[d].Retry? {
      StartsAbove(s, c, d);
    } else if !Published(s.pcs[d]) {
      DrawsAbove(s, c, d);
    }
    assert After(r, c, d);
    assert PairInv(r, d, c);
  }

  /** Its own access brings the first nearer, unless the CPU it looks at is choosing. */
  lemma OwnStep(s: State, c: Cpu)
    requires Inv(s) && First(s, c)
    ensures Next(s.pcs[c])
    ensures
      var r := Step(s, c);
      if HeldUp(s, c) then r == s else r.pcs[c].Critical? || (First(r, c) && Left(r.pcs[c]) < Left(s.pcs[c]))
  {
    var j := s.pcs[c].other;
    assert SlotMatches(s.pcs[c], s.slots[c]);
    assert SlotMatches(s.pcs[j], s.slots[j]);
    assert After(s, c, j);
    var r := Step(s, c);
    forall d: Cpu | d != c && r.pcs[c].Wait? ensures After(r, c, d) { assert After(s, c, d); }
  }

  /** How often `c` looks, from state `from` to state `to`, at a CPU that is not choosing. */
  ghost function Looks(states: seq<State>, schedule: seq<Cpu>, c: Cpu, from: nat, to: nat): nat
    requires |states| == |schedule| + 1 && from <= to < |states|
  {
    if from == to then 0
    else
      Looks(states, schedule, c, from, to - 1) + Look(states[to - 1], schedule[to - 1], c)
  }

  /** Whether the next access of `d` is one of `c` at a CPU that is not choosing. */
  function Look(s: State, d: Cpu, c: Cpu): nat { if d == c && !HeldUp(s, c) then 1 else 0 }

  /** Any step leaves the first waiting CPU first or lets it in. */
  lemma AnyStep(s: State, c: Cpu, d: Cpu)
    requires Inv(s) && First(s, c) && Next(s.pcs[d])
    ensures
      var r := Step(s, d);
      r.pcs[c].Critical? || (First(r, c) && Look(s, d, c) + Left(r.pcs[c]) <= Left(s.pcs[c]))
  {
    if d == c { OwnStep(s, c); } else { OtherStep(s, c, d); }
  }

  lemma LeastIsFirst(s: State, c: Cpu)
    requires Inv(s) && LeastBelow(s, c, CPU_COUNT)
    requires forall j: Cpu :: !Choosing(s.pcs[j]) && !s.pcs[j].Critical?
    ensures First(s, c)
  {
  }

  lemma QuietStep(r: State, c: Cpu)
    requires Inv(r) && First(r, c) && forall j: Cpu :: !Choosing(r.pcs[j])
    ensures Next(r.pcs[c]) && Inv(Step(r, c)) && forall j: Cpu :: !Choosing(Step(r, c).pcs[j])
    ensures Step(r, c).pcs[c].Critical? || First(Step(r, c), c)
    ensures Left(Step(r, c).pcs[c]) < Left(r.pcs[c])
  {
    OwnStep(r, c);
    StepInv(r, c);
    assert SlotMatches(r.pcs[c], r.slots[c]);
  }

  /** With nobody choosing or inside, the least waiting CPU enters within eight accesses of its own. */
  lemma LeastEnters(s: State, c: Cpu) returns (n: nat)
    requires Inv(s) && LeastBelow(s, c, CPU_COUNT)
    requires forall j: Cpu :: !Choosing(s.pcs[j]) && !s.pcs[j].Critical?
    ensures n <= 2 * CPU_COUNT && Alone(s, c, n).pcs[c].Critical?
  {
    LeastIsFirst(s, c);
    n := 0;
    var r := s;
    while !r.pcs[c].Critical?
      invariant Inv(r) && r == Alone(s, c, n) && n + Left(r.pcs[c]) <= 2 * CPU_COUNT
      invariant r.pcs[c].Critical? || First(r, c)
      invariant forall j: Cpu :: !Choosing(r.pcs[j])
      decreases Left(r.pcs[c])
    {
      QuietStep(r, c);
      r, n := Step(r, c), n + 1;
    }
  }

  ghost predicate Outside(states: seq<State>, c: Cpu, from: nat, to: nat)
    requires to < |states|
  {
    forall q: nat :: from <= q <= to ==> !states[q].pcs[c].Critical?
  }

  lemma {:induction false} FirstStays(states: seq<State>, schedule: seq<Cpu>, from: nat, to: nat, c: Cpu)
    requires Run(states, schedule) && from <= to < |states| && First(states[from], c)
    requires Outside(states, c, from, to)
    ensures First(states[to], c)
  {
    if from < to {
      FirstStays(states, schedule, from, to - 1, c);
      StepOn(states, schedule, to - 1, c);
    }
  }

  lemma {:induction false} LooksBound(states: seq<State>, schedule: seq<Cpu>, from: nat, to: nat, c: Cpu)
    requires Run(states, schedule) && from <= to < |states| && First(states[from], c)
    requires Outside(states, c, from, to)
    ensures Looks(states, schedule, c, from, to) + Left(states[to].pcs[c]) <= Left(states[from].pcs[c])
  {
    if from < to {
      LooksBound(states, schedule, from, to - 1, c);
      FirstStays(states, schedule, from, to - 1, c);
      StepOn(states, schedule, to - 1, c);
      LooksOn(states, schedule, c, from, to - 1);
    }
  }

  lemma {:induction false} LooksOn(states: seq<State>, schedule: seq<Cpu>, c: Cpu, from: nat, k: nat)
    requires |states| == |schedule| + 1 && from <= k < |schedule|
    ensures Looks(states, schedule, c, from, k + 1)
         == Looks(states, schedule, c, from, k) + Look(states[k], schedule[k], c)
  {
  }

  lemma StepOn(states: seq<State>, schedule: seq<Cpu>, k: nat, c: Cpu)
    requires Run(states, schedule) && k < |schedule| && First(states[k], c) && !states[k + 1].pcs[c].Critical?
    ensures First(states[k + 1], c)
    ensures Look(states[k], schedule[k], c) + Left(states[k + 1].pcs[c]) <= Left(states[k].pcs[c])
  {
    RunInv(states, schedule, k);
    assert Follows(states, schedule, k);
    AnyStep(states[k], c, schedule[k]);
  }

  /** As long as the first waits, it has looked less than eight times. */
  lemma NotYet(states: seq<State>, schedule: seq<Cpu>, from: nat, to: nat, c: Cpu)
    requires Run(states, schedule) && from <= to < |states| && First(states[from], c)
    requires Outside(states, c, from, to)
    ensures Looks(states, schedule, c, from, to) < 2 * CPU_COUNT
  {
    FirstStays(states, schedule, from, to, c);
    LooksBound(states, schedule, from, to, c);
    RunInv(states, schedule, to);
    assert SlotMatches(states[to].pcs[c], states[to].slots[c]);
  }

  /**
   Entry among the others: with nobody choosing or inside, the least waiting CPU is in the critical
   section once it has looked eight times at a CPU that is not choosing, whatever the others do
   meanwhile, withdrawals included; and until then nobody else is inside.
   */
  lemma LeastEntersAmong(states: seq<State>, schedule: seq<Cpu>, from: nat, to: nat, c: Cpu) returns (q: nat)
    requires Run(states, schedule) && from <= to < |states| && LeastBelow(states[from], c, CPU_COUNT)
    requires forall j: Cpu :: !Choosing(states[from].pcs[j]) && !states[from].pcs[j].Critical?
    requires Looks(states, schedule, c, from, to) >= 2 * CPU_COUNT
    ensures from < q <= to && states[q].pcs[c].Critical?
    ensures forall p: nat, j: Cpu :: from <= p < q ==> !states[p].pcs[j].Critical?
  {
    RunInv(states, schedule, from);
    LeastIsFirst(states[from], c);
    q := from;
    while !states[q].pcs[c].Critical?
      invariant from <= q <= to && (q > from ==> Outside(states, c, from, q - 1))
      decreases |states| - q
    {
      if q == to { NotYet(states, schedule, from, to, c); }
      q := q + 1;
    }
    forall p: nat, j: Cpu | from <= p < q ensures !states[p].pcs[j].Critical? {
      FirstStays(states, schedule, from, p, c);
    }
  }
}
