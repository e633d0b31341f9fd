/** What CPU_ON admits and answers, over whole runs. */
module PsciCalls {
  import opened Types
  import Bakery
  import opened Psci

  /** Where a guest may start a CPU: aligned, in the guest's address space and outside EL2's own memory. */
  predicate Startable(entry: nat) {
    && 0x8000_0000 <= entry < 0x10_0000_0000 && entry % 4 == 0
    && (entry < 0xfec0_0000 || 0xffc0_0000 <= entry)
  }

  /** CPU_ON goes on to the lock exactly for one of the four CPUs and a startable entry; else it has no effect. */
  lemma RequestExact(s: State, c: Bakery.Cpu, target: nat, launch: Launch)
    requires s.locals[c].Ready?
    ensures
      var a := Request(c, target, launch);
      if target < 4 && Startable(launch.entry)
      then Answer(s, a) == None && Next(s, a) == s.(locals := s.locals[c := Entering(target, launch)])
      else Answer(s, a) == Some(-2) && Next(s, a) == s
  {
  }

  // ---- Over whole runs ---------------------------------------------------------------------------

  /** Caller `c` has been refused with `code` somewhere in the histories. */
  ghost predicate WasRefused(logs: seq<seq<Entry>>, c: Bakery.Cpu, code: int) {
    exists t: nat, i: nat :: t < |logs| && i < |logs[t]| && logs[t][i] == Refused(c, code)
  }

  ghost predicate Admitted(s: State, c: Bakery.Cpu) {
    match s.locals[c]
    case Entering(_, l) => Startable(l.entry)
    case Inspect(_, l) => Startable(l.entry)
    case Claim(_, l) => Startable(l.entry)
    case Refuse(code) => code in {-4, -5} && WasRefused(s.logs, c, code)
    case Revert(_, _, status) => status != 0
    case _ => true
  }

  ghost predicate ClaimsStartable(log: seq<Entry>) {
    forall i: nat :: i < |log| && log[i].Claimed? ==> Startable(log[i].launch.entry)
  }

  ghost predicate Guarded(s: State) {
    && (forall c: Bakery.Cpu :: Admitted(s, c))
    && forall t: Bakery.Cpu :: ClaimsStartable(s.logs[t])
  }

  lemma AdmittedStays(s: State, r: State, d: Bakery.Cpu)
    requires Admitted(s, d) && r.locals[d] == s.locals[d]
    requires forall t: Bakery.Cpu :: s.logs[t] <= r.logs[t]
    ensures Admitted(r, d)
  {
    if s.locals[d].Refuse? {
      var t: nat, i: nat :| t < |s.logs| && i < |s.logs[t]| && s.logs[t][i] == Refused(d, s.locals[d].code);
      var u: Bakery.Cpu := t;
      assert s.logs[u] <= r.logs[u] && r.logs[u][i] == s.logs[u][i];
    }
  }

  /** Histories only grow, by at most one entry of the CPU acted on. */
  lemma LogsGrow(s: State, a: Action, t: Bakery.Cpu)
    requires Enabled(s, a) && (a.Go? && HoldsLock(s.locals[a.c]) ==> s.lock.pcs[a.c].Critical?)
    ensures var r := Next(s, a);
      || r.logs[t] == s.logs[t]
      || (|r.logs[t]| == |s.logs[t]| + 1 && s.logs[t] <= r.logs[t]
          && (r.logs[t][|s.logs[t]|].Claimed? ==>
                a.Go? && s.locals[a.c] == Claim(t, r.logs[t][|s.logs[t]|].launch)))
  {
  }

  lemma MoverAdmitted(s: State, a: Action)
    requires Enabled(s, a) && (a.Go? && HoldsLock(s.locals[a.c]) ==> s.lock.pcs[a.c].Critical?)
    requires Admitted(s, a.c)
    ensures Admitted(Next(s, a), a.c)
  {
    var r := Next(s, a);
    if a.Go? && s.locals[a.c].Inspect? {
      var t := s.locals[a.c].target;
      if s.cpus[t].state != OFF {
        assert r.logs[t][|s.logs[t]|] == Refused(a.c, r.locals[a.c].code);
      }
    }
  }

  lemma NextGuarded(s: State, a: Action)
    requires Enabled(s, a) && (a.Go? && HoldsLock(s.locals[a.c]) ==> s.lock.pcs[a.c].Critical?)
    requires Guarded(s)
    ensures Guarded(Next(s, a))
  {
    var r := Next(s, a);
    forall t: Bakery.Cpu ensures s.logs[t] <= r.logs[t] && ClaimsStartable(r.logs[t]) {
      LogsGrow(s, a, t);
      assert ClaimsStartable(s.logs[t]) && Admitted(s, a.c);
    }
    forall d: Bakery.Cpu ensures Admitted(r, d) {
      assert Admitted(s, d);
      if d == a.c { MoverAdmitted(s, a); } else { AdmittedStays(s, r, d); }
    }
  }

  lemma {:induction false} RunGuarded(states: seq<State>, actions: seq<Action>, k: nat)
    requires Run(states, actions) && k < |states|
    ensures Guarded(states[k])
  {
    if k > 0 {
      RunGuarded(states, actions, k - 1);
      NextGuarded(states[k - 1], actions[k - 1]);
    }
  }

  /** In every run, whatever is claimed for a CPU and whatever a CPU then starts from is startable. */
  lemma EntriesStartable(states: seq<State>, actions: seq<Action>, k: nat, t: Bakery.Cpu, i: nat)
    requires Run(states, actions) && k < |states| && i < |states[k].logs[t]|
    ensures var e := states[k].logs[t][i];
      (e.Claimed? || e.Taken?) ==>
        && 0x8000_0000 <= e.launch.entry < 0x10_0000_0000 && e.launch.entry % 4 == 0
        && !(0xfec0_0000 <= e.launch.entry < 0xfec0_0000 + 0x100_0000)
  {
    RunGuarded(states, actions, k);
    assert ClaimsStartable(states[k].logs[t]);
    if states[k].logs[t][i].Taken? {
      Linearizes(states, actions, k, t);
      var j, a := TakenIsClaimed(Cold(t), states[k].logs[t], i);
    }
  }

  /** AFFINITY_INFO answers at once: -2 for no CPU, else what the history of that CPU then records. */
  lemma AskExact(s: State, c: Bakery.Cpu, target: nat)
    requires s.locals[c].Ready?
    ensures
      var a := Ask(c, target);
      && Answer(s, a).Some?
      && (target >= 4 ==> Answer(s, a).value == -2 && Next(s, a) == s)
      && (target < 4 ==> Next(s, a) == s.(logs := s.logs[target := s.logs[target] + [Queried(c, Answer(s, a).value)]]))
  {
  }

  /**
   A call that has reached the lock answers what its history says of it: 0 as the launch is announced, the
   status firmware gave as the claim is given back, and -4 or -5 as it was logged when the CPU was seen.
   */
  lemma AnswersExact(states: seq<State>, actions: seq<Action>, k: nat, c: Bakery.Cpu, status: int)
    requires Run(states, actions) && k < |actions| && actions[k] == Go(c, status)
    requires Answer(states[k], actions[k]).Some?
    ensures
      var s, r, answer := states[k], states[k + 1], Answer(states[k], actions[k]).value;
      && r.locals[c].Ready?
      && match s.locals[c]
         case Announce(t, _) => answer == 0 && r.logs[t] == s.logs[t] + [Announced]
         case Revert(t, _, given) => answer == given != 0 && r.logs[t] == s.logs[t] + [Reverted]
         case _ => answer in {-4, -5} && WasRefused(s.logs, c, answer)
  {
    RunGuarded(states, actions, k);
    assert Admitted(states[k], c);
  }

  /** The status a claim is given back with is the one firmware answered, and only then is it given back. */
  lemma FirmwareDecides(s: State, c: Bakery.Cpu, status: int)
    requires s.locals[c].Firmware?
    ensures
      var r, l := Next(s, Go(c, status)), s.locals[c];
      if status == 0
      then r.locals[c] == MarkStarted(l.target, l.launch) && r.logs[l.target] == s.logs[l.target] + [Booted]
      else r.locals[c] == Revert(l.target, l.launch, status) && r.logs == s.logs
  {
  }
}
