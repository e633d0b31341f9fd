/**
 The guest's view of the legacy interrupt controller: two sources stay routed to EL2 whatever the guest
 writes, and it keeps an enable of its own for each. A register's word is the set of its one bits.
 */
module Lic {
  import opened Types

  const STRIDE := 0x100
  const SOURCES := 192
  const VFIQ := 0x08
  const ISR := 0x10
  const FIR := 0x14
  const FIR_SET := 0x18
  const FIR_CLR := 0x1c
  const IER := 0x20
  const IER_SET := 0x24
  const IER_CLR := 0x28
  const CLASS := 0x2c
  const SIZE := 0x1000

  type Word = set<nat>

  /** The word of each register. */
  type Regs = nat -> Word

  datatype State = State(owned: seq<Option<nat>>, enabled: seq<bool>)

  predicate Shaped(s: State) {
    && |s.owned| == 2 && |s.enabled| == 2
    && (s.owned[0].Some? ==> s.owned[0].value < SOURCES) && (s.owned[1].Some? ==> s.owned[1].value < SOURCES)
  }

  function Bank(source: nat): nat { source / 32 * STRIDE }

  /** The register of `source`'s bank at this offset, as the bank's own offset. */
  function Register(source: nat, offset: nat): Option<nat> {
    if offset >= Bank(source) then Some(offset - Bank(source)) else None
  }

  // ---- The hardware -----------------------------------------------------------------------------------

  function Put(p: Regs, r: nat, v: Word): Regs { (k: nat) => if k == r then v else p(k) }

  /** A store: the set and clear registers act on the register below them, any other keeps its word. */
  function Store(p: Regs, offset: nat, v: Word): Regs {
    var r := offset % STRIDE;
    if r == IER_SET then Put(p, offset - 4, p(offset - 4) + v)
    else if r == IER_CLR then Put(p, offset - 8, p(offset - 8) - v)
    else if r == FIR_SET then Put(p, offset - 4, p(offset - 4) + v)
    else if r == FIR_CLR then Put(p, offset - 8, p(offset - 8) - v)
    else Put(p, offset, v)
  }

  // ---- Guest accesses -----------------------------------------------------------------------------------

  predicate Plain(r: nat) { r in {VFIQ, ISR, FIR, FIR_SET, FIR_CLR, IER} }

  /** What is left of a written word once one source has been taken out of it. */
  function Filter(source: Option<nat>, current: Word, offset: nat, v: Word): Word {
    if source.None? then v
    else
      match Register(source.value, offset)
      case None => v
      case Some(r) =>
        var bit := source.value % 32;
        if r == CLASS then v - {bit} + (current * {bit})
        else if r == IER_SET || r == IER_CLR || Plain(r) then v - {bit}
        else v
  }

  /** The guest's enable of one source after it has seen a word. */
  function Enable(source: Option<nat>, enabled: bool, offset: nat, v: Word): bool {
    if source.None? then enabled
    else if Register(source.value, offset) == Some(IER_SET) then enabled || source.value % 32 in v
    else if Register(source.value, offset) == Some(IER_CLR) then enabled && source.value % 32 !in v
    else enabled
  }

  datatype Pair = Pair(state: State, regs: Regs)

  function Write(s: State, p: Regs, offset: nat, v: Word): Pair
    requires Shaped(s)
  {
    var v1 := Filter(s.owned[0], p(offset), offset, v);
    var v2 := Filter(s.owned[1], p(offset), offset, v1);
    Pair(s.(enabled := [Enable(s.owned[0], s.enabled[0], offset, v), Enable(s.owned[1], s.enabled[1], offset, v1)]),
         Store(p, offset, v2))
  }

  function Show(source: Option<nat>, enabled: bool, offset: nat, v: Word): Word {
    if source.None? then v
    else
      match Register(source.value, offset)
      case None => v
      case Some(r) =>
        var bit := source.value % 32;
        var hidden := if Plain(r) || r == IER_SET || r == IER_CLR || r == CLASS then v - {bit} else v;
        if r == IER && enabled then hidden + {bit} else hidden
  }

  function Read(s: State, p: Regs, offset: nat): Word
    requires Shaped(s)
  {
    Show(s.owned[1], s.enabled[1], offset, Show(s.owned[0], s.enabled[0], offset, p(offset)))
  }

  // ---- One source at a time --------------------------------------------------------------------------------

  predicate Owns(source: Option<nat>, bank: nat, bit: nat) {
    source.Some? && Bank(source.value) == bank && source.value % 32 == bit
  }

  predicate Owned(s: State, bank: nat, bit: nat)
    requires Shaped(s)
  {
    Owns(s.owned[0], bank, bit) || Owns(s.owned[1], bank, bit)
  }

  /** A register the guest's writes to an owned source are kept from. */
  predicate Guarded(r: nat) { r in {VFIQ, ISR, FIR, IER, CLASS} }

  lemma RegisterIs(source: nat, bank: nat, r: nat)
    requires source < SOURCES && bank % STRIDE == 0 && r < STRIDE
    ensures Register(source, bank + r).Some? ==> Register(source, bank + r).value >= 0
    ensures Bank(source) == bank ==> Register(source, bank + r) == Some(r)
    ensures Bank(source) != bank && Register(source, bank + r).Some? ==> Register(source, bank + r).value >= STRIDE
  {
    assert Bank(source) % STRIDE == 0;
  }

  /** One source's share of a written word, bit by bit. */
  lemma FilterAt(source: Option<nat>, current: Word, bank: nat, r: nat, v: Word, b: nat)
    requires source.Some? ==> source.value < SOURCES
    requires bank % STRIDE == 0 && r < STRIDE
    ensures b in Filter(source, current, bank + r, v)
       <==> if Owns(source, bank, b) && (Guarded(r) || r in {IER_SET, IER_CLR, FIR_SET, FIR_CLR})
            then r == CLASS && b in current
            else b in v
  {
    if source.Some? { RegisterIs(source.value, bank, r); }
  }

  /** The word that reaches the hardware. */
  function Passed(s: State, p: Regs, offset: nat, v: Word): Word
    requires Shaped(s)
  {
    Filter(s.owned[1], p(offset), offset, Filter(s.owned[0], p(offset), offset, v))
  }

  lemma PassedAt(s: State, p: Regs, bank: nat, r: nat, v: Word, b: nat)
    requires Shaped(s) && bank % STRIDE == 0 && r < STRIDE
    ensures b in Passed(s, p, bank + r, v)
       <==> if Owned(s, bank, b) && (Guarded(r) || r in {IER_SET, IER_CLR, FIR_SET, FIR_CLR})
            then r == CLASS && b in p(bank + r)
            else b in v
  {
    FilterAt(s.owned[0], p(bank + r), bank, r, v, b);
    FilterAt(s.owned[1], p(bank + r), bank, r, Filter(s.owned[0], p(bank + r), bank + r, v), b);
  }

  /** The register a store to `offset` changes. */
  function Target(r: nat): nat {
    if r == IER_SET || r == IER_CLR then IER else if r == FIR_SET || r == FIR_CLR then FIR else r
  }

  lemma StoreAt(p: Regs, bank: nat, r: nat, v: Word, k: nat, b: nat)
    requires bank % STRIDE == 0 && r < STRIDE
    ensures b in Store(p, bank + r, v)(k)
       <==> if k != bank + Target(r) then b in p(k)
            else if r == IER_SET || r == FIR_SET then b in p(k) || b in v
            else if r == IER_CLR || r == FIR_CLR then b in p(k) && b !in v
            else b in v
  {
    assert (bank + r) % STRIDE == r;
  }

  /**
   Every bit of an owned source outlives a guest's write, except that storing to one of the plain
   registers itself leaves the bit clear; all other bits are as the same store would have left them.
   */
  lemma WriteExact(s: State, p: Regs, bank: nat, r: nat, v: Word, at: nat, k: nat, b: nat)
    requires Shaped(s) && bank % STRIDE == 0 && r < STRIDE && at % STRIDE == 0 && k < STRIDE
    ensures b in Write(s, p, bank + r, v).regs(at + k)
       <==> if Owned(s, at, b) && Guarded(k)
            then b in p(at + k) && !(at == bank && k == r && k != CLASS)
            else b in Store(p, bank + r, v)(at + k)
  {
    PassedAt(s, p, bank, r, v, b);
    StoreAt(p, bank, r, Passed(s, p, bank + r, v), at + k, b);
    StoreAt(p, bank, r, v, at + k, b);
    Separate(bank, r, at, k);
    Separate(bank, Target(r), at, k);
  }

  lemma Separate(bank: nat, r: nat, at: nat, k: nat)
    requires bank % STRIDE == 0 && r < STRIDE && at % STRIDE == 0 && k < STRIDE
    ensures bank + r == at + k <==> bank == at && r == k
  {
    assert (bank + r) % STRIDE == r && (at + k) % STRIDE == k;
  }

  /** What the guest reads at bit `b`: of an owned source only its own enable, elsewhere the hardware. */
  lemma ReadExact(s: State, p: Regs, bank: nat, r: nat, b: nat)
    requires Shaped(s) && bank % STRIDE == 0 && r < STRIDE
    ensures b in Read(s, p, bank + r)
       <==> if Owned(s, bank, b) && (Guarded(r) || r in {IER_SET, IER_CLR, FIR_SET, FIR_CLR})
            then r == IER && s.enabled[if Owns(s.owned[1], bank, b) then 1 else 0]
            else b in p(bank + r)
  {
    ShowAt(s.owned[0], s.enabled[0], bank, r, p(bank + r), b);
    ShowAt(s.owned[1], s.enabled[1], bank, r, Show(s.owned[0], s.enabled[0], bank + r, p(bank + r)), b);
  }

  lemma ShowAt(source: Option<nat>, enabled: bool, bank: nat, r: nat, v: Word, b: nat)
    requires source.Some? ==> source.value < SOURCES
    requires bank % STRIDE == 0 && r < STRIDE
    ensures b in Show(source, enabled, bank + r, v)
       <==> if Owns(source, bank, b) && (Guarded(r) || r in {IER_SET, IER_CLR, FIR_SET, FIR_CLR})
            then r == IER && enabled
            else b in v
  {
    if source.Some? { RegisterIs(source.value, bank, r); }
  }

  // ---- Runs ------------------------------------------------------------------------------------------------

  /** Takes the sources over: routed as interrupts and enabled in hardware. */
  function Initialize(s: State, p: Regs): Regs
    requires Shaped(s)
  {
    Route(s.owned[1], Route(s.owned[0], p))
  }

  function Route(source: Option<nat>, p: Regs): Regs {
    if source.None? then p
    else
      var bank, bit := Bank(source.value), source.value % 32;
      var q := Store(p, bank + CLASS, p(bank + CLASS) - {bit});
      Store(q, bank + IER_SET, {bit})
  }

  datatype Access = Access(offset: nat, size: nat, value: Word)

  predicate Legal(a: Access) { a.size == 4 && a.offset % 4 == 0 && a.offset < SIZE }

  /** The controller after the guest's writes, a refused one changing nothing. */
  function Run(s: State, p: Regs, log: seq<Access>): Pair
    requires Shaped(s)
    ensures Shaped(Run(s, p, log).state) && Run(s, p, log).state.owned == s.owned
    decreases log
  {
    if log == [] then Pair(s, p)
    else
      var before, a := Run(s, p, log[..|log| - 1]), log[|log| - 1];
      if Legal(a) then Write(before.state, before.regs, a.offset, a.value) else before
  }

  /** The same writes made to the hardware itself. */
  function DirectRun(p: Regs, log: seq<Access>): Regs {
    if log == [] then p
    else
      var before, a := DirectRun(p, log[..|log| - 1]), log[|log| - 1];
      if Legal(a) then Store(before, a.offset, a.value) else before
  }

  /** One of the writes goes to the register at `offset` itself. */
  ghost predicate StoresTo(log: seq<Access>, offset: nat) {
    exists n: nat :: n < |log| && Legal(log[n]) && log[n].offset == offset
  }

  lemma StoresToLast(log: seq<Access>, offset: nat)
    requires log != []
    ensures StoresTo(log, offset)
       <==> StoresTo(log[..|log| - 1], offset) || (Legal(log[|log| - 1]) && log[|log| - 1].offset == offset)
  {
    var front := log[..|log| - 1];
    if StoresTo(log, offset) {
      var n: nat :| n < |log| && Legal(log[n]) && log[n].offset == offset;
      if n < |front| { assert front[n] == log[n]; }
    }
    if StoresTo(front, offset) {
      var n: nat :| n < |front| && Legal(front[n]) && front[n].offset == offset;
      assert log[n] == front[n];
    }
  }

  /** A store settles each bit from that bit alone. */
  lemma StoreLocal(p: Regs, q: Regs, offset: nat, v: Word, k: nat, b: nat)
    requires b in p(k) <==> b in q(k)
    ensures b in Store(p, offset, v)(k) <==> b in Store(q, offset, v)(k)
  {
    var bank, r := offset - offset % STRIDE, offset % STRIDE;
    StoreAt(p, bank, r, v, k, b);
    StoreAt(q, bank, r, v, k, b);
  }

  /**
   Over every run of guest writes, a bit of an owned source survives exactly when no write went to that
   plain register itself, its class bit always; every other bit is that of the same run made directly.
   */
  lemma {:induction false} RunExact(s: State, p: Regs, log: seq<Access>, at: nat, k: nat, b: nat)
    requires Shaped(s) && at % STRIDE == 0 && k < STRIDE
    ensures b in Run(s, p, log).regs(at + k)
       <==> if Owned(s, at, b) && Guarded(k)
            then b in p(at + k) && !(k != CLASS && StoresTo(log, at + k))
            else b in DirectRun(p, log)(at + k)
    decreases log
  {
    if log != [] {
      var front, a := log[..|log| - 1], log[|log| - 1];
      var before := Run(s, p, front);
      RunExact(s, p, front, at, k, b);
      StoresToLast(log, at + k);
      if Legal(a) {
        var bank, r := a.offset - a.offset % STRIDE, a.offset % STRIDE;
        WriteExact(before.state, before.regs, bank, r, a.value, at, k, b);
        Separate(bank, r, at, k);
        if !(Owned(s, at, b) && Guarded(k)) {
          StoreLocal(before.regs, DirectRun(p, front), a.offset, a.value, at + k, b);
        }
      }
    }
  }

  lemma BankAligned(source: nat)
    ensures Bank(source) % STRIDE == 0
  {
  }

  lemma RouteAt(source: nat, p: Regs, at: nat, k: nat, b: nat)
    requires source < SOURCES && at % STRIDE == 0 && k < STRIDE
    ensures b in Route(Some(source), p)(at + k)
       <==> if Owns(Some(source), at, b) && k in {CLASS, IER} then k == IER else b in p(at + k)
  {
    var bank, bit := Bank(source), source % 32;
    var q := Store(p, bank + CLASS, p(bank + CLASS) - {bit});
    BankAligned(source);
    StoreAt(p, bank, CLASS, p(bank + CLASS) - {bit}, at + k, b);
    StoreAt(q, bank, IER_SET, {bit}, at + k, b);
    Separate(bank, CLASS, at, k);
    Separate(bank, IER, at, k);
  }

  lemma InitializeAt(s: State, p: Regs, at: nat, k: nat, b: nat)
    requires Shaped(s) && at % STRIDE == 0 && k < STRIDE
    ensures b in Initialize(s, p)(at + k)
       <==> if Owned(s, at, b) && k in {CLASS, IER} then k == IER else b in p(at + k)
  {
    if s.owned[0].Some? { RouteAt(s.owned[0].value, p, at, k, b); }
    if s.owned[1].Some? { RouteAt(s.owned[1].value, Route(s.owned[0], p), at, k, b); }
  }

  /**
   Once taken over, an owned source is an interrupt whatever the guest writes, and it stays enabled
   exactly as long as the guest never stores to its bank's enable register itself.
   */
  lemma {:induction false} StaysRouted(s: State, p: Regs, log: seq<Access>, source: nat)
    requires Shaped(s) && Some(source) in s.owned
    ensures source % 32 !in Run(s, Initialize(s, p), log).regs(Bank(source) + CLASS)
    ensures source % 32 in Run(s, Initialize(s, p), log).regs(Bank(source) + IER)
       <==> !StoresTo(log, Bank(source) + IER)
  {
    var q, at, b := Initialize(s, p), Bank(source), source % 32;
    BankAligned(source);
    assert Owned(s, at, b);
    InitializeAt(s, p, at, CLASS, b);
    InitializeAt(s, p, at, IER, b);
    RunExact(s, q, log, at, CLASS, b);
    RunExact(s, q, log, at, IER, b);
  }

  /** The guest's enable is its own: the second source's too, unless both are the same source. */
  lemma EnableExact(s: State, p: Regs, bank: nat, r: nat, v: Word)
    requires Shaped(s) && bank % STRIDE == 0 && r < STRIDE
    ensures Write(s, p, bank + r, v).state.enabled[0] == Enable(s.owned[0], s.enabled[0], bank + r, v)
    ensures Write(s, p, bank + r, v).state.enabled[1]
         == if s.owned[0] == s.owned[1] then s.enabled[1] else Enable(s.owned[1], s.enabled[1], bank + r, v)
  {
    if s.owned[1].Some? {
      var source := s.owned[1].value;
      RegisterIs(source, bank, r);
      FilterAt(s.owned[0], p(bank + r), bank, r, v, source % 32);
      assert source == Bank(source) / STRIDE * 32 + source % 32;
    }
    if s.owned[0].Some? {
      var other := s.owned[0].value;
      assert other == Bank(other) / STRIDE * 32 + other % 32;
    }
  }

  function EnableRun(source: Option<nat>, enabled: bool, log: seq<Access>): bool {
    if log == [] then enabled
    else
      var before, a := EnableRun(source, enabled, log[..|log| - 1]), log[|log| - 1];
      if Legal(a) then Enable(source, before, a.offset, a.value) else before
  }

  lemma {:induction false} RunShadows(s: State, p: Regs, log: seq<Access>)
    requires Shaped(s)
    ensures Run(s, p, log).state.enabled[0] == EnableRun(s.owned[0], s.enabled[0], log)
    ensures Run(s, p, log).state.enabled[1]
         == if s.owned[0] == s.owned[1] then s.enabled[1] else EnableRun(s.owned[1], s.enabled[1], log)
    decreases log
  {
    if log != [] {
      var front, a := log[..|log| - 1], log[|log| - 1];
      var before := Run(s, p, front);
      RunShadows(s, p, front);
      if Legal(a) {
        EnableExact(before.state, before.regs, a.offset - a.offset % STRIDE, a.offset % STRIDE, a.value);
      }
    }
  }

  /** The second source's enable follows the guest's writes exactly when it is not the first one again. */
  lemma SecondFollows(s: State, p: Regs)
    requires Shaped(s) && s.owned[1].Some?
    ensures (forall log :: Run(s, p, log).state.enabled[1] == EnableRun(s.owned[1], s.enabled[1], log))
       <==> s.owned[0] != s.owned[1]
  {
    forall log | s.owned[0] != s.owned[1]
      ensures Run(s, p, log).state.enabled[1] == EnableRun(s.owned[1], s.enabled[1], log)
    {
      RunShadows(s, p, log);
    }
    if s.owned[0] == s.owned[1] {
      var source := s.owned[1].value;
      var r := if s.enabled[1] then IER_CLR else IER_SET;
      var a := Access(Bank(source) + r, 4, {source % 32});
      RegisterIs(source, Bank(source), r);
      RunShadows(s, p, [a]);
      assert [a][..0] == [];
      assert Legal(a);
      assert EnableRun(s.owned[1], s.enabled[1], []) == s.enabled[1];
      assert EnableRun(s.owned[1], s.enabled[1], [a]) != s.enabled[1];
    }
  }

  // ---- The controller as the hypervisor keeps it ---------------------------------------------------------

  class Device {
    var owned: seq<Option<nat>>
    var enabled: seq<bool>
    /** The hardware's registers. */
    var regs: Regs

    ghost function Shadow(): State
      reads this
    {
      State(owned, enabled)
    }

    ghost predicate Valid()
      reads this
    {
      Shaped(Shadow())
    }

    constructor (hardware: Regs)
      ensures Valid() && regs == hardware && owned == [None, None] && enabled == [false, false]
    {
      owned := [None, None];
      enabled := [false, false];
      regs := hardware;
    }

    method SetSource(i: nat, source: Option<nat>)
      requires Valid() && i < 2
      modifies this`owned, this`enabled
      ensures Valid() && enabled == old(enabled)[i := false]
      ensures owned == old(owned)[i := if source.Some? && source.value < SOURCES then source else None]
    {
      owned := owned[i := if source.Some? && source.value < SOURCES then source else None];
      enabled := enabled[i := false];
    }

    method TakeOver()
      requires Valid()
      modifies this`regs
      ensures regs == Initialize(Shadow(), old(regs))
    {
      for i := 0 to 2
        invariant Valid()
        invariant regs == if i == 0 then old(regs)
          else if i == 1 then Route(owned[0], old(regs))
          else Route(owned[1], Route(owned[0], old(regs)))
      {
        if owned[i].Some? {
          var bank, bit := Bank(owned[i].value), owned[i].value % 32;
          regs := Store(regs, bank + CLASS, regs(bank + CLASS) - {bit});
          regs := Store(regs, bank + IER_SET, {bit});
        }
      }
    }

    method ReadWord(offset: nat) returns (v: Word)
      requires Valid()
      ensures v == Read(Shadow(), regs, offset)
    {
      v := regs(offset);
      for i := 0 to 2
        invariant Valid()
        invariant v == if i == 0 then regs(offset)
          else if i == 1 then Show(owned[0], enabled[0], offset, regs(offset))
          else Read(Shadow(), regs, offset)
      {
        if owned[i].Some? {
          var register, bit := Register(owned[i].value, offset), owned[i].value % 32;
          if register.Some? {
            if Plain(register.value) || register.value in {IER_SET, IER_CLR, CLASS} { v := v - {bit}; }
            if register.value == IER && enabled[i] { v := v + {bit}; }
          }
        }
      }
    }

    /** One source's turn with the word on its way to the hardware. */
    method Take(i: nat, offset: nat, v: Word) returns (w: Word)
      requires Valid() && i < 2
      modifies this`enabled
      ensures Valid() && w == Filter(owned[i], regs(offset), offset, v)
      ensures enabled == old(enabled)[i := Enable(owned[i], old(enabled)[i], offset, v)]
    {
      w := v;
      if owned[i].Some? {
        var register, bit := Register(owned[i].value, offset), owned[i].value % 32;
        if register == Some(IER_SET) {
          enabled := enabled[i := enabled[i] || bit in w];
          w := w - {bit};
        } else if register == Some(IER_CLR) {
          enabled := enabled[i := enabled[i] && bit !in w];
          w := w - {bit};
        } else if register == Some(CLASS) {
          w := w - {bit} + (regs(offset) * {bit});
        } else if register.Some? && Plain(register.value) {
          w := w - {bit};
        }
      }
    }

    method WriteWord(offset: nat, value: Word)
      requires Valid()
      modifies this`enabled, this`regs
      ensures Valid() && Pair(Shadow(), regs) == Write(old(Shadow()), old(regs), offset, value)
    {
      ghost var before := Shadow();
      ghost var first := Filter(owned[0], regs(offset), offset, value);
      var v := value;
      for i := 0 to 2
        invariant Valid() && owned == before.owned && regs == old(regs)
        invariant v == if i == 0 then value else if i == 1 then first else Passed(before, old(regs), offset, value)
        invariant enabled == if i == 0 then before.enabled
          else if i == 1 then before.enabled[0 := Enable(owned[0], before.enabled[0], offset, value)]
          else [Enable(owned[0], before.enabled[0], offset, value), Enable(owned[1], before.enabled[1], offset, first)]
      {
        v := Take(i, offset, v);
      }
      regs := Store(regs, offset, v);
    }

    method GuestWrite(a: Access) returns (ok: bool)
      requires Valid()
      modifies this`enabled, this`regs
      ensures Valid() && ok == Legal(a)
      ensures Pair(Shadow(), regs) == Run(old(Shadow()), old(regs), [a])
    {
      ghost var s, p := Shadow(), regs;
      assert [a][..0] == [];
      assert Run(s, p, []) == Pair(s, p);
      ok := Legal(a);
      if ok { WriteWord(a.offset, a.value); }
    }
  }
}
