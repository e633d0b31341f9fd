/**
 The virtual distributor as the hypervisor keeps it: shadow fields beside the hardware, read and
 written word by word.
 */
module DistributorDriver {
  import opened Types
  import opened Distributor

  class Device {
    var control: bool
    var owned: seq<nat>
    var enabled: seq<bool>
    var priority: seq<Word>
    /** The hardware's registers. */
    var bits: Bits

    ghost function Shadow(): State
      reads this
    {
      State(control, owned, enabled, priority)
    }

    ghost predicate Valid()
      reads this
    {
      Shaped(Shadow())
    }

    constructor (hardware: Bits)
      ensures Valid() && bits == hardware
      ensures Shadow() == State(false, [1023, 1023], [false, false], [{5, 7}, {5, 7}])
    {
      control := false;
      owned := [SPURIOUS, SPURIOUS];
      enabled := [false, false];
      priority := [DEFAULT_PRIORITY, DEFAULT_PRIORITY];
      bits := hardware;
    }

    /** Takes over an interrupt; one that is not a shared peripheral's is none. */
    method SetInterrupt(i: nat, interrupt: Option<nat>)
      requires Valid() && i < 2
      modifies this
      ensures Valid() && control == old(control) && bits == old(bits)
      ensures owned
           == old(owned)[i := if interrupt.Some? && 32 <= interrupt.value < LAST then interrupt.value else SPURIOUS]
      ensures enabled == old(enabled)[i := false] && priority == old(priority)[i := {5, 7}]
    {
      var id := SPURIOUS;
      if interrupt.Some? && 32 <= interrupt.value < LAST { id := interrupt.value; }
      owned := owned[i := id];
      enabled := enabled[i := false];
      priority := priority[i := DEFAULT_PRIORITY];
    }

    /** Shows the guest the hardware's own setting, then turns the physical group on. */
    method Initialize()
      requires Valid()
      modifies this`control, this`bits
      ensures Valid() && control == old(bits)(0)
      ensures bits(0) && forall g: nat :: g >= 32 ==> bits(g) == old(bits)(g)
    {
      var word := ReadWord(bits, CTLR);
      control := 0 in word;
      bits := WriteWord(bits, CTLR, {0});
    }

    method Note(i: nat, word: nat, lanes: Word, w: Word)
      requires Valid() && i < 2
      modifies this`enabled, this`priority
      ensures Valid()
      ensures enabled == old(enabled)[i := EnabledAfter(old(Shadow()), i, word, w)]
      ensures priority == old(priority)[i := PriorityAfter(old(Shadow()), i, word, lanes, w)]
    {
      var id := owned[i];
      if w * BitMask(id, word, ISENABLER) != {} { enabled := enabled[i := true]; }
      if w * BitMask(id, word, ICENABLER) != {} { enabled := enabled[i := false]; }
      if ByteMask(id, word, IPRIORITYR) * lanes != {} {
        priority := priority[i := set k: nat | k in Span(3, 5) && Shifted(w, id % 4 * 8, k)];
      }
    }

    method Write(offset: nat, size: nat, value: Word) returns (ok: bool)
      requires Valid()
      modifies this
      ensures Valid() && ok == Legal(offset, size)
      ensures ok ==> Done(Shadow(), bits) == Distributor.Write(old(Shadow()), old(bits), offset, size, value)
      ensures !ok ==> Shadow() == old(Shadow()) && bits == old(bits)
    {
      if !(size in {1, 2, 4} && offset % 4 + size <= 4) { return false; }
      var word, lanes, w := Base(offset), Lanes(offset, size), Placed(offset, size, value);
      NoteBoth(word, lanes, w);
      if word == CTLR {
        if 0 in lanes { control := 0 in w; }
        bits := WriteWord(bits, CTLR, {0});
      } else {
        GuardsTheSame(old(Shadow()), Shadow(), word);
        StoreGuarded(offset, size, value);
      }
      ok := true;
    }

    method NoteBoth(word: nat, lanes: Word, w: Word)
      requires Valid()
      modifies this`enabled, this`priority
      ensures Valid()
      ensures enabled == [EnabledAfter(old(Shadow()), 0, word, w), EnabledAfter(old(Shadow()), 1, word, w)]
      ensures priority
           == [PriorityAfter(old(Shadow()), 0, word, lanes, w), PriorityAfter(old(Shadow()), 1, word, lanes, w)]
    {
      ghost var before := Shadow();
      for i := 0 to 2
        invariant Valid()
        invariant forall k: nat :: k < i ==> enabled[k] == EnabledAfter(before, k, word, w)
        invariant forall k: nat :: k < i ==> priority[k] == PriorityAfter(before, k, word, lanes, w)
        invariant forall k: nat :: i <= k < 2 ==> enabled[k] == before.enabled[k] && priority[k] == before.priority[k]
      {
        Note(i, word, lanes, w);
      }
    }

    /** Everything but the protected bits of a word. */
    method StoreGuarded(offset: nat, size: nat, value: Word)
      requires Valid() && Legal(offset, size)
      modifies this`bits
      ensures bits == Stored(ProtectedMask(Shadow(), Base(offset)), old(bits), offset, size, value)
    {
      var word, w := Base(offset), Placed(offset, size, value);
      var guarded := ProtectedMask(State(control, owned, enabled, priority), word);
      if WriteOne(word) {
        bits := WriteWord(bits, word, w - guarded);
      } else {
        var current := ReadWord(bits, word);
        bits := WriteWord(bits, word, ((current - Lanes(offset, size)) + w - guarded) + current * guarded);
      }
    }

    method ReadBack(offset: nat, size: nat) returns (r: Option<Word>)
      requires Valid()
      ensures r == Distributor.Read(Shadow(), bits, offset, size)
    {
      if !(size in {1, 2, 4} && offset % 4 + size <= 4) { return None; }
      var word := Base(offset);
      var v := {};
      if word == CTLR {
        if control { v := {0}; }
      } else {
        v := GuestValue(word);
      }
      r := Some(Cut(v, offset, size));
    }

    method GuestValue(word: nat) returns (v: Word)
      requires Valid() && word != CTLR
      ensures v == GuestWord(Shadow(), bits, word)
    {
      var s := State(control, owned, enabled, priority);
      v := ReadWord(bits, word);
      if word in BANKS && word != IGROUPR { v := v - {MAINTENANCE}; }
      var action := ActionMask(s, word);
      if action != {} {
        v := v - action;
        var without := v;
        for i := 0 to 2
          invariant Valid() && s == Shadow() && v == if i == 0 then without
            else if i == 1 then without + Enables(s, 0, word)
            else without + Enables(s, 0, word) + Enables(s, 1, word)
        {
          v := v + Enables(s, i, word);
        }
      }
      var beside := v;
      for i := 0 to 2
        invariant Valid() && s == Shadow() && v == if i == 0 then beside
          else if i == 1 then Priority(s, 0, word, beside)
          else Priority(s, 1, word, Priority(s, 0, word, beside))
      {
        v := Priority(s, i, word, v);
      }
    }
  }

  /** The guard looks only at which interrupts are owned. */
  lemma GuardsTheSame(s: State, t: State, word: nat)
    requires Shaped(s) && Shaped(t) && s.owned == t.owned
    ensures ProtectedMask(s, word) == ProtectedMask(t, word)
  {
    ActionsTheSame(s, t, word, 0);
  }

  lemma {:induction false} ActionsTheSame(s: State, t: State, word: nat, j: nat)
    requires Shaped(s) && Shaped(t) && s.owned == t.owned && j <= |BANKS|
    ensures ActionFrom(s, word, j) == ActionFrom(t, word, j)
    decreases |BANKS| - j
  {
    if j < |BANKS| { ActionsTheSame(s, t, word, j + 1); }
  }
}
