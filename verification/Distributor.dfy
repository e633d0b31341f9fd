/**
 The guest's view of the GIC distributor. A register word is the set of its one bits; the whole
 register file is one row of bits, so that bit `i` of the word at byte `o` is bit `8 * o + i`, and an
 interrupt's fields lie at fixed distances from its number.
 */
module Distributor {
  import opened Types

  const CTLR := 0x000
  const IGROUPR := 0x080
  const ISENABLER := 0x100
  const ICENABLER := 0x180
  const ISPENDR := 0x200
  const ICPENDR := 0x280
  const ISACTIVER := 0x300
  const ICACTIVER := 0x380
  const IPRIORITYR := 0x400
  const ITARGETSR := 0x800
  const ICFGR := 0xc00
  const CPENDSGIR := 0xf10
  const SPENDSGIR := 0xf20
  const MAINTENANCE := 25
  const SPURIOUS := 1023
  const LAST := 1020

  type Word = set<nat>

  /** Priority 0xa0. */
  const DEFAULT_PRIORITY: Word := {5, 7}

  datatype State = State(control: bool, owned: seq<nat>, enabled: seq<bool>, priority: seq<Word>)

  predicate Shaped(s: State) {
    && |s.owned| == 2 && |s.enabled| == 2 && |s.priority| == 2
    && forall i: nat :: i < 2 ==> 32 <= s.owned[i] < LAST || s.owned[i] == SPURIOUS
  }

  // ---- Masks, word by word ------------------------------------------------------------------------

  function Span(from: nat, n: nat): Word { set i: nat | i < from + n && Within(i, from, n) }

  predicate Within(i: nat, from: nat, n: nat) { from <= i < from + n }

  /** The bit of `id` in a bank with one bit an interrupt. */
  function BitMask(id: nat, offset: nat, base: nat): Word {
    if id < LAST && offset == base + id / 32 * 4 then {id % 32} else {}
  }

  function ByteMask(id: nat, offset: nat, base: nat): Word {
    if id < LAST && offset == base + id / 4 * 4 then Span(id % 4 * 8, 8) else {}
  }

  function ConfigMask(id: nat, offset: nat): Word {
    if id < LAST && offset == ICFGR + id / 16 * 4 then Span(id % 16 * 2, 2) else {}
  }

  function OwnedBits(s: State, offset: nat, base: nat): Word
    requires Shaped(s)
  {
    BitMask(s.owned[0], offset, base) + BitMask(s.owned[1], offset, base)
  }

  const BANKS: seq<nat> := [IGROUPR, ISENABLER, ICENABLER, ISPENDR, ICPENDR, ISACTIVER, ICACTIVER]

  /** The first bank from `i` on in which an owned interrupt has a bit at this offset. */
  function ActionFrom(s: State, offset: nat, i: nat): Word
    requires Shaped(s) && i <= |BANKS|
    decreases |BANKS| - i
  {
    if i == |BANKS| then {}
    else if OwnedBits(s, offset, BANKS[i]) != {} then OwnedBits(s, offset, BANKS[i])
    else ActionFrom(s, offset, i + 1)
  }

  function ActionMask(s: State, offset: nat): Word
    requires Shaped(s)
  {
    ActionFrom(s, offset, 0)
  }

  function MaintenanceMask(offset: nat): Word {
    if offset in BANKS then {MAINTENANCE}
    else if offset == IPRIORITYR + 24 then Span(8, 8)
    else if offset == ICFGR + 4 then Span(18, 2)
    else {}
  }

  function ProtectedMask(s: State, offset: nat): Word
    requires Shaped(s)
  {
    MaintenanceMask(offset) + ActionMask(s, offset)
    + (ByteMask(s.owned[0], offset, IPRIORITYR) + ByteMask(s.owned[1], offset, IPRIORITYR))
    + (ByteMask(s.owned[0], offset, ITARGETSR) + ByteMask(s.owned[1], offset, ITARGETSR))
    + (ConfigMask(s.owned[0], offset) + ConfigMask(s.owned[1], offset))
  }

  predicate WriteOne(offset: nat) { ISENABLER <= offset < IPRIORITYR || CPENDSGIR <= offset < 0xf30 }

  // ---- The hardware --------------------------------------------------------------------------------

  /** The physical state, bit by bit; a clear register shows the bits of its set register. */
  type Bits = nat -> bool

  /** How far below its set register's bits a clear register's lie; none for other registers. */
  predicate Clears(offset: nat) {
    || ICENABLER <= offset < ISPENDR || ICPENDR <= offset < ISACTIVER || ICACTIVER <= offset < IPRIORITYR
    || CPENDSGIR <= offset < SPENDSGIR
  }

  /** The physical bit behind bit `g` of the register file. */
  function Behind(g: nat): nat {
    if CPENDSGIR * 8 <= g < SPENDSGIR * 8 then g + 0x80
    else if Clears(g / 8) && g >= 0x400 then g - 0x400
    else g
  }

  function ReadWord(p: Bits, offset: nat): Word { set i | i in Span(0, 32) && p(Behind(8 * offset + i)) }

  /** A word written to the hardware. */
  function WriteWord(p: Bits, offset: nat, v: Word): Bits {
    (g: nat) =>
      if Clears(offset) then p(g) && !(exists i :: i in v && i < 32 && Behind(8 * offset + i) == g)
      else if WriteOne(offset) then p(g) || (8 * offset <= g < 8 * offset + 32 && g - 8 * offset in v)
      else if 8 * offset <= g < 8 * offset + 32 then g - 8 * offset in v
      else p(g)
  }

  // ---- Guest accesses ----------------------------------------------------------------------------------

  predicate Legal(offset: nat, size: nat) { size in {1, 2, 4} && offset % 4 + size <= 4 }

  function Base(offset: nat): nat { offset / 4 * 4 }

  /** The byte lanes an access covers in its word. */
  function Lanes(offset: nat, size: nat): Word { Span(offset % 4 * 8, 8 * size) }

  /** The value in its lanes. */
  function Placed(offset: nat, size: nat, value: Word): (w: Word)
    ensures forall i: nat :: i in w <==> i in Lanes(offset, size) && i >= offset % 4 * 8 && i - offset % 4 * 8 in value
  {
    set i | i in Lanes(offset, size) && i >= offset % 4 * 8 && i - offset % 4 * 8 in value
  }

  function EnabledAfter(s: State, i: nat, word: nat, w: Word): bool
    requires Shaped(s) && i < 2
  {
    var set0 := s.enabled[i] || w * BitMask(s.owned[i], word, ISENABLER) != {};
    set0 && w * BitMask(s.owned[i], word, ICENABLER) == {}
  }

  /** The five implemented bits of a written priority byte. */
  function PriorityAfter(s: State, i: nat, word: nat, lanes: Word, w: Word): Word
    requires Shaped(s) && i < 2
  {
    if ByteMask(s.owned[i], word, IPRIORITYR) * lanes != {}
    then set k: nat | k in Span(3, 5) && Shifted(w, s.owned[i] % 4 * 8, k)
    else s.priority[i]
  }

  /** Read, merge, write back. */
  function Merged(guarded: Word, p: Bits, offset: nat, size: nat, value: Word): Word {
    var current := ReadWord(p, Base(offset));
    ((current - Lanes(offset, size)) + Placed(offset, size, value) - guarded) + current * guarded
  }

  /** The bits a write leaves, the guard left open. */
  function Stored(guarded: Word, p: Bits, offset: nat, size: nat, value: Word): Bits {
    if WriteOne(Base(offset)) then WriteWord(p, Base(offset), Placed(offset, size, value) - guarded)
    else WriteWord(p, Base(offset), Merged(guarded, p, offset, size, value))
  }

  datatype Result = Done(state: State, bits: Bits) | AccessSize

  /** Bit `k` of `w` shifted right. */
  predicate Shifted(w: Word, shift: nat, k: nat) { k + shift in w }

  /** What the guest has asked of its own interrupts. */
  function Noted(s: State, offset: nat, size: nat, value: Word): State
    requires Shaped(s)
  {
    var word, lanes, w := Base(offset), Lanes(offset, size), Placed(offset, size, value);
    s.(enabled := [EnabledAfter(s, 0, word, w), EnabledAfter(s, 1, word, w)],
       priority := [PriorityAfter(s, 0, word, lanes, w), PriorityAfter(s, 1, word, lanes, w)],
       control := if word == CTLR && 0 in lanes then 0 in w else s.control)
  }

  function Write(s: State, p: Bits, offset: nat, size: nat, value: Word): Result
    requires Shaped(s)
  {
    if !Legal(offset, size) then AccessSize
    else if Base(offset) == CTLR then Done(Noted(s, offset, size, value), WriteWord(p, CTLR, {0}))
    else
      Done(Noted(s, offset, size, value), Stored(ProtectedMask(s, Base(offset)), p, offset, size, value))
  }

  /** The hardware's word with the maintenance interrupt taken out. */
  function Unmaintained(p: Bits, offset: nat): Word {
    var v := ReadWord(p, offset);
    if offset in BANKS && offset != IGROUPR then v - {MAINTENANCE} else v
  }

  /** The owned bits of a bank replaced by the guest's enables. */
  function Acted(s: State, action: Word, offset: nat, v: Word): Word
    requires Shaped(s)
  {
    if action == {} then v else v - action + Enables(s, 0, offset) + Enables(s, 1, offset)
  }

  function GuestWord(s: State, p: Bits, offset: nat): Word
    requires Shaped(s)
  {
    if offset == CTLR then if s.control then {0} else {}
    else
      var v := Acted(s, ActionMask(s, offset), offset, Unmaintained(p, offset));
      Priority(s, 1, offset, Priority(s, 0, offset, v))
  }

  function Enables(s: State, i: nat, offset: nat): Word
    requires Shaped(s) && i < 2
  {
    if s.enabled[i] then BitMask(s.owned[i], offset, ISENABLER) + BitMask(s.owned[i], offset, ICENABLER) else {}
  }

  function Priority(s: State, i: nat, offset: nat, v: Word): Word
    requires Shaped(s) && i < 2
  {
    var lane := ByteMask(s.owned[i], offset, IPRIORITYR);
    if lane == {} then v
    else v - lane + set k | k in lane && k - s.owned[i] % 4 * 8 in s.priority[i]
  }

  // ---- One interrupt at a time ----------------------------------------------------------------------------

  /** The access gives bit `g` of the register file a one. */
  predicate Given(offset: nat, size: nat, value: Word, g: nat) { Covers(offset, size, g) && g - 8 * offset in value }

  predicate Covers(offset: nat, size: nat, g: nat) { 8 * offset <= g < 8 * (offset + size) }

  /** The fields of `id` that EL2 keeps to itself; the maintenance interrupt has no target to keep. */
  predicate FieldOf(id: nat, targets: bool, g: nat) {
    || BankBit(id, g)
    || 8 * (IPRIORITYR + id) <= g < 8 * (IPRIORITYR + id) + 8
    || (targets && 8 * (ITARGETSR + id) <= g < 8 * (ITARGETSR + id) + 8)
    || 8 * ICFGR + 2 * id <= g < 8 * ICFGR + 2 * id + 2
  }

  /** The group, enable, pending and active bits of `id`. */
  predicate BankBit(id: nat, g: nat) {
    || g == 8 * IGROUPR + id || g == 8 * ISENABLER + id || g == 8 * ISPENDR + id || g == 8 * ISACTIVER + id
  }

  predicate Shielded(s: State, g: nat)
    requires Shaped(s)
  {
    || FieldOf(MAINTENANCE, false, g)
    || ShieldedBy(s.owned[0], g) || ShieldedBy(s.owned[1], g)
  }

  /** The same access made to the hardware itself. */
  function Direct(p: Bits, offset: nat, size: nat, value: Word): Bits {
    (g: nat) =>
      if Clears(Base(offset)) then p(g) && !(exists h :: h in Aliases(g) && Given(offset, size, value, h))
      else if WriteOne(Base(offset)) then p(g) || Given(offset, size, value, g)
      else if Covers(offset, size, g) then Given(offset, size, value, g)
      else p(g)
  }

  /** The clear-register bits that stand for bit `g`. */
  function Aliases(g: nat): (a: set<nat>)
    ensures forall h :: h in a ==> h == g + 0x400 || h == g - 0x80
  {
    (if Behind(g + 0x400) == g then {g + 0x400} else {})
    + (if g >= 0x80 && Behind(g - 0x80) == g then {g - 0x80} else {})
  }

  lemma BitAt(id: nat, offset: nat, base: nat, i: nat)
    requires id < LAST && offset % 4 == 0 && base % 4 == 0 && i < 32
    ensures i in BitMask(id, offset, base) <==> 8 * offset + i == 8 * base + id
  {
    assert id == 32 * (id / 32) + id % 32;
  }

  lemma ByteAt(id: nat, offset: nat, base: nat, i: nat)
    requires id < LAST && offset % 4 == 0 && base % 4 == 0 && i < 32
    ensures i in ByteMask(id, offset, base) <==> 8 * (base + id) <= 8 * offset + i < 8 * (base + id) + 8
  {
    assert id == 4 * (id / 4) + id % 4;
  }

  lemma ConfigAt(id: nat, offset: nat, i: nat)
    requires id < LAST && offset % 4 == 0 && i < 32
    ensures i in ConfigMask(id, offset) <==> 8 * ICFGR + 2 * id <= 8 * offset + i < 8 * ICFGR + 2 * id + 2
  {
    assert id == 16 * (id / 16) + id % 16;
  }

  /** Interrupt `id`'s bit in a bank starting at `base`, seen from bit `i` of the word at `offset`. */
  predicate IsBit(id: nat, base: nat, offset: nat, i: nat) { id < LAST && 8 * offset + i == 8 * base + id }

  lemma OwnedAt(s: State, offset: nat, base: nat, i: nat)
    requires Shaped(s) && offset % 4 == 0 && base in BANKS && i < 32
    ensures i in OwnedBits(s, offset, base)
       <==> IsBit(s.owned[0], base, offset, i) || IsBit(s.owned[1], base, offset, i)
  {
    if s.owned[0] < LAST { BitAt(s.owned[0], offset, base, i); }
    if s.owned[1] < LAST { BitAt(s.owned[1], offset, base, i); }
  }

  /** An owned interrupt has a bit in a word of a bank only inside that bank. */
  lemma OwnedInside(s: State, offset: nat, base: nat)
    requires Shaped(s) && OwnedBits(s, offset, base) != {}
    ensures base <= offset < base + 0x80
  {
  }

  /** Bit `g` of the register file belongs to `id` in a bank from the `j`th on. */
  predicate InBanksFrom(id: nat, g: nat, j: nat)
    requires j <= |BANKS|
    decreases |BANKS| - j
  {
    j < |BANKS| && (g == 8 * BANKS[j] + id || InBanksFrom(id, g, j + 1))
  }

  lemma {:induction false} BanksAbove(id: nat, g: nat, j: nat)
    requires j <= |BANKS|
    requires InBanksFrom(id, g, j)
    ensures exists k: nat :: j <= k < |BANKS| && g == 8 * BANKS[k] + id
    decreases |BANKS| - j
  {
    if g != 8 * BANKS[j] + id { BanksAbove(id, g, j + 1); }
  }

  /** Once a bank holds an owned interrupt at this offset, no later one does. */
  lemma BanksApart(s: State, offset: nat, j: nat, id: nat, i: nat)
    requires Shaped(s) && j < |BANKS| && OwnedBits(s, offset, BANKS[j]) != {} && id < LAST && offset % 4 == 0 && i < 32
    ensures !InBanksFrom(id, 8 * offset + i, j + 1)
  {
    OwnedInside(s, offset, BANKS[j]);
    if InBanksFrom(id, 8 * offset + i, j + 1) {
      BanksAbove(id, 8 * offset + i, j + 1);
    }
  }

  ghost predicate Held(s: State, g: nat, j: nat)
    requires Shaped(s) && j <= |BANKS|
  {
    || (s.owned[0] < LAST && InBanksFrom(s.owned[0], g, j))
    || (s.owned[1] < LAST && InBanksFrom(s.owned[1], g, j))
  }

  lemma {:induction false} ActionExact(s: State, offset: nat, j: nat, i: nat)
    requires Shaped(s) && offset % 4 == 0 && j <= |BANKS| && i < 32
    ensures i in ActionFrom(s, offset, j) <==> Held(s, 8 * offset + i, j)
    decreases |BANKS| - j
  {
    if j < |BANKS| {
      OwnedAt(s, offset, BANKS[j], i);
      if OwnedBits(s, offset, BANKS[j]) != {} {
        if s.owned[0] < LAST { BanksApart(s, offset, j, s.owned[0], i); }
        if s.owned[1] < LAST { BanksApart(s, offset, j, s.owned[1], i); }
      } else {
        ActionExact(s, offset, j + 1, i);
      }
    }
  }

  /** Bit `g` of the register file belongs to `id` in one of the seven banks. */
  predicate InBanks(id: nat, g: nat) {
    || g == 8 * IGROUPR + id || g == 8 * ISENABLER + id || g == 8 * ICENABLER + id || g == 8 * ISPENDR + id
    || g == 8 * ICPENDR + id || g == 8 * ISACTIVER + id || g == 8 * ICACTIVER + id
  }

  lemma BankBehind(id: nat, g: nat)
    requires id < LAST
    ensures InBanks(id, g) <==> BankBit(id, Behind(g))
  {
  }

  lemma AllBanks(id: nat, g: nat)
    ensures InBanksFrom(id, g, 0) <==> InBanks(id, g)
  {
    assert InBanksFrom(id, g, 6) <==> g == 8 * ICACTIVER + id;
    assert InBanksFrom(id, g, 5) <==> g == 8 * ISACTIVER + id || InBanksFrom(id, g, 6);
    assert InBanksFrom(id, g, 4) <==> g == 8 * ICPENDR + id || InBanksFrom(id, g, 5);
    assert InBanksFrom(id, g, 3) <==> g == 8 * ISPENDR + id || InBanksFrom(id, g, 4);
    assert InBanksFrom(id, g, 2) <==> g == 8 * ICENABLER + id || InBanksFrom(id, g, 3);
    assert InBanksFrom(id, g, 1) <==> g == 8 * ISENABLER + id || InBanksFrom(id, g, 2);
  }

  lemma ActionShield(s: State, offset: nat, i: nat)
    requires Shaped(s) && offset % 4 == 0 && i < 32
    ensures i in ActionMask(s, offset)
       <==> ((s.owned[0] < LAST && InBanks(s.owned[0], 8 * offset + i))
             || (s.owned[1] < LAST && InBanks(s.owned[1], 8 * offset + i)))
  {
    ActionExact(s, offset, 0, i);
    AllBanks(s.owned[0], 8 * offset + i);
    AllBanks(s.owned[1], 8 * offset + i);
  }

  lemma BankBases(offset: nat)
    ensures offset in BANKS
       <==> offset == IGROUPR || offset == ISENABLER || offset == ICENABLER || offset == ISPENDR || offset == ICPENDR
            || offset == ISACTIVER || offset == ICACTIVER
  {
    assert BANKS[0] == IGROUPR && BANKS[1] == ISENABLER && BANKS[2] == ICENABLER && BANKS[3] == ISPENDR;
    assert BANKS[4] == ICPENDR && BANKS[5] == ISACTIVER && BANKS[6] == ICACTIVER;
  }

  lemma MaintenanceShield(offset: nat, i: nat)
    requires offset % 4 == 0 && i < 32
    ensures i in MaintenanceMask(offset) <==> FieldOf(MAINTENANCE, false, Behind(8 * offset + i))
  {
    BankBases(offset);
    BankBehind(MAINTENANCE, 8 * offset + i);
  }

  /** The bits of an owned interrupt outside the seven banks. */
  predicate InFields(id: nat, g: nat) {
    || 8 * (IPRIORITYR + id) <= g < 8 * (IPRIORITYR + id) + 8
    || 8 * (ITARGETSR + id) <= g < 8 * (ITARGETSR + id) + 8
    || 8 * ICFGR + 2 * id <= g < 8 * ICFGR + 2 * id + 2
  }

  lemma FieldsBehind(id: nat, g: nat)
    requires id < LAST
    ensures InFields(id, g) || InBanks(id, g) <==> FieldOf(id, true, Behind(g))
  {
    BankBehind(id, g);
  }

  predicate InMasks(id: nat, offset: nat, i: nat) {
    i in ByteMask(id, offset, IPRIORITYR) || i in ByteMask(id, offset, ITARGETSR) || i in ConfigMask(id, offset)
  }

  lemma FieldsAt(id: nat, offset: nat, i: nat)
    requires id < LAST || id == SPURIOUS
    requires offset % 4 == 0 && i < 32
    ensures InMasks(id, offset, i) <==> id < LAST && InFields(id, 8 * offset + i)
  {
    if id < LAST {
      ByteAt(id, offset, IPRIORITYR, i);
      ByteAt(id, offset, ITARGETSR, i);
      ConfigAt(id, offset, i);
    }
  }

  /** An owned interrupt's share of the shield. */
  predicate ShieldedBy(id: nat, g: nat) { id < LAST && FieldOf(id, true, g) }

  predicate InAction(s: State, offset: nat, i: nat)
    requires Shaped(s)
  {
    i in ActionMask(s, offset)
  }

  lemma MaskParts(s: State, offset: nat, i: nat)
    requires Shaped(s)
    ensures i in ProtectedMask(s, offset)
       <==> (i in MaintenanceMask(offset) || InAction(s, offset, i)
             || InMasks(s.owned[0], offset, i) || InMasks(s.owned[1], offset, i))
  {
  }

  predicate HasBank(id: nat, g: nat) { id < LAST && InBanks(id, g) }

  lemma Share(id: nat, offset: nat, i: nat)
    requires id < LAST || id == SPURIOUS
    requires offset % 4 == 0 && i < 32
    ensures HasBank(id, 8 * offset + i) || InMasks(id, offset, i) <==> ShieldedBy(id, Behind(8 * offset + i))
  {
    FieldsAt(id, offset, i);
    if id < LAST { FieldsBehind(id, 8 * offset + i); }
  }

  lemma ActionShare(s: State, offset: nat, i: nat)
    requires Shaped(s) && offset % 4 == 0 && i < 32
    ensures InAction(s, offset, i) <==> HasBank(s.owned[0], 8 * offset + i) || HasBank(s.owned[1], 8 * offset + i)
  {
    ActionShield(s, offset, i);
  }

  /** The mask guards exactly the bits EL2 keeps to itself, whichever register shows them. */
  lemma ProtectedExact(s: State, offset: nat, i: nat)
    requires Shaped(s) && offset % 4 == 0 && i < 32
    ensures i in ProtectedMask(s, offset) <==> Shielded(s, Behind(8 * offset + i))
  {
    MaskParts(s, offset, i);
    MaintenanceShield(offset, i);
    ActionShare(s, offset, i);
    Share(s.owned[0], offset, i);
    Share(s.owned[1], offset, i);
  }

  // ---- What a write does ------------------------------------------------------------------------------------

  lemma PlacedAt(offset: nat, size: nat, value: Word, i: nat)
    requires Legal(offset, size)
    ensures i in Placed(offset, size, value) <==> Given(offset, size, value, 8 * Base(offset) + i)
    ensures i in Lanes(offset, size) <==> Covers(offset, size, 8 * Base(offset) + i)
    ensures i in Lanes(offset, size) ==> i < 32
  {
    assert offset == Base(offset) + offset % 4;
  }

  /** The mask `guarded` keeps the bits of a word that `shield` names. */
  ghost predicate Guards(guarded: Word, shield: Bits, offset: nat) {
    forall i: nat :: i < 32 ==> GuardAt(guarded, shield, offset, i)
  }

  predicate GuardAt(guarded: Word, shield: Bits, offset: nat, i: nat) {
    i in guarded <==> shield(Behind(8 * offset + i))
  }

  function Shield(s: State): Bits
    requires Shaped(s)
  {
    (g: nat) => Shielded(s, g)
  }

  lemma MaskGuardsAt(s: State, offset: nat, i: nat)
    requires Shaped(s) && offset % 4 == 0 && i < 32
    ensures GuardAt(ProtectedMask(s, offset), Shield(s), offset, i)
  {
    ProtectedExact(s, offset, i);
    assert Shield(s)(Behind(8 * offset + i)) == Shielded(s, Behind(8 * offset + i));
  }

  lemma MaskGuards(s: State, offset: nat)
    requires Shaped(s) && offset % 4 == 0
    ensures Guards(ProtectedMask(s, offset), Shield(s), offset)
  {
    forall i: nat | i < 32 ensures GuardAt(ProtectedMask(s, offset), Shield(s), offset, i) {
      MaskGuardsAt(s, offset, i);
    }
  }

  /** The guest's word, the guarded bits taken out, reaches bit `g` through a clear register. */
  ghost predicate Wiped(guarded: Word, offset: nat, size: nat, value: Word, g: nat)
    requires Legal(offset, size)
  {
    exists i :: WipedBy(guarded, offset, size, value, g, i)
  }

  ghost predicate WipedBy(guarded: Word, offset: nat, size: nat, value: Word, g: nat, i: nat)
    requires Legal(offset, size)
  {
    i in Placed(offset, size, value) - guarded && i < 32 && Behind(8 * Base(offset) + i) == g
  }

  lemma AliasOf(offset: nat, i: nat)
    requires offset % 4 == 0 && i < 32 && Clears(offset)
    ensures Behind(8 * offset + i) == if offset >= CPENDSGIR then 8 * offset + i + 0x80 else 8 * offset + i - 0x400
    ensures 8 * offset + i in Aliases(Behind(8 * offset + i))
  {
  }

  /** A bit of a clear register stands for the bit behind it. */
  lemma AliasFor(offset: nat, i: nat, g: nat)
    requires Clears(Base(offset)) && i < 32 && Behind(8 * Base(offset) + i) == g
    ensures 8 * Base(offset) + i in Aliases(g)
  {
    AliasOf(Base(offset), i);
  }

  lemma AliasesAre(g: nat, h: nat)
    requires h in Aliases(g)
    ensures Behind(h) == g
  {
  }

  /** The guest clears bit `g` through one of the registers that do so. */
  ghost predicate Cleared(offset: nat, size: nat, value: Word, g: nat) {
    exists h :: h in Aliases(g) && Given(offset, size, value, h)
  }

  lemma WipedIsCleared(guarded: Word, offset: nat, size: nat, value: Word, g: nat)
    requires Legal(offset, size) && Clears(Base(offset)) && Wiped(guarded, offset, size, value, g)
    ensures Cleared(offset, size, value, g)
  {
    var i :| WipedBy(guarded, offset, size, value, g, i);
    PlacedAt(offset, size, value, i);
    AliasFor(offset, i, g);
    ClearedBy(offset, size, value, g, 8 * Base(offset) + i);
  }

  lemma WipedIsOpen(guarded: Word, shield: Bits, offset: nat, size: nat, value: Word, g: nat)
    requires Legal(offset, size) && Guards(guarded, shield, Base(offset)) && Wiped(guarded, offset, size, value, g)
    ensures !shield(g)
  {
    var i :| WipedBy(guarded, offset, size, value, g, i);
    assert GuardAt(guarded, shield, Base(offset), i);
  }

  lemma ClearedBy(offset: nat, size: nat, value: Word, g: nat, h: nat)
    requires h in Aliases(g) && Given(offset, size, value, h)
    ensures Cleared(offset, size, value, g)
  {
  }

  lemma ClearedIsWiped(guarded: Word, shield: Bits, offset: nat, size: nat, value: Word, g: nat)
    requires Legal(offset, size) && Guards(guarded, shield, Base(offset))
    requires !shield(g) && Cleared(offset, size, value, g)
    ensures Wiped(guarded, offset, size, value, g)
  {
    var h :| h in Aliases(g) && Given(offset, size, value, h);
    assert 8 * Base(offset) <= h;
    var i := h - 8 * Base(offset);
    PlacedAt(offset, size, value, i);
    AliasesAre(g, h);
    assert GuardAt(guarded, shield, Base(offset), i);
    assert WipedBy(guarded, offset, size, value, g, i);
  }

  lemma ClearExact(guarded: Word, shield: Bits, p: Bits, offset: nat, size: nat, value: Word, g: nat)
    requires Legal(offset, size) && Guards(guarded, shield, Base(offset)) && Clears(Base(offset))
    ensures WriteWord(p, Base(offset), Placed(offset, size, value) - guarded)(g)
         == if shield(g) then p(g) else Direct(p, offset, size, value)(g)
  {
    assert Wiped(guarded, offset, size, value, g) <==> !shield(g) && Cleared(offset, size, value, g) by {
      if Wiped(guarded, offset, size, value, g) {
        WipedIsCleared(guarded, offset, size, value, g);
        WipedIsOpen(guarded, shield, offset, size, value, g);
      }
      if !shield(g) && Cleared(offset, size, value, g) { ClearedIsWiped(guarded, shield, offset, size, value, g); }
    }
    WriteWipes(guarded, p, offset, size, value, g);
    assert Direct(p, offset, size, value)(g) == (p(g) && !Cleared(offset, size, value, g));
  }

  lemma WriteWipes(guarded: Word, p: Bits, offset: nat, size: nat, value: Word, g: nat)
    requires Legal(offset, size) && Clears(Base(offset))
    ensures WriteWord(p, Base(offset), Placed(offset, size, value) - guarded)(g)
         == (p(g) && !Wiped(guarded, offset, size, value, g))
  {
    var v := Placed(offset, size, value) - guarded;
    assert forall i: nat :: WipedBy(guarded, offset, size, value, g, i)
                       <==> i in v && i < 32 && Behind(8 * Base(offset) + i) == g;
  }

  lemma PlainBehind(offset: nat, i: nat)
    requires offset % 4 == 0 && i < 32 && !Clears(offset)
    ensures Behind(8 * offset + i) == 8 * offset + i
  {
  }

  lemma CoversInside(offset: nat, size: nat, g: nat)
    requires Legal(offset, size) && Covers(offset, size, g)
    ensures 8 * Base(offset) <= g < 8 * Base(offset) + 32
  {
  }

  lemma SetExact(guarded: Word, shield: Bits, p: Bits, offset: nat, size: nat, value: Word, g: nat)
    requires Legal(offset, size) && Guards(guarded, shield, Base(offset))
    requires !Clears(Base(offset)) && WriteOne(Base(offset))
    ensures WriteWord(p, Base(offset), Placed(offset, size, value) - guarded)(g)
         == if shield(g) then p(g) else Direct(p, offset, size, value)(g)
  {
    assert Direct(p, offset, size, value)(g) == (p(g) || Given(offset, size, value, g));
    if 8 * Base(offset) <= g < 8 * Base(offset) + 32 {
      var i := g - 8 * Base(offset);
      PlacedAt(offset, size, value, i);
      PlainBehind(Base(offset), i);
      assert GuardAt(guarded, shield, Base(offset), i);
    } else if Given(offset, size, value, g) {
      CoversInside(offset, size, g);
    }
  }

  lemma MergedAt(guarded: Word, p: Bits, offset: nat, size: nat, value: Word, i: nat)
    requires Legal(offset, size) && i < 32
    ensures i in Merged(guarded, p, offset, size, value)
       <==> if i in guarded || i !in Lanes(offset, size)
            then p(Behind(8 * Base(offset) + i))
            else i in Placed(offset, size, value)
  {
    assert i in ReadWord(p, Base(offset)) <==> p(Behind(8 * Base(offset) + i));
  }

  lemma PlainExact(guarded: Word, shield: Bits, p: Bits, offset: nat, size: nat, value: Word, g: nat)
    requires Legal(offset, size) && Guards(guarded, shield, Base(offset)) && !WriteOne(Base(offset))
    ensures WriteWord(p, Base(offset), Merged(guarded, p, offset, size, value))(g)
         == if shield(g) then p(g) else Direct(p, offset, size, value)(g)
  {
    assert !Clears(Base(offset));
    if 8 * Base(offset) <= g < 8 * Base(offset) + 32 {
      var i := g - 8 * Base(offset);
      assert GuardAt(guarded, shield, Base(offset), i);
      PlainInside(guarded, p, offset, size, value, i);
      PlainBehind(Base(offset), i);
    } else if Covers(offset, size, g) {
      CoversInside(offset, size, g);
    }
  }

  lemma PlainInside(guarded: Word, p: Bits, offset: nat, size: nat, value: Word, i: nat)
    requires Legal(offset, size) && !WriteOne(Base(offset)) && !Clears(Base(offset)) && i < 32
    ensures i in Merged(guarded, p, offset, size, value)
       <==> if i in guarded then p(8 * Base(offset) + i) else Direct(p, offset, size, value)(8 * Base(offset) + i)
  {
    PlacedAt(offset, size, value, i);
    MergedAt(guarded, p, offset, size, value, i);
    PlainBehind(Base(offset), i);
  }

  lemma StoredExact(guarded: Word, shield: Bits, p: Bits, offset: nat, size: nat, value: Word, g: nat)
    requires Legal(offset, size) && Guards(guarded, shield, Base(offset))
    ensures Stored(guarded, p, offset, size, value)(g)
         == if shield(g) then p(g) else Direct(p, offset, size, value)(g)
  {
    if Clears(Base(offset)) {
      ClearExact(guarded, shield, p, offset, size, value, g);
    } else if WriteOne(Base(offset)) {
      SetExact(guarded, shield, p, offset, size, value, g);
    } else {
      PlainExact(guarded, shield, p, offset, size, value, g);
    }
  }

  /**
   A guest's write of any legal size outside the control word leaves every shielded bit alone and
   does to every other bit what the same access to the hardware would have done.
   */
  lemma WriteExact(s: State, p: Bits, offset: nat, size: nat, value: Word, g: nat)
    requires Shaped(s) && Legal(offset, size) && Base(offset) != CTLR
    ensures Write(s, p, offset, size, value).bits(g)
         == if Shielded(s, g) then p(g) else Direct(p, offset, size, value)(g)
  {
    MaskGuards(s, Base(offset));
    StoredExact(ProtectedMask(s, Base(offset)), Shield(s), p, offset, size, value, g);
    assert Shield(s)(g) == Shielded(s, g);
  }

  /** The control word: the hardware's group stays on, the guest's own bit is kept to one side. */
  lemma ControlExact(s: State, p: Bits, offset: nat, size: nat, value: Word, g: nat)
    requires Shaped(s) && Legal(offset, size) && Base(offset) == CTLR
    ensures Write(s, p, offset, size, value).bits(g) == if g < 32 then g == 0 else p(g)
    ensures Write(s, p, offset, size, value).state.control
         == if Covers(offset, size, 0) then Given(offset, size, value, 0) else s.control
  {
    PlacedAt(offset, size, value, 0);
  }

  // ---- What the guest is told ------------------------------------------------------------------------------

  /** The enable of interrupt `id` after an access, had it been the guest's own. */
  predicate EnableBy(id: nat, enabled: bool, offset: nat, size: nat, value: Word) {
    if id < LAST && Given(offset, size, value, 8 * ICENABLER + id) then false
    else enabled || (id < LAST && Given(offset, size, value, 8 * ISENABLER + id))
  }

  /** Its priority, of which five bits are implemented. */
  function PriorityBy(id: nat, priority: Word, offset: nat, size: nat, value: Word): Word {
    if id < LAST && Covers(offset, size, 8 * (IPRIORITYR + id))
    then set k: nat | k < 8 && ImplementedBit(id, offset, size, value, k)
    else priority
  }

  predicate ImplementedBit(id: nat, offset: nat, size: nat, value: Word, k: nat) {
    3 <= k && Given(offset, size, value, 8 * (IPRIORITYR + id) + k)
  }

  lemma MaskMeets(w: Word, id: nat, offset: nat, base: nat)
    ensures w * BitMask(id, offset, base) != {} <==> id < LAST && offset == base + id / 32 * 4 && id % 32 in w
  {
    if id < LAST && offset == base + id / 32 * 4 {
      if id % 32 in w { assert id % 32 in w * {id % 32}; }
    }
  }

  lemma MeetsGiven(id: nat, offset: nat, size: nat, value: Word, base: nat)
    requires Legal(offset, size) && base % 4 == 0
    ensures Placed(offset, size, value) * BitMask(id, Base(offset), base) != {}
       <==> id < LAST && Given(offset, size, value, 8 * base + id)
  {
    MaskMeets(Placed(offset, size, value), id, Base(offset), base);
    assert id == 32 * (id / 32) + id % 32;
    PlacedAt(offset, size, value, id % 32);
    if Given(offset, size, value, 8 * base + id) { CoversInside(offset, size, 8 * base + id); }
  }

  lemma EnabledExact(s: State, i: nat, offset: nat, size: nat, value: Word)
    requires Shaped(s) && i < 2 && Legal(offset, size)
    ensures EnabledAfter(s, i, Base(offset), Placed(offset, size, value))
         == EnableBy(s.owned[i], s.enabled[i], offset, size, value)
  {
    MeetsGiven(s.owned[i], offset, size, value, ISENABLER);
    MeetsGiven(s.owned[i], offset, size, value, ICENABLER);
  }

  /** The byte of `id` lies in the word at `word`, and the access covers it. */
  lemma LaneMeets(id: nat, offset: nat, size: nat)
    requires Legal(offset, size)
    ensures ByteMask(id, Base(offset), IPRIORITYR) * Lanes(offset, size) != {}
       <==> id < LAST && Covers(offset, size, 8 * (IPRIORITYR + id))
  {
    if id < LAST && Covers(offset, size, 8 * (IPRIORITYR + id)) {
      CoversInside(offset, size, 8 * (IPRIORITYR + id));
      LaneAt(id, offset, size, 8 * (IPRIORITYR + id) - 8 * Base(offset));
    }
    if ByteMask(id, Base(offset), IPRIORITYR) * Lanes(offset, size) != {} {
      var i :| i in ByteMask(id, Base(offset), IPRIORITYR) * Lanes(offset, size);
      LaneAt(id, offset, size, i);
      WholeByte(offset, size, id, 8 * Base(offset) + i);
    }
  }

  lemma LaneAt(id: nat, offset: nat, size: nat, i: nat)
    requires Legal(offset, size) && id < LAST && i < 32
    ensures i in ByteMask(id, Base(offset), IPRIORITYR) * Lanes(offset, size)
       <==> 8 * (IPRIORITYR + id) <= 8 * Base(offset) + i < 8 * (IPRIORITYR + id) + 8
            && Covers(offset, size, 8 * Base(offset) + i)
  {
    ByteAt(id, Base(offset), IPRIORITYR, i);
    PlacedAt(offset, size, {}, i);
  }

  /** Accesses cover whole bytes. */
  lemma WholeByte(offset: nat, size: nat, id: nat, g: nat)
    requires 8 * (IPRIORITYR + id) <= g < 8 * (IPRIORITYR + id) + 8 && Covers(offset, size, g)
    ensures Covers(offset, size, 8 * (IPRIORITYR + id))
  {
  }

  lemma PriorityExact(s: State, i: nat, offset: nat, size: nat, value: Word)
    requires Shaped(s) && i < 2 && Legal(offset, size)
    ensures PriorityAfter(s, i, Base(offset), Lanes(offset, size), Placed(offset, size, value))
         == PriorityBy(s.owned[i], s.priority[i], offset, size, value)
  {
    var id := s.owned[i];
    LaneMeets(id, offset, size);
    if id < LAST && Covers(offset, size, 8 * (IPRIORITYR + id)) {
      CoversInside(offset, size, 8 * (IPRIORITYR + id));
      assert Base(offset) == IPRIORITYR + id / 4 * 4;
      forall k: nat | k < 8
        ensures Shifted(Placed(offset, size, value), id % 4 * 8, k)
           <==> Given(offset, size, value, 8 * (IPRIORITYR + id) + k)
      {
        PlacedAt(offset, size, value, k + id % 4 * 8);
        assert 8 * Base(offset) + (k + id % 4 * 8) == 8 * (IPRIORITYR + id) + k;
      }
    }
  }

  /** After every write the shadow is what the guest asked of its own interrupts, byte by byte. */
  lemma NotedExact(s: State, offset: nat, size: nat, value: Word, i: nat)
    requires Shaped(s) && Legal(offset, size) && i < 2
    ensures Noted(s, offset, size, value).enabled[i] == EnableBy(s.owned[i], s.enabled[i], offset, size, value)
    ensures Noted(s, offset, size, value).priority[i] == PriorityBy(s.owned[i], s.priority[i], offset, size, value)
    ensures Noted(s, offset, size, value).owned == s.owned && Shaped(Noted(s, offset, size, value))
  {
    EnabledExact(s, i, offset, size, value);
    PriorityExact(s, i, offset, size, value);
  }

  // ---- Reading back --------------------------------------------------------------------------------------------

  /** The bytes asked for, taken out of their word. */
  function Cut(v: Word, offset: nat, size: nat): Word { set k: nat | k < 8 * size && Shifted(v, offset % 4 * 8, k) }

  lemma CutAt(v: Word, offset: nat, size: nat, k: nat)
    requires Legal(offset, size) && k < 8 * size
    ensures k in Cut(v, offset, size) <==> k + offset % 4 * 8 in v
    ensures 8 * Base(offset) + (k + offset % 4 * 8) == 8 * offset + k && k + offset % 4 * 8 < 32
  {
    assert Shifted(v, offset % 4 * 8, k) <==> k + offset % 4 * 8 in v;
  }

  function Read(s: State, p: Bits, offset: nat, size: nat): Option<Word>
    requires Shaped(s)
  {
    if !Legal(offset, size) then None else Some(Cut(GuestWord(s, p, Base(offset)), offset, size))
  }

  predicate PriorityBit(id: nat, g: nat) { id < LAST && 8 * (IPRIORITYR + id) <= g < 8 * (IPRIORITYR + id) + 8 }

  predicate EnableBit(id: nat, g: nat) { id < LAST && (g == 8 * ISENABLER + id || g == 8 * ICENABLER + id) }

  predicate Hidden(g: nat) {
    && InBanks(MAINTENANCE, g)
    && g != 8 * IGROUPR + MAINTENANCE
  }

  /**
   What the guest sees at bit `g`: of an interrupt EL2 owns its own enable and priority and nothing
   pending, active or grouped; nothing of the maintenance interrupt's enable, pending or active bits;
   the hardware everywhere else.
   */
  predicate Seen(s: State, p: Bits, g: nat)
    requires Shaped(s)
  {
    if PriorityBit(s.owned[1], g) then g - 8 * (IPRIORITYR + s.owned[1]) in s.priority[1]
    else if PriorityBit(s.owned[0], g) then g - 8 * (IPRIORITYR + s.owned[0]) in s.priority[0]
    else Beside(s, p, g)
  }

  /** What is seen where no owned interrupt's priority lies. */
  predicate Beside(s: State, p: Bits, g: nat)
    requires Shaped(s)
  {
    if HasBank(s.owned[0], g) || HasBank(s.owned[1], g) then
      (s.enabled[0] && EnableBit(s.owned[0], g)) || (s.enabled[1] && EnableBit(s.owned[1], g))
    else p(Behind(g)) && !Hidden(g)
  }

  lemma PriorityAt(s: State, n: nat, offset: nat, v: Word, i: nat)
    requires Shaped(s) && n < 2 && offset % 4 == 0 && i < 32
    ensures i in Priority(s, n, offset, v)
       <==> if PriorityBit(s.owned[n], 8 * offset + i)
            then 8 * offset + i - 8 * (IPRIORITYR + s.owned[n]) in s.priority[n]
            else i in v
  {
    var id := s.owned[n];
    if id < LAST {
      ByteAt(id, offset, IPRIORITYR, i);
      assert id == 4 * (id / 4) + id % 4;
    }
  }

  lemma EnablesAt(s: State, n: nat, offset: nat, i: nat)
    requires Shaped(s) && n < 2 && offset % 4 == 0 && i < 32
    ensures i in Enables(s, n, offset) <==> s.enabled[n] && EnableBit(s.owned[n], 8 * offset + i)
  {
    if s.owned[n] < LAST {
      BitAt(s.owned[n], offset, ISENABLER, i);
      BitAt(s.owned[n], offset, ICENABLER, i);
    }
  }

  lemma UnmaintainedAt(p: Bits, offset: nat, i: nat)
    requires offset % 4 == 0 && i < 32
    ensures i in Unmaintained(p, offset) <==> p(Behind(8 * offset + i)) && !Hidden(8 * offset + i)
  {
    BankBases(offset);
  }

  /** Between the owned interrupts' bits in a word, only their enables show. */
  lemma ActedAt(s: State, action: Word, offset: nat, v: Word, i: nat)
    requires Shaped(s) && offset % 4 == 0 && i < 32
    requires i in action <==> HasBank(s.owned[0], 8 * offset + i) || HasBank(s.owned[1], 8 * offset + i)
    ensures i in Acted(s, action, offset, v)
       <==> if HasBank(s.owned[0], 8 * offset + i) || HasBank(s.owned[1], 8 * offset + i)
            then (s.enabled[0] && EnableBit(s.owned[0], 8 * offset + i))
              || (s.enabled[1] && EnableBit(s.owned[1], 8 * offset + i))
            else i in v
  {
    EnablesAt(s, 0, offset, i);
    EnablesAt(s, 1, offset, i);
  }

  lemma BesideSeen(s: State, p: Bits, offset: nat, i: nat)
    requires Shaped(s) && offset % 4 == 0 && i < 32
    ensures i in Acted(s, ActionMask(s, offset), offset, Unmaintained(p, offset)) <==> Beside(s, p, 8 * offset + i)
  {
    var action, v := ActionMask(s, offset), Unmaintained(p, offset);
    assert i in action <==> HasBank(s.owned[0], 8 * offset + i) || HasBank(s.owned[1], 8 * offset + i) by {
      ActionShare(s, offset, i);
    }
    UnmaintainedAt(p, offset, i);
    ActedAt(s, action, offset, v, i);
  }

  /** The priorities laid over a word. */
  function Overlaid(s: State, offset: nat, v: Word): Word
    requires Shaped(s)
  {
    Priority(s, 1, offset, Priority(s, 0, offset, v))
  }

  lemma OverlaidAt(s: State, p: Bits, offset: nat, v: Word, i: nat, g: nat)
    requires Shaped(s) && offset % 4 == 0 && i < 32 && g == 8 * offset + i
    requires i in v <==> Beside(s, p, g)
    ensures i in Overlaid(s, offset, v) <==> Seen(s, p, g)
  {
    PriorityAt(s, 0, offset, v, i);
    PriorityAt(s, 1, offset, Priority(s, 0, offset, v), i);
  }

  lemma WordSeen(s: State, p: Bits, offset: nat, i: nat, g: nat)
    requires Shaped(s) && offset % 4 == 0 && i < 32 && offset != CTLR && g == 8 * offset + i
    ensures i in GuestWord(s, p, offset) <==> Seen(s, p, g)
  {
    var v := Acted(s, ActionMask(s, offset), offset, Unmaintained(p, offset));
    assert i in v <==> Beside(s, p, g) by { BesideSeen(s, p, offset, i); }
    OverlaidAt(s, p, offset, v, i, g);
    assert GuestWord(s, p, offset) == Overlaid(s, offset, v);
  }

  /** A read of any legal size shows exactly the bits the guest is meant to see. */
  lemma ReadExact(s: State, p: Bits, offset: nat, size: nat, k: nat)
    requires Shaped(s) && Legal(offset, size) && Base(offset) != CTLR && k < 8 * size
    ensures k in Read(s, p, offset, size).value <==> Seen(s, p, 8 * offset + k)
  {
    var i := k + offset % 4 * 8;
    CutAt({}, offset, size, k);
    WordSeen(s, p, Base(offset), i, 8 * offset + k);
    CutAt(GuestWord(s, p, Base(offset)), offset, size, k);
  }

  /** The control word reads back the guest's own bit. */
  lemma ControlRead(s: State, p: Bits, offset: nat, size: nat, k: nat)
    requires Shaped(s) && Legal(offset, size) && Base(offset) == CTLR && k < 8 * size
    ensures k in Read(s, p, offset, size).value <==> 8 * offset + k == 0 && s.control
  {
    CutAt(GuestWord(s, p, CTLR), offset, size, k);
  }

  // ---- Runs of guest accesses ---------------------------------------------------------------------------------

  datatype Access = Access(offset: nat, size: nat, value: Word)

  datatype Pair = Pair(state: State, bits: Bits)

  /** The register file after the guest's accesses, a refused one changing nothing. */
  function Run(s: State, p: Bits, log: seq<Access>): Pair
    requires Shaped(s)
    ensures Shaped(Run(s, p, log).state) && Run(s, p, log).state.owned == s.owned
    decreases log
  {
    if log == [] then Pair(s, p)
    else
      var before, a := Run(s, p, log[..|log| - 1]), log[|log| - 1];
      match Write(before.state, before.bits, a.offset, a.size, a.value)
      case Done(t, q) => Pair(t, q)
      case AccessSize => before
  }

  /** The same accesses made to the hardware itself, the control word left out. */
  function DirectRun(p: Bits, log: seq<Access>): Bits {
    if log == [] then p
    else
      var before, a := DirectRun(p, log[..|log| - 1]), log[|log| - 1];
      if Legal(a.offset, a.size) && Base(a.offset) != CTLR then Direct(before, a.offset, a.size, a.value) else before
  }

  function EnableRun(id: nat, enabled: bool, log: seq<Access>): bool {
    if log == [] then enabled
    else
      var before, a := EnableRun(id, enabled, log[..|log| - 1]), log[|log| - 1];
      if Legal(a.offset, a.size) then EnableBy(id, before, a.offset, a.size, a.value) else before
  }

  function PriorityRun(id: nat, priority: Word, log: seq<Access>): Word {
    if log == [] then priority
    else
      var before, a := PriorityRun(id, priority, log[..|log| - 1]), log[|log| - 1];
      if Legal(a.offset, a.size) then PriorityBy(id, before, a.offset, a.size, a.value) else before
  }

  /** A direct access settles each bit from that bit alone. */
  lemma DirectLocal(p: Bits, q: Bits, offset: nat, size: nat, value: Word, g: nat)
    requires p(g) == q(g)
    ensures Direct(p, offset, size, value)(g) == Direct(q, offset, size, value)(g)
  {
    if Clears(Base(offset)) {
      assert Direct(p, offset, size, value)(g) == (p(g) && !Cleared(offset, size, value, g));
      assert Direct(q, offset, size, value)(g) == (q(g) && !Cleared(offset, size, value, g));
    }
  }

  /**
   Over every run of guest accesses the physical bits of the maintenance interrupt and of both owned
   interrupts stay as they were, and all other bits are those of the same run made directly.
   */
  lemma {:induction false} RunRefines(s: State, p: Bits, log: seq<Access>, g: nat)
    requires Shaped(s) && g >= 32
    ensures Run(s, p, log).bits(g) == if Shielded(s, g) then p(g) else DirectRun(p, log)(g)
    decreases log
  {
    if log != [] {
      var front, a := log[..|log| - 1], log[|log| - 1];
      RunRefines(s, p, front, g);
      var before := Run(s, p, front);
      if Legal(a.offset, a.size) {
        if Base(a.offset) == CTLR {
          ControlExact(before.state, before.bits, a.offset, a.size, a.value, g);
        } else {
          WriteExact(before.state, before.bits, a.offset, a.size, a.value, g);
          if !Shielded(s, g) {
            DirectLocal(before.bits, DirectRun(p, front), a.offset, a.size, a.value, g);
          }
        }
      }
    }
  }

  /** Over every run the guest's enables and priorities are the fold of its own writes. */
  lemma {:induction false} RunShadows(s: State, p: Bits, log: seq<Access>, i: nat)
    requires Shaped(s) && i < 2
    ensures Run(s, p, log).state.enabled[i] == EnableRun(s.owned[i], s.enabled[i], log)
    ensures Run(s, p, log).state.priority[i] == PriorityRun(s.owned[i], s.priority[i], log)
    decreases log
  {
    if log != [] {
      var front, a := log[..|log| - 1], log[|log| - 1];
      RunShadows(s, p, front, i);
      if Legal(a.offset, a.size) {
        NotedExact(Run(s, p, front).state, a.offset, a.size, a.value, i);
      }
    }
  }

  /** Whatever the guest writes, the hardware's own group stays enabled once it is. */
  lemma {:induction false} RunStaysEnabled(s: State, p: Bits, log: seq<Access>)
    requires Shaped(s) && p(0)
    ensures Run(s, p, log).bits(0)
    decreases log
  {
    if log != [] {
      var front, a := log[..|log| - 1], log[|log| - 1];
      RunStaysEnabled(s, p, front);
      var before := Run(s, p, front);
      if Legal(a.offset, a.size) {
        if Base(a.offset) == CTLR {
          ControlExact(before.state, before.bits, a.offset, a.size, a.value, 0);
        } else {
          WriteExact(before.state, before.bits, a.offset, a.size, a.value, 0);
          ControlAlone(before.bits, a.offset, a.size, a.value);
        }
      }
    }
  }

  lemma ControlAlone(p: Bits, offset: nat, size: nat, value: Word)
    requires Legal(offset, size) && Base(offset) != CTLR
    ensures Direct(p, offset, size, value)(0) == p(0)
  {
    assert !Covers(offset, size, 0);
    assert Aliases(0) == {};
  }

  /** An aligned full-word access made directly is the word written to the hardware. */
  lemma DirectIsWritten(p: Bits, offset: nat, v: Word, g: nat)
    requires offset % 4 == 0 && forall i: nat :: i in v ==> i < 32
    ensures Direct(p, offset, 4, v)(g) == WriteWord(p, offset, v)(g)
  {
    assert Base(offset) == offset;
    assert Given(offset, 4, v, g) <==> 8 * offset <= g < 8 * offset + 32 && g - 8 * offset in v;
    if Clears(offset) {
      if Cleared(offset, 4, v, g) {
        var h :| h in Aliases(g) && Given(offset, 4, v, h);
        AliasesAre(g, h);
        assert h - 8 * offset in v && Behind(8 * offset + (h - 8 * offset)) == g;
      }
      forall i | i in v && i < 32 && Behind(8 * offset + i) == g ensures Cleared(offset, 4, v, g) {
        AliasOf(offset, i);
        assert 8 * offset + i in Aliases(g) && Given(offset, 4, v, 8 * offset + i);
      }
      assert Direct(p, offset, 4, v)(g) == (p(g) && !Cleared(offset, 4, v, g));
    } else if WriteOne(offset) {
      assert Direct(p, offset, 4, v)(g) == (p(g) || Given(offset, 4, v, g));
    } else {
      assert Direct(p, offset, 4, v)(g) == if Covers(offset, 4, g) then Given(offset, 4, v, g) else p(g);
    }
  }
}
