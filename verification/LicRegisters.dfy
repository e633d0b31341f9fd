/** The legacy interrupt controller by register address: six banks of 0x100 bytes for 32 sources each. */
module LicRegisters {
  import opened Types
  import opened Lic

  /** Guest accesses are aligned words of one page; 192 sources exist. */
  lemma LegalExact(a: Access)
    ensures Legal(a) <==> a.size == 4 && a.offset <= 0xffc && a.offset % 4 == 0
    ensures
      forall s: State | |s.owned| == |s.enabled| == 2 ::
        Shaped(s) <==> forall i: nat :: i < 2 && s.owned[i].Some? ==> s.owned[i].value < 192
  {
  }

  /**
   A store to the hardware: set and clear registers change the register they stand for, 0x20 for the
   enables and 0x14 for forced interrupts; every other register takes the word.
   */
  lemma StoreExact(p: Regs, bank: nat, r: nat, v: Word, at: nat)
    requires bank % 0x100 == 0 && r < 0x100
    ensures
      Store(p, bank + r, v)(at)
      == if r == 0x24 && at == bank + 0x20 then p(at) + v
         else if r == 0x28 && at == bank + 0x20 then p(at) - v
         else if r == 0x18 && at == bank + 0x14 then p(at) + v
         else if r == 0x1c && at == bank + 0x14 then p(at) - v
         else if r !in {0x24, 0x28, 0x18, 0x1c} && at == bank + r then v
         else p(at)
  {
    assert (bank + r) % STRIDE == r;
  }

  /** `source` is bit `bit` of the registers from `bank` on. */
  predicate Lies(source: Option<nat>, bank: nat, bit: nat) {
    source.Some? && bank == 0x100 * (source.value / 32) && bit == source.value % 32
  }

  /** The registers in which an owned source's bit is not the guest's. */
  predicate Mediated(r: nat) { r in {0x08, 0x10, 0x14, 0x18, 0x1c, 0x20, 0x24, 0x28, 0x2c} }

  /** The guest's enable of a source follows the words it stores at 0x24 and 0x28 of the source's bank. */
  lemma EnableSpelled(source: nat, enabled: bool, bank: nat, r: nat, v: Word)
    requires source < 192 && bank % 0x100 == 0 && r < 0x100
    ensures
      Enable(Some(source), enabled, bank + r, v)
      == if bank == 0x100 * (source / 32) && r == 0x24 then enabled || source % 32 in v
         else if bank == 0x100 * (source / 32) && r == 0x28 then enabled && source % 32 !in v
         else enabled
  {
    RegisterIs(source, bank, r);
  }

  /** What the guest reads: its own enable at 0x20 of an owned source, nothing else of it, the hardware elsewhere. */
  lemma ReadSpelled(s: State, p: Regs, bank: nat, r: nat, b: nat)
    requires Shaped(s) && bank % 0x100 == 0 && r < 0x100
    ensures
      b in Read(s, p, bank + r) <==>
        if (Lies(s.owned[0], bank, b) || Lies(s.owned[1], bank, b)) && Mediated(r)
        then r == 0x20 && s.enabled[if Lies(s.owned[1], bank, b) then 1 else 0]
        else b in p(bank + r)
  {
    ReadExact(s, p, bank, r, b);
  }

  /** What the guest writes: an owned source keeps its bits but where its own plain register is stored to. */
  lemma WriteSpelled(s: State, p: Regs, bank: nat, r: nat, v: Word, at: nat, k: nat, b: nat)
    requires Shaped(s) && bank % 0x100 == 0 && r < 0x100 && at % 0x100 == 0 && k < 0x100
    ensures
      b in Write(s, p, bank + r, v).regs(at + k) <==>
        if (Lies(s.owned[0], at, b) || Lies(s.owned[1], at, b)) && k in {0x08, 0x10, 0x14, 0x20, 0x2c}
        then b in p(at + k) && (k == 0x2c || at != bank || k != r)
        else b in Store(p, bank + r, v)(at + k)
  {
    WriteExact(s, p, bank, r, v, at, k, b);
  }

  /** Taking over routes each source as an interrupt, 0x2c clear, and enables it, 0x20 set. */
  lemma InitializeSpelled(s: State, p: Regs, at: nat, k: nat, b: nat)
    requires Shaped(s) && at % 0x100 == 0 && k < 0x100
    ensures
      b in Initialize(s, p)(at + k) <==>
        if (Lies(s.owned[0], at, b) || Lies(s.owned[1], at, b)) && k in {0x20, 0x2c} then k == 0x20
        else b in p(at + k)
  {
    InitializeAt(s, p, at, k, b);
  }
}
