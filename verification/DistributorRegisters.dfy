/**
 The interrupt distributor's register file by address (section 4.3 of IHI 0048B): bit `g` is bit `g % 8`
 of byte `g / 8`.
 */
module DistributorRegisters {
  import opened Types
  import opened Distributor

  /** Accesses of one, two or four bytes that do not leave their word. */
  lemma LegalExact(offset: nat, size: nat)
    ensures
      Legal(offset, size) <==>
        size == 1 || (size == 2 && offset % 4 != 3) || (size == 4 && offset % 4 == 0)
  {
  }

  /** Where an interrupt's group, enable, pending and active bits, priority, target and configuration lie. */
  lemma FieldExact(id: nat, targets: bool, g: nat)
    ensures
      FieldOf(id, targets, g) <==>
        || g == 0x80 * 8 + id || g == 0x100 * 8 + id || g == 0x200 * 8 + id || g == 0x300 * 8 + id
        || (0x400 + id) * 8 <= g < (0x401 + id) * 8
        || (targets && (0x800 + id) * 8 <= g < (0x801 + id) * 8)
        || 0xc00 * 8 + 2 * id <= g <= 0xc00 * 8 + 2 * id + 1
  {
  }

  /** The bits kept from the guest: those of interrupt 25 but its target, and all of an owned interrupt below 1020. */
  lemma ShieldedExact(s: State, g: nat)
    requires Shaped(s)
    ensures
      Shielded(s, g) <==>
        || FieldOf(25, false, g)
        || (s.owned[0] < 1020 && FieldOf(s.owned[0], true, g)) || (s.owned[1] < 1020 && FieldOf(s.owned[1], true, g))
  {
  }

  /** A clear register shows, and clears, the bits of its set register; every other register stands for itself. */
  lemma BehindExact(g: nat)
    ensures
      Behind(g)
      == if 0x180 * 8 <= g < 0x200 * 8 || 0x280 * 8 <= g < 0x300 * 8 || 0x380 * 8 <= g < 0x400 * 8
         then g - 0x80 * 8
         else if 0xf10 * 8 <= g < 0xf20 * 8 then g + 0x10 * 8 else g
  {
  }

  /** In the enable, pending, active and SGI pending registers only ones have an effect. */
  lemma OnesExact(offset: nat)
    ensures WriteOne(offset) <==> 0x100 <= offset < 0x400 || 0xf10 <= offset < 0xf30
    ensures
      Clears(offset) <==>
        || 0x180 <= offset < 0x200 || 0x280 <= offset < 0x300 || 0x380 <= offset < 0x400 || 0xf10 <= offset < 0xf20
  {
  }

  /** A read gives the bits of its bytes, lowest first, as `Seen` has them. */
  lemma ReadBit(s: State, p: Bits, offset: nat, size: nat, k: nat)
    requires Shaped(s) && Legal(offset, size) && offset / 4 != 0
    ensures
      Read(s, p, offset, size).Some?
      && (k in Read(s, p, offset, size).value <==> k < 8 * size && Seen(s, p, 8 * offset + k))
  {
    if k < 8 * size { ReadExact(s, p, offset, size, k); }
  }

  /** Of an interrupt EL2 owns the guest sees its own enable, in both enable registers, and its own priority. */
  lemma SeenOwned(s: State, p: Bits, n: nat, k: nat)
    requires Shaped(s) && n < 2 && s.owned[n] < 1020 && s.owned[0] != s.owned[1]
    ensures var id := s.owned[n];
      && (k < 8 ==> (Seen(s, p, (0x400 + id) * 8 + k) <==> k in s.priority[n]))
      && (Seen(s, p, 0x100 * 8 + id) <==> s.enabled[n]) && (Seen(s, p, 0x180 * 8 + id) <==> s.enabled[n])
      && !Seen(s, p, 0x80 * 8 + id) && !Seen(s, p, 0x200 * 8 + id) && !Seen(s, p, 0x280 * 8 + id)
      && !Seen(s, p, 0x300 * 8 + id) && !Seen(s, p, 0x380 * 8 + id)
  {
  }

  /** Of the maintenance interrupt it sees the group alone, and of all others what the hardware shows. */
  lemma SeenOther(s: State, p: Bits, id: nat, bank: nat)
    requires Shaped(s) && id < 1020 && id !in s.owned
    requires bank in {0x80, 0x100, 0x180, 0x200, 0x280, 0x300, 0x380}
    ensures
      Seen(s, p, bank * 8 + id) <==> p(Behind(bank * 8 + id)) && (id == 25 ==> bank == 0x80)
  {
  }
}
