/** What the stage-2 map is in plain addresses, and with which attributes it maps them. */
module Stage2Attributes {
  import opened Types
  import opened Stage2
  import opened Stage2Walk

  // ---- In plain addresses -------------------------------------------------------------------------

  /** EL2's own memory. */
  predicate Kept(a: nat) { 0xfec0_0000 <= a < 0xffc0_0000 }

  /**
   The memory controller, the UART and the virtio device; with the USB step also the clock, legacy
   interrupt and power controllers and the USB controllers' apertures.
   */
  predicate Guarded(usb: bool, a: nat) {
    || 0x7001_9000 <= a < 0x7001_a000 || 0x700f_f000 <= a < 0x7010_0000 || 0x700f_e000 <= a < 0x700f_f000
    || (usb && (|| 0x6000_6000 <= a < 0x6000_7000 || 0x6000_4000 <= a < 0x6000_5000
                || 0x7000_e000 <= a < 0x7000_f000 || 0x7009_0000 <= a < 0x700a_0000
                || 0x700d_0000 <= a < 0x700e_0000 || 0x7d00_0000 <= a < 0x7d20_0000))
  }

  lemma GuardedIs(usb: bool, a: nat)
    ensures Guarded(usb, a) <==> Trapped(usb, a)
  {
    PageIs(0x7001_9000, a);
    PageIs(0x700f_f000, a);
    PageIs(0x700f_e000, a);
    PageIs(0x6000_6000, a);
    PageIs(0x6000_4000, a);
    PageIs(0x7000_e000, a);
  }

  lemma PageIs(base: nat, a: nat)
    requires base % 0x1000 == 0
    ensures PageBase(a) == base <==> base <= a < base + 0x1000
  {
    var n, k := base / 0x1000, a / 0x1000;
    assert base == 0x1000 * n && a == 0x1000 * k + a % 0x1000;
  }

  predicate Inside(base: nat, size: nat, a: nat) { base <= a && a < base + size }

  /** The intended map in plain addresses: 36 bits of identity but for the GIC and what is kept from the guest. */
  lemma IntendedExact(l: Layout, usb: bool, ipa: nat)
    ensures
      Intended(l, usb, ipa)
      == if ipa >= 0x10_0000_0000 then None
         else if Inside(l.cpu, l.cpuSize, ipa) then Some(ipa - l.cpu + l.virtualCpu)
         else if Inside(l.distributor, l.distributorSize, ipa) || Inside(l.hypervisor, l.hypervisorSize, ipa)
                 || Inside(l.virtualCpu, l.virtualCpuSize, ipa) || Kept(ipa) || Guarded(usb, ipa)
         then None else Some(ipa)
  {
    GuardedIs(usb, ipa);
  }

  /** Whatever a compatible layout's tables translate lies in the 36-bit space and outside EL2's memory. */
  lemma NeverKept(l: Layout, usb: bool, p: Places, m: Memory, ipa: nat)
    requires Built(l, usb, p, m) && Accepted(l) && Compatible(l, usb) && Walk(m, p.root, ipa).Some?
    ensures var pa := Walk(m, p.root, ipa).value; pa < 0x10_0000_0000 && !(0xfec0_0000 <= pa < 0xffc0_0000)
  {
    CompatibleMap(l, usb, p, m, ipa);
    IntendedIsSafe(l, usb, ipa);
  }

  /** A window of whole pages in one block of 2 MiB. */
  predicate Window(base: nat, size: nat) {
    && base % 0x1000 == 0 && size % 0x1000 == 0 && size > 0 && base + size <= 0x10_0000_0000
    && base / 0x20_0000 == (base + size - 1) / 0x20_0000
  }

  predicate Beside(a: nat, aSize: nat, b: nat, bSize: nat) { a + aSize <= b || b + bSize <= a }

  /** The layouts that are accepted: four disjoint windows of one block outside the fourth gibibyte. */
  lemma AcceptedExact(l: Layout)
    ensures
      Accepted(l) <==>
        && Window(l.distributor, l.distributorSize) && Window(l.cpu, l.cpuSize)
        && Window(l.hypervisor, l.hypervisorSize) && Window(l.virtualCpu, l.virtualCpuSize)
        && l.cpuSize <= l.virtualCpuSize
        && l.cpu / 0x20_0000 == l.hypervisor / 0x20_0000 == l.virtualCpu / 0x20_0000 == l.distributor / 0x20_0000
        && Beside(l.distributor, l.distributorSize, l.cpu, l.cpuSize)
        && Beside(l.distributor, l.distributorSize, l.hypervisor, l.hypervisorSize)
        && Beside(l.distributor, l.distributorSize, l.virtualCpu, l.virtualCpuSize)
        && Beside(l.cpu, l.cpuSize, l.hypervisor, l.hypervisorSize)
        && Beside(l.cpu, l.cpuSize, l.virtualCpu, l.virtualCpuSize)
        && Beside(l.hypervisor, l.hypervisorSize, l.virtualCpu, l.virtualCpuSize)
        && l.distributor / 0x4000_0000 != 3
  {
  }

  /** Tables lie in whole pages of EL2's memory, no two in one, which the map never reaches. */
  lemma PlacedExact(usb: bool, p: Places)
    requires Placed(usb, p)
    ensures
      var at := [p.root, p.split, p.mmio, p.pages, p.l2, p.gic] + if usb then [p.car] else [];
      && (forall i: nat :: i < |at| ==>
            at[i] % 0x1000 == 0 && 0xfec0_0000 <= at[i] && at[i] + 0x1000 <= 0xffc0_0000)
      && forall i: nat, j: nat :: i < j < |at| ==> at[i] != at[j]
  {
  }

  /** The root table is empty beyond the 36-bit space, for which its first 64 entries suffice. */
  lemma BeyondEmpty(l: Layout, p: Places, i: nat)
    requires Accepted(l) && i >= 64
    ensures FinalRoot(l, p, i) == 0
  {
    InRange(l.distributor, l.distributorSize, l.distributor);
  }

  // ---- Attributes ------------------------------------------------------------------------------------

  /** The final descriptor of a translation. */
  function Final(m: Memory, root: nat, ipa: nat): Option<nat> {
    if ipa >= IPA_LIMIT || root !in m then None
    else
      var d := m[root][ipa / GIB];
      if Kind(d) == 1 then Some(d) else if Kind(d) == 3 then FinalBlock(m, Target(d), ipa) else None
  }

  function FinalBlock(m: Memory, table: nat, ipa: nat): Option<nat> {
    if table !in m then None
    else
      var d := m[table][ipa / BLOCK % ENTRIES];
      if Kind(d) == 1 then Some(d) else if Kind(d) == 3 then FinalPage(m, Target(d), ipa) else None
  }

  function FinalPage(m: Memory, table: nat, ipa: nat): Option<nat> {
    if table !in m then None
    else
      var d := m[table][ipa / PAGE % ENTRIES];
      if Kind(d) == 3 then Some(d) else None
  }

  /** It is there exactly when the address is translated. */
  lemma FinalIs(m: Memory, root: nat, ipa: nat)
    ensures Final(m, root, ipa).Some? <==> Walk(m, root, ipa).Some?
  {
  }

  /** Bits 2 to 5, 6 and 7, 8 and 9, 10 and 54 of a stage-2 block or page descriptor. */
  datatype Attributes = Attributes(memory: nat, access: nat, share: nat, accessed: bool, never: bool)

  function Read(d: nat): Attributes {
    Attributes(d / 0x4 % 16, d / 0x40 % 4, d / 0x100 % 4, d / 0x400 % 2 == 1, d / 0x40_0000_0000_0000 % 2 == 1)
  }

  /** Cacheable normal memory, and device memory of the strictest kind that nothing is fetched from. */
  const RAM := Attributes(15, 3, 3, true, false)
  const IO := Attributes(0, 3, 3, true, true)

  lemma NoMultiple(z: int, k: int)
    requires k > 0
    ensures (z > 0 ==> k * z >= k) && (z < 0 ==> k * z <= -k)
  {
  }

  lemma Spread(k: int, a: int, b: int)
    ensures k * a - k * b == k * (a - b)
  {
  }

  lemma Parts(x: nat, k: nat, q: nat, r: nat)
    requires k > 0 && x == k * q + r && r < k
    ensures x / k == q && x % k == r
  {
    var d := x / k;
    assert x == k * d + x % k;
    Spread(k, d, q);
    NoMultiple(d - q, k);
    assert k * (d - q) == r - x % k;
    assert d == q;
  }

  lemma MemoryField(n: nat, low: nat)
    requires low < 0x1000
    ensures (0x1000 * n + low) / 0x4 % 16 == low / 0x4 % 16
  {
    Parts(0x1000 * n + low, 0x4, 0x400 * n + low / 0x4, low % 0x4);
    Parts(0x400 * n + low / 0x4, 16, 0x40 * n + low / 0x4 / 16, low / 0x4 % 16);
  }

  lemma AccessField(n: nat, low: nat)
    requires low < 0x1000
    ensures (0x1000 * n + low) / 0x40 % 4 == low / 0x40 % 4
  {
    Parts(0x1000 * n + low, 0x40, 0x40 * n + low / 0x40, low % 0x40);
    Parts(0x40 * n + low / 0x40, 4, 0x10 * n + low / 0x40 / 4, low / 0x40 % 4);
  }

  lemma ShareField(n: nat, low: nat)
    requires low < 0x1000
    ensures (0x1000 * n + low) / 0x100 % 4 == low / 0x100 % 4
    ensures (0x1000 * n + low) / 0x400 % 2 == low / 0x400 % 2
  {
    Parts(0x1000 * n + low, 0x100, 0x10 * n + low / 0x100, low % 0x100);
    Parts(0x10 * n + low / 0x100, 4, 4 * n + low / 0x100 / 4, low / 0x100 % 4);
    Parts(0x1000 * n + low, 0x400, 4 * n + low / 0x400, low % 0x400);
    Parts(4 * n + low / 0x400, 2, 2 * n + low / 0x400 / 2, low / 0x400 % 2);
  }

  /** The low attribute bits of a descriptor depend on its low twelve bits alone. */
  lemma LowRead(n: nat, low: nat)
    requires low in {0x7fd, 0x7c1, 0x7c3}
    ensures
      var a := Read(0x1000 * n + low);
      a.memory == (if low == 0x7fd then 15 else 0) && a.access == 3 && a.share == 3 && a.accessed
  {
    MemoryField(n, low);
    AccessField(n, low);
    ShareField(n, low);
  }

  lemma NeverRead(rest: nat, on: bool)
    requires rest < 0x40_0000_0000_0000
    ensures Read(rest + if on then 0x40_0000_0000_0000 else 0).never == on
  {
    if on { assert (rest + 0x40_0000_0000_0000) / 0x40_0000_0000_0000 == 1; }
  }

  lemma AttributesOf(a: nat)
    requires a % PAGE == 0 && a < IPA_LIMIT
    ensures Read(a + NORMAL) == RAM && Read(a + DEVICE) == IO && Read(Leaf(a)) == IO
  {
    var n := a / PAGE;
    assert a == 0x1000 * n;
    LowRead(n, 0x7fd);
    LowRead(n + 0x400_0000_0000, 0x7c1);
    LowRead(n + 0x400_0000_0000, 0x7c3);
    assert a + DEVICE == 0x1000 * (n + 0x400_0000_0000) + 0x7c1;
    assert Leaf(a) == 0x1000 * (n + 0x400_0000_0000) + 0x7c3;
    NeverRead(a + 0x7fd, false);
    NeverRead(a + 0x7c1, true);
    NeverRead(a + 0x7c3, true);
  }

  /** Device memory is everything below RAM, and the gibibyte the GIC is in. */
  predicate IsIo(l: Layout, ipa: nat) { ipa < 0x8000_0000 || ipa / 0x4000_0000 == l.distributor / 0x4000_0000 }

  lemma BlockAligned(ipa: nat)
    requires ipa < IPA_LIMIT
    ensures BlockBase(ipa) % BLOCK == 0 && BlockBase(ipa) % PAGE == 0 && BlockBase(ipa) < IPA_LIMIT
  {
  }

  /** A device block or page at `a`, if there is one. */
  predicate DeviceAt(d: Option<nat>, a: nat) {
    d.Some? ==> a % PAGE == 0 && a < IPA_LIMIT && d.value in {a + DEVICE, Leaf(a)}
  }

  /** A page of the GIC's block. */
  lemma GicAttributes(l: Layout, usb: bool, p: Places, m: Memory, ipa: nat) returns (a: nat)
    requires Built(l, usb, p, m) && Accepted(l) && ipa < IPA_LIMIT && BlockBase(ipa) == GicBlock(l)
    ensures DeviceAt(FinalPage(m, p.gic, ipa), a)
  {
    GicEntryAt(l, ipa);
    PageParts(ipa);
    a := PageBase(ipa);
    if Within(l.cpu, l.cpuSize, ipa) {
      Shifted(l, ipa);
      a := l.virtualCpu + (PageBase(ipa) - l.cpu);
    }
  }

  /** A page of the memory controller's block, or of the clock controller's. */
  lemma PageAttributes(l: Layout, usb: bool, p: Places, m: Memory, ipa: nat) returns (a: nat, b: nat)
    requires Built(l, usb, p, m)
    ensures DeviceAt(FinalPage(m, p.pages, ipa), a) && (usb ==> DeviceAt(FinalPage(m, p.car, ipa), b))
  {
    var i := ipa / PAGE % ENTRIES;
    a, b := MC_BLOCK + i * PAGE, CAR_BLOCK + i * PAGE;
    assert m[p.pages][i] == FinalPages(usb, i);
    if usb { assert m[p.car][i] == CarEntry(i); }
  }

  /** A block entry that is a device block, a table whose page is a device page, or nothing. */
  lemma BlockLeads(m: Memory, table: nat, ipa: nat, block: nat, next: nat, a: nat)
    requires table in m && block % BLOCK == 0 && block < IPA_LIMIT && next % PAGE == 0 && next < IPA_LIMIT
    requires m[table][ipa / BLOCK % ENTRIES] in {0, block + DEVICE, next + 3} && DeviceAt(FinalPage(m, next, ipa), a)
    ensures
      DeviceAt(FinalBlock(m, table, ipa), if m[table][ipa / BLOCK % ENTRIES] == block + DEVICE then block else a)
  {
    DeviceDecodes(block);
    TableDecodes(next);
  }

  lemma BlockDevice(m: Memory, table: nat, ipa: nat, block: nat)
    requires table in m && block % BLOCK == 0 && block < IPA_LIMIT
    requires m[table][ipa / BLOCK % ENTRIES] == block + DEVICE
    ensures FinalBlock(m, table, ipa) == Some(block + DEVICE)
  {
    DeviceDecodes(block);
  }

  lemma MmioHolds(l: Layout, usb: bool, p: Places, m: Memory, ipa: nat)
    requires Built(l, usb, p, m) && ipa < IPA_LIMIT && ipa / GIB == 1
    ensures p.mmio in m && m[p.mmio][ipa / BLOCK % ENTRIES] == FinalMmio(l, usb, p, ipa / BLOCK % ENTRIES)
    ensures GIB + ipa / BLOCK % ENTRIES * BLOCK == BlockBase(ipa) && BlockBase(ipa) % BLOCK == 0
    ensures BlockBase(ipa) < IPA_LIMIT
    ensures p.gic % PAGE == 0 && p.gic < IPA_LIMIT && p.pages % PAGE == 0 && p.pages < IPA_LIMIT
    ensures usb ==> p.car % PAGE == 0 && p.car < IPA_LIMIT
  {
    Indices(ipa);
  }

  lemma MmioAttributes(l: Layout, usb: bool, p: Places, m: Memory, ipa: nat) returns (a: nat)
    requires Built(l, usb, p, m) && Accepted(l) && ipa < IPA_LIMIT && ipa / GIB == 1
    ensures DeviceAt(FinalBlock(m, p.mmio, ipa), a)
  {
    MmioHolds(l, usb, p, m, ipa);
    var pages, car := PageAttributes(l, usb, p, m, ipa);
    var block := BlockBase(ipa);
    var next := p.pages;
    a := pages;
    if usb && block == CAR_BLOCK {
      next, a := p.car, car;
    } else if block == GicBlock(l) {
      next := p.gic;
      a := GicAttributes(l, usb, p, m, ipa);
    }
    BlockLeads(m, p.mmio, ipa, block, next, a);
    if m[p.mmio][ipa / BLOCK % ENTRIES] == block + DEVICE { a := block; }
  }

  lemma L2Holds(l: Layout, usb: bool, p: Places, m: Memory, ipa: nat)
    requires Built(l, usb, p, m) && ipa < IPA_LIMIT && ipa / GIB == GicGib(l) && GicGib(l) != 1
    ensures p.l2 in m && p.gic % PAGE == 0 && p.gic < IPA_LIMIT
    ensures
      m[p.l2][ipa / BLOCK % ENTRIES]
      == if BlockBase(ipa) == GicBlock(l) then p.gic + 3 else BlockBase(ipa) + DEVICE
  {
    Indices(ipa);
    assert m[p.l2][ipa / BLOCK % ENTRIES] == L2Entry(l, ipa / BLOCK % ENTRIES, p.gic);
  }

  lemma L2Leads(l: Layout, m: Memory, table: nat, gic: nat, ipa: nat, page: nat) returns (a: nat)
    requires ipa < IPA_LIMIT && table in m && gic % PAGE == 0 && gic < IPA_LIMIT
    requires
      m[table][ipa / BLOCK % ENTRIES]
      == if BlockBase(ipa) == GicBlock(l) then gic + 3 else BlockBase(ipa) + DEVICE
    requires BlockBase(ipa) == GicBlock(l) ==> DeviceAt(FinalPage(m, gic, ipa), page)
    ensures DeviceAt(FinalBlock(m, table, ipa), a)
  {
    var block := BlockBase(ipa);
    BlockAligned(ipa);
    a := block;
    if block == GicBlock(l) {
      TableDecodes(gic);
      a := page;
    } else {
      BlockDevice(m, table, ipa, block);
    }
  }

  lemma L2Attributes(l: Layout, usb: bool, p: Places, m: Memory, ipa: nat) returns (a: nat)
    requires Built(l, usb, p, m) && Accepted(l) && ipa < IPA_LIMIT && ipa / GIB == GicGib(l) && GicGib(l) != 1
    ensures DeviceAt(FinalBlock(m, p.l2, ipa), a)
  {
    L2Holds(l, usb, p, m, ipa);
    var page: nat := 0;
    if BlockBase(ipa) == GicBlock(l) { page := GicAttributes(l, usb, p, m, ipa); }
    a := L2Leads(l, m, p.l2, p.gic, ipa, page);
  }

  lemma SplitAttributes(l: Layout, usb: bool, p: Places, m: Memory, ipa: nat)
    requires Built(l, usb, p, m) && ipa < IPA_LIMIT && ipa / GIB == 3
    ensures var d := FinalBlock(m, p.split, ipa); d.Some? ==> d.value == BlockBase(ipa) + NORMAL
  {
    var i := ipa / BLOCK % ENTRIES;
    Indices(ipa);
    NormalDecodes(BlockBase(ipa));
    assert m[p.split][i] == SplitEntry(i) && 3 * GIB + i * BLOCK == BlockBase(ipa);
  }

  lemma RootAttributes(l: Layout, usb: bool, p: Places, m: Memory, ipa: nat)
    requires Built(l, usb, p, m) && ipa < IPA_LIMIT && ipa / GIB !in {1, 3, GicGib(l)}
    ensures Final(m, p.root, ipa) == Some(ipa / GIB * GIB + if ipa < 0x8000_0000 then DEVICE else NORMAL)
  {
    var g := ipa / GIB;
    Indices(ipa);
    DeviceDecodes(g * GIB);
    NormalDecodes(g * GIB);
    assert m[p.root][g] == FinalRoot(l, p, g);
  }

  /** Which table the walk goes on in. */
  lemma RootLeads(l: Layout, usb: bool, p: Places, m: Memory, ipa: nat)
    requires Built(l, usb, p, m) && Accepted(l) && ipa < IPA_LIMIT && ipa / GIB in {1, 3, GicGib(l)}
    ensures
      Final(m, p.root, ipa)
      == FinalBlock(m, if ipa / GIB == 1 then p.mmio else if ipa / GIB == 3 then p.split else p.l2, ipa)
  {
    var g := ipa / GIB;
    Indices(ipa);
    TableDecodes(p.split);
    TableDecodes(p.mmio);
    TableDecodes(p.l2);
    assert m[p.root][g] == FinalRoot(l, p, g);
  }

  lemma IoLeads(l: Layout, usb: bool, p: Places, m: Memory, ipa: nat) returns (a: nat)
    requires Built(l, usb, p, m) && Accepted(l) && ipa < IPA_LIMIT && ipa / GIB in {1, GicGib(l)}
    ensures DeviceAt(Final(m, p.root, ipa), a)
  {
    RootLeads(l, usb, p, m, ipa);
    if ipa / GIB == 1 { a := MmioAttributes(l, usb, p, m, ipa); } else { a := L2Attributes(l, usb, p, m, ipa); }
  }

  /** Where the walk ends: at a device block or page, or at a block of normal memory. */
  predicate EndsAt(io: bool, d: Option<nat>, a: nat) {
    d.Some? ==> a % PAGE == 0 && a < IPA_LIMIT && d.value in if io then {a + DEVICE, Leaf(a)} else {a + NORMAL}
  }

  lemma RamLeads(l: Layout, usb: bool, p: Places, m: Memory, ipa: nat) returns (a: nat)
    requires Built(l, usb, p, m) && Accepted(l) && ipa < IPA_LIMIT && ipa / GIB !in {1, GicGib(l)}
    ensures EndsAt(ipa < 0x8000_0000, Final(m, p.root, ipa), a)
  {
    if ipa / GIB == 3 {
      RootLeads(l, usb, p, m, ipa);
      SplitAttributes(l, usb, p, m, ipa);
      BlockAligned(ipa);
      a := BlockBase(ipa);
    } else {
      RootAttributes(l, usb, p, m, ipa);
      a := ipa / GIB * GIB;
    }
  }

  lemma FinalLeads(l: Layout, usb: bool, p: Places, m: Memory, ipa: nat) returns (a: nat)
    requires Built(l, usb, p, m) && Accepted(l) && ipa < IPA_LIMIT
    ensures EndsAt(IsIo(l, ipa), Final(m, p.root, ipa), a)
  {
    if ipa / GIB in {1, GicGib(l)} { a := IoLeads(l, usb, p, m, ipa); } else { a := RamLeads(l, usb, p, m, ipa); }
  }

  /**
   Whatever the tables of an accepted layout translate, they translate readable, writable and inner
   shareable: as cacheable memory from 2 GiB on, as device memory never fetched from below and beside the GIC.
   */
  lemma AttributesExact(l: Layout, usb: bool, p: Places, m: Memory, ipa: nat)
    requires Built(l, usb, p, m) && Accepted(l) && Walk(m, p.root, ipa).Some?
    ensures Final(m, p.root, ipa).Some?
    ensures
      Read(Final(m, p.root, ipa).value)
      == if IsIo(l, ipa) then Attributes(0, 3, 3, true, true) else Attributes(15, 3, 3, true, false)
  {
    FinalIs(m, p.root, ipa);
    var a := FinalLeads(l, usb, p, m, ipa);
    AttributesOf(a);
  }
}
