/** What the finished stage-2 tables translate, for every guest address. */
module Stage2Walk {
  import opened Types
  import opened Stage2

  // ---- Descriptors --------------------------------------------------------------------------

  lemma WholePages(n: nat, r: nat)
    requires r < PAGE
    ensures (n * PAGE + r) / PAGE == n
  {
    var x := n * PAGE + r;
    assert x == x / PAGE * PAGE + x % PAGE;
  }

  lemma LowBits(n: nat, k: nat, r: nat)
    requires r < 4
    ensures (n * PAGE + 4 * k + r) % 4 == r
  {
    assert n * PAGE + 4 * k + r == 4 * (n * 0x400 + k) + r;
  }

  lemma HighBits(a: nat)
    requires a % PAGE == 0
    ensures (a + DEVICE) / PAGE == a / PAGE + 0x400_0000_0000 && Leaf(a) / PAGE == a / PAGE + 0x400_0000_0000
    ensures (a + DEVICE) % 4 == 1 && Leaf(a) % 4 == 3
  {
    var n := a / PAGE + 0x400_0000_0000;
    assert a + DEVICE == n * PAGE + 0x7c1;
    WholePages(n, 0x7c1);
    WholePages(n, 0x7c3);
    LowBits(n, 0x1f0, 1);
    LowBits(n, 0x1f0, 3);
  }

  lemma TableDecodes(a: nat)
    requires a % PAGE == 0 && a < IPA_LIMIT
    ensures Kind(a + 3) == 3 && Target(a + 3) == a
  {
    var n := a / PAGE;
    assert a == n * PAGE && n < 0x100_0000;
    WholePages(n, 3);
    LowBits(n, 0, 3);
  }

  lemma PageNumber(n: nat)
    requires n < 0x100_0000
    ensures (n + 0x400_0000_0000) % 0x100_0000 == n
  {
  }

  lemma LeafDecodes(a: nat)
    requires a % PAGE == 0 && a < IPA_LIMIT
    ensures Kind(Leaf(a)) == 3 && Target(Leaf(a)) == a
  {
    HighBits(a);
    PageNumber(a / PAGE);
  }

  lemma DeviceDecodes(a: nat)
    requires a % BLOCK == 0 && a < IPA_LIMIT
    ensures Kind(a + DEVICE) == 1 && Target(a + DEVICE) == a
  {
    HighBits(a);
    PageNumber(a / PAGE);
  }

  lemma NormalDecodes(a: nat)
    requires a % BLOCK == 0 && a < IPA_LIMIT
    ensures Kind(a + NORMAL) == 1 && Target(a + NORMAL) == a
  {
  }

  /** An address by the indices a walk uses. */
  lemma Indices(ipa: nat)
    requires ipa < IPA_LIMIT
    ensures ipa / GIB < 64
    ensures ipa == ipa / GIB * GIB + ipa % GIB
    ensures ipa == ipa / GIB * GIB + ipa / BLOCK % ENTRIES * BLOCK + ipa % BLOCK
    ensures ipa == ipa / BLOCK * BLOCK + ipa / PAGE % ENTRIES * PAGE + ipa % PAGE
    ensures ipa / GIB * GIB + ipa / BLOCK % ENTRIES * BLOCK == ipa / BLOCK * BLOCK
    ensures PageBase(ipa) == ipa / BLOCK * BLOCK + ipa / PAGE % ENTRIES * PAGE
  {
  }

  // ---- One region at a time ---------------------------------------------------------------------

  function BlockBase(a: nat): nat { a / BLOCK * BLOCK }

  lemma BlockStep(m: Memory, table: nat, ipa: nat, q: nat)
    requires table in m && ipa < IPA_LIMIT && q % PAGE == 0 && q < IPA_LIMIT
    ensures
      var d := m[table][ipa / BLOCK % ENTRIES];
      && (d == 0 ==> WalkBlock(m, table, ipa) == None)
      && (d == q + 3 ==> WalkBlock(m, table, ipa) == WalkPage(m, q, ipa))
      && (d == BlockBase(ipa) + DEVICE ==> WalkBlock(m, table, ipa) == Some(ipa))
      && (d == BlockBase(ipa) + NORMAL ==> WalkBlock(m, table, ipa) == Some(ipa))
  {
    NormalDecodes(BlockBase(ipa));
    TableDecodes(q);
    DeviceDecodes(BlockBase(ipa));
  }

  lemma PageStep(m: Memory, table: nat, ipa: nat, a: nat)
    requires table in m && a % PAGE == 0 && a < IPA_LIMIT
    ensures
      var d := m[table][ipa / PAGE % ENTRIES];
      && (d == 0 ==> WalkPage(m, table, ipa) == None)
      && (d == Leaf(a) ==> WalkPage(m, table, ipa) == Some(a + ipa % PAGE))
  {
    LeafDecodes(a);
  }

  lemma WalkGib(l: Layout, usb: bool, p: Places, m: Memory, ipa: nat)
    requires Built(l, usb, p, m) && ipa < IPA_LIMIT && ipa / GIB !in {1, 3, GicGib(l)}
    ensures Walk(m, p.root, ipa) == Some(ipa)
  {
    Indices(ipa);
    var i := ipa / GIB;
    DeviceDecodes(i * GIB);
    NormalDecodes(i * GIB);
  }

  lemma WalkToSplit(l: Layout, usb: bool, p: Places, m: Memory, ipa: nat)
    requires Built(l, usb, p, m) && ipa < IPA_LIMIT && ipa / GIB == 3 && GicGib(l) != 3
    ensures Walk(m, p.root, ipa) == WalkBlock(m, p.split, ipa)
  {
    TableDecodes(p.split);
  }

  lemma ResidentBlocks(ipa: nat)
    ensures Resident(BlockBase(ipa)) <==> Resident(ipa)
  {
  }

  lemma WalkRam(l: Layout, usb: bool, p: Places, m: Memory, ipa: nat)
    requires Built(l, usb, p, m) && ipa < IPA_LIMIT && ipa / GIB == 3 && GicGib(l) != 3
    ensures Walk(m, p.root, ipa) == if Resident(ipa) then None else Some(ipa)
  {
    var i := ipa / BLOCK % ENTRIES;
    WalkToSplit(l, usb, p, m, ipa);
    Indices(ipa);
    assert m[p.split][i] == SplitEntry(i) && 3 * GIB + i * BLOCK == BlockBase(ipa);
    ResidentBlocks(ipa);
    BlockStep(m, p.split, ipa, 0);
  }

  lemma WalkToMmio(l: Layout, usb: bool, p: Places, m: Memory, ipa: nat)
    requires Built(l, usb, p, m) && ipa < IPA_LIMIT && ipa / GIB == 1
    ensures Walk(m, p.root, ipa) == WalkBlock(m, p.mmio, ipa)
  {
    TableDecodes(p.mmio);
  }

  lemma WalkMmio(l: Layout, usb: bool, p: Places, m: Memory, ipa: nat)
    requires Built(l, usb, p, m) && ipa < IPA_LIMIT && ipa / GIB == 1
    ensures
      var a := BlockBase(ipa);
      Walk(m, p.root, ipa)
      == if usb && a == CAR_BLOCK then WalkPage(m, p.car, ipa)
         else if usb && a == USB_BLOCK then None
         else if a == GicBlock(l) then WalkPage(m, p.gic, ipa)
         else if a == MC_BLOCK then WalkPage(m, p.pages, ipa)
         else Some(ipa)
  {
    var i := ipa / BLOCK % ENTRIES;
    Indices(ipa);
    WalkToMmio(l, usb, p, m, ipa);
    assert m[p.mmio][i] == FinalMmio(l, usb, p, i) && GIB + i * BLOCK == BlockBase(ipa);
    MmioCases(l, usb, p, m, ipa);
  }

  lemma MmioCases(l: Layout, usb: bool, p: Places, m: Memory, ipa: nat)
    requires p.mmio in m && Placed(usb, p) && ipa < IPA_LIMIT
    requires ipa / GIB == 1 && GIB + ipa / BLOCK % ENTRIES * BLOCK == BlockBase(ipa)
    requires m[p.mmio][ipa / BLOCK % ENTRIES] == FinalMmio(l, usb, p, ipa / BLOCK % ENTRIES)
    ensures
      var a := BlockBase(ipa);
      WalkBlock(m, p.mmio, ipa)
      == if usb && a == CAR_BLOCK then WalkPage(m, p.car, ipa)
         else if usb && a == USB_BLOCK then None
         else if a == GicBlock(l) then WalkPage(m, p.gic, ipa)
         else if a == MC_BLOCK then WalkPage(m, p.pages, ipa)
         else Some(ipa)
  {
    var a := BlockBase(ipa);
    BlockStep(m, p.mmio, ipa,
              if usb && a == CAR_BLOCK then p.car else if a == GicBlock(l) then p.gic else p.pages);
  }

  lemma WalkToL2(l: Layout, usb: bool, p: Places, m: Memory, ipa: nat)
    requires Built(l, usb, p, m) && ipa < IPA_LIMIT && ipa / GIB == GicGib(l) && GicGib(l) !in {1, 3}
    ensures Walk(m, p.root, ipa) == WalkBlock(m, p.l2, ipa)
  {
    Indices(ipa);
    TableDecodes(p.l2);
  }

  lemma WalkL2(l: Layout, usb: bool, p: Places, m: Memory, ipa: nat)
    requires Built(l, usb, p, m) && ipa < IPA_LIMIT && ipa / GIB == GicGib(l) && GicGib(l) !in {1, 3}
    ensures
      Walk(m, p.root, ipa) == if BlockBase(ipa) == GicBlock(l) then WalkPage(m, p.gic, ipa) else Some(ipa)
  {
    var i := ipa / BLOCK % ENTRIES;
    Indices(ipa);
    WalkToL2(l, usb, p, m, ipa);
    assert m[p.l2][i] == L2Entry(l, i, p.gic) && GicGib(l) * GIB + i * BLOCK == BlockBase(ipa);
    BlockStep(m, p.l2, ipa, p.gic);
  }

  lemma SamePage(base: nat, size: nat, a: nat)
    requires base % PAGE == 0 && size % PAGE == 0
    ensures Within(base, size, PageBase(a)) <==> Within(base, size, a)
  {
  }

  /** The windows are whole pages. */
  lemma WindowPages(l: Layout, a: nat)
    requires Fits(l)
    ensures Within(l.cpu, l.cpuSize, PageBase(a)) <==> Within(l.cpu, l.cpuSize, a)
    ensures Hidden(l, PageBase(a)) <==> Hidden(l, a)
  {
    SamePage(l.cpu, l.cpuSize, a);
    SamePage(l.distributor, l.distributorSize, a);
    SamePage(l.hypervisor, l.hypervisorSize, a);
    SamePage(l.virtualCpu, l.virtualCpuSize, a);
  }

  lemma ShiftedPage(from: nat, to: nat, a: nat)
    requires from % PAGE == 0 && to % PAGE == 0 && from <= a
    ensures from <= PageBase(a) && (to + (PageBase(a) - from)) % PAGE == 0
    ensures to + (PageBase(a) - from) + a % PAGE == to + (a - from)
  {
    assert PageBase(a) == a / PAGE * PAGE && from == from / PAGE * PAGE && to == to / PAGE * PAGE;
    assert to + PageBase(a) - from == (to / PAGE + a / PAGE - from / PAGE) * PAGE;
  }

  lemma Shifted(l: Layout, a: nat)
    requires Fits(l) && Within(l.cpu, l.cpuSize, a)
    ensures l.cpu <= PageBase(a) && (l.virtualCpu + (PageBase(a) - l.cpu)) % PAGE == 0
    ensures l.virtualCpu + (a - l.cpu) < IPA_LIMIT
    ensures l.virtualCpu + (PageBase(a) - l.cpu) + a % PAGE == l.virtualCpu + (a - l.cpu)
  {
    ShiftedPage(l.cpu, l.virtualCpu, a);
  }

  lemma GicEntryAt(l: Layout, ipa: nat)
    requires Fits(l) && ipa < IPA_LIMIT && BlockBase(ipa) == GicBlock(l)
    ensures
      GicEntry(l, ipa / PAGE % ENTRIES)
      == if Within(l.cpu, l.cpuSize, ipa) then Leaf(l.virtualCpu + (PageBase(ipa) - l.cpu))
         else if Hidden(l, ipa) then 0 else Leaf(PageBase(ipa))
  {
    Indices(ipa);
    WindowPages(l, ipa);
  }

  lemma CpuPage(l: Layout, m: Memory, table: nat, ipa: nat)
    requires Fits(l) && ipa < IPA_LIMIT && BlockBase(ipa) == GicBlock(l) && Within(l.cpu, l.cpuSize, ipa)
    requires table in m && m[table][ipa / PAGE % ENTRIES] == GicEntry(l, ipa / PAGE % ENTRIES)
    ensures WalkPage(m, table, ipa) == Some(l.virtualCpu + (ipa - l.cpu))
  {
    Shifted(l, ipa);
    GicEntryAt(l, ipa);
    PageStep(m, table, ipa, l.virtualCpu + (PageBase(ipa) - l.cpu));
  }

  lemma PageParts(a: nat)
    ensures PageBase(a) % PAGE == 0 && PageBase(a) + a % PAGE == a && PageBase(a) <= a
  {
  }

  lemma OtherPage(l: Layout, m: Memory, table: nat, ipa: nat)
    requires ipa < IPA_LIMIT && table in m
    requires m[table][ipa / PAGE % ENTRIES] == if Hidden(l, ipa) then 0 else Leaf(PageBase(ipa))
    ensures WalkPage(m, table, ipa) == if Hidden(l, ipa) then None else Some(ipa)
  {
    PageParts(ipa);
    PageStep(m, table, ipa, PageBase(ipa));
  }

  lemma WalkGicPage(l: Layout, usb: bool, p: Places, m: Memory, ipa: nat)
    requires Built(l, usb, p, m) && Fits(l) && ipa < IPA_LIMIT && BlockBase(ipa) == GicBlock(l)
    ensures
      WalkPage(m, p.gic, ipa)
      == if Within(l.cpu, l.cpuSize, ipa) then Some(l.virtualCpu + (ipa - l.cpu))
         else if Hidden(l, ipa) then None else Some(ipa)
  {
    GicEntryAt(l, ipa);
    if Within(l.cpu, l.cpuSize, ipa) { CpuPage(l, m, p.gic, ipa); } else { OtherPage(l, m, p.gic, ipa); }
  }

  lemma TrappedPage(usb: bool, a: nat)
    ensures Trapped(usb, PageBase(a)) <==> Trapped(usb, a)
  {
    SamePage(0x7009_0000, 0x1_0000, a);
    SamePage(0x700d_0000, 0x1_0000, a);
    SamePage(USB_BLOCK, BLOCK, a);
  }

  lemma WalkMcPage(l: Layout, usb: bool, p: Places, m: Memory, ipa: nat)
    requires Built(l, usb, p, m) && ipa < IPA_LIMIT && BlockBase(ipa) == MC_BLOCK
    ensures WalkPage(m, p.pages, ipa) == if Trapped(usb, ipa) then None else Some(ipa)
  {
    Indices(ipa);
    var a, i := PageBase(ipa), ipa / PAGE % ENTRIES;
    TrappedPage(usb, ipa);
    LeafDecodes(a);
  }

  lemma WalkCarPage(l: Layout, usb: bool, p: Places, m: Memory, ipa: nat)
    requires usb && Built(l, usb, p, m) && ipa < IPA_LIMIT && BlockBase(ipa) == CAR_BLOCK
    ensures WalkPage(m, p.car, ipa)
         == if PageBase(ipa) == CAR || PageBase(ipa) == LIC then None else Some(ipa)
  {
    Indices(ipa);
    LeafDecodes(PageBase(ipa));
  }

  // ---- The whole map --------------------------------------------------------------------------------

  /** The code's demands on a layout, the check against the half-built root table included. */
  predicate Accepted(l: Layout) { Fits(l) && GicGib(l) != 3 }

  lemma InRange(base: nat, size: nat, a: nat)
    requires PageRange(base, size) && Within(base, size, a)
    ensures a / BLOCK == base / BLOCK && a < IPA_LIMIT
  {
  }

  lemma WindowsInBlock(l: Layout, a: nat)
    requires Fits(l) && (Within(l.cpu, l.cpuSize, a) || Hidden(l, a))
    ensures BlockBase(a) == GicBlock(l) && a / GIB == GicGib(l) && a < IPA_LIMIT
  {
    if Within(l.cpu, l.cpuSize, a) { InRange(l.cpu, l.cpuSize, a); }
    else if Within(l.distributor, l.distributorSize, a) { InRange(l.distributor, l.distributorSize, a); }
    else if Within(l.hypervisor, l.hypervisorSize, a) { InRange(l.hypervisor, l.hypervisorSize, a); }
    else { InRange(l.virtualCpu, l.virtualCpuSize, a); }
    SameGib(a, l.distributor);
  }

  /** Which blocks the trapped pages lie in. */
  lemma TrappedBlocks(usb: bool, a: nat)
    requires Trapped(usb, a)
    ensures a / GIB == 1
    ensures BlockBase(a) == MC_BLOCK || (usb && BlockBase(a) in {CAR_BLOCK, USB_BLOCK})
  {
  }

  lemma BlockTraps(usb: bool, a: nat)
    ensures BlockBase(a) == CAR_BLOCK ==> (Trapped(usb, a) <==> usb && PageBase(a) in {CAR, LIC})
    ensures BlockBase(a) == USB_BLOCK ==> (Trapped(usb, a) <==> usb)
  {
  }

  lemma GicBlockTraps(l: Layout, usb: bool, ipa: nat)
    requires Accepted(l) && Compatible(l, usb) && ipa < IPA_LIMIT && BlockBase(ipa) == GicBlock(l)
    ensures Trapped(usb, ipa) ==> Hidden(l, ipa) || Within(l.cpu, l.cpuSize, ipa)
  {
    if Trapped(usb, ipa) {
      TrappedBlocks(usb, ipa);
      Indices(ipa);
      var i := ipa / PAGE % ENTRIES;
      TrappedPage(usb, ipa);
      assert PageBase(ipa) == MC_BLOCK + i * PAGE;
      WindowPages(l, ipa);
    }
  }

  /** A compatible layout gives exactly the intended map. */
  lemma CompatibleMap(l: Layout, usb: bool, p: Places, m: Memory, ipa: nat)
    requires Built(l, usb, p, m) && Accepted(l) && Compatible(l, usb)
    ensures Walk(m, p.root, ipa) == Intended(l, usb, ipa)
  {
    if ipa < IPA_LIMIT {
      if Within(l.cpu, l.cpuSize, ipa) || Hidden(l, ipa) { WindowsInBlock(l, ipa); }
      if Trapped(usb, ipa) { TrappedBlocks(usb, ipa); }
      var g := ipa / GIB;
      if BlockBase(ipa) == GicBlock(l) {
        GicBlockMap(l, usb, p, m, ipa);
      } else if g == 1 {
        MmioMap(l, usb, p, m, ipa);
      } else if g == 3 {
        WalkRam(l, usb, p, m, ipa);
      } else if g == GicGib(l) {
        WalkL2(l, usb, p, m, ipa);
      } else {
        WalkGib(l, usb, p, m, ipa);
      }
    }
  }

  lemma SameGib(a: nat, b: nat)
    requires a / BLOCK == b / BLOCK
    ensures a / GIB == b / GIB
  {
    assert a / GIB == a / BLOCK / 512 && b / GIB == b / BLOCK / 512;
  }

  lemma GicBlockMap(l: Layout, usb: bool, p: Places, m: Memory, ipa: nat)
    requires Built(l, usb, p, m) && Accepted(l) && Compatible(l, usb)
    requires ipa < IPA_LIMIT && BlockBase(ipa) == GicBlock(l)
    ensures Walk(m, p.root, ipa) == Intended(l, usb, ipa)
  {
    WalkGicPage(l, usb, p, m, ipa);
    GicBlockTraps(l, usb, ipa);
    SameGib(ipa, l.distributor);
    if ipa / GIB == 1 {
      WalkMmio(l, usb, p, m, ipa);
    } else {
      WalkL2(l, usb, p, m, ipa);
    }
  }

  lemma MmioMap(l: Layout, usb: bool, p: Places, m: Memory, ipa: nat)
    requires Built(l, usb, p, m) && Accepted(l) && ipa < IPA_LIMIT && ipa / GIB == 1 && BlockBase(ipa) != GicBlock(l)
    ensures Walk(m, p.root, ipa) == Intended(l, usb, ipa)
  {
    WalkMmio(l, usb, p, m, ipa);
    BlockTraps(usb, ipa);
    if Within(l.cpu, l.cpuSize, ipa) || Hidden(l, ipa) { WindowsInBlock(l, ipa); }
    if Trapped(usb, ipa) { TrappedBlocks(usb, ipa); }
    if BlockBase(ipa) == MC_BLOCK {
      WalkMcPage(l, usb, p, m, ipa);
    } else if usb && BlockBase(ipa) == CAR_BLOCK {
      WalkCarPage(l, usb, p, m, ipa);
    }
  }

  /** The USB step replaces the GIC's mapping when both share a block. */
  lemma ReplacedByCar(l: Layout, p: Places, m: Memory) returns (ipa: nat)
    requires Built(l, true, p, m) && Accepted(l) && GicBlock(l) == CAR_BLOCK
    ensures Walk(m, p.root, ipa) == Some(ipa) && Intended(l, true, ipa) == None
  {
    ipa := if l.distributor !in {CAR, LIC} then l.distributor
           else if l.hypervisor !in {CAR, LIC} then l.hypervisor else l.virtualCpu;
    WindowsInBlock(l, ipa);
    WalkMmio(l, true, p, m, ipa);
    WalkCarPage(l, true, p, m, ipa);
  }

  lemma ReplacedByUsb(l: Layout, p: Places, m: Memory)
    requires Built(l, true, p, m) && Accepted(l) && GicBlock(l) == USB_BLOCK
    ensures Walk(m, p.root, l.cpu) == None && Intended(l, true, l.cpu).Some?
  {
    WindowsInBlock(l, l.cpu);
    WalkMmio(l, true, p, m, l.cpu);
  }

  /** The GIC step replaces the trapped pages' table when both share a block. */
  lemma ReplacedByGic(l: Layout, usb: bool, p: Places, m: Memory, ipa: nat)
    requires Built(l, usb, p, m) && Accepted(l) && GicBlock(l) == MC_BLOCK && BlockBase(ipa) == MC_BLOCK
    requires Trapped(usb, ipa) && !Hidden(l, ipa) && !Within(l.cpu, l.cpuSize, ipa)
    ensures Walk(m, p.root, ipa) == Some(ipa) && Intended(l, usb, ipa) == None
  {
    WalkMmio(l, usb, p, m, ipa);
    WalkGicPage(l, usb, p, m, ipa);
  }

  /** Where an incompatible layout goes wrong. */
  lemma IncompatibleMap(l: Layout, usb: bool, p: Places, m: Memory) returns (ipa: nat)
    requires Built(l, usb, p, m) && Accepted(l) && !Compatible(l, usb)
    ensures Walk(m, p.root, ipa) != Intended(l, usb, ipa)
  {
    if usb && GicBlock(l) == CAR_BLOCK {
      ipa := ReplacedByCar(l, p, m);
    } else if usb && GicBlock(l) == USB_BLOCK {
      ReplacedByUsb(l, p, m);
      ipa := l.cpu;
    } else {
      var i: nat :| i < ENTRIES && Trapped(usb, MC_BLOCK + i * PAGE)
        && !Hidden(l, MC_BLOCK + i * PAGE) && !Within(l.cpu, l.cpuSize, MC_BLOCK + i * PAGE);
      ipa := MC_BLOCK + i * PAGE;
      ReplacedByGic(l, usb, p, m, ipa);
    }
  }

  /**
   The three steps give the intended map for exactly the compatible layouts: identity over all of the
   36-bit space but for GICC, the trapped pages, EL2's RAM and the hidden GIC windows.
   */
  lemma MapExact(l: Layout, usb: bool, p: Places, m: Memory)
    requires Built(l, usb, p, m) && Accepted(l)
    ensures Compatible(l, usb) <==>
            forall ipa: nat :: Walk(m, p.root, ipa) == Intended(l, usb, ipa)
  {
    if Compatible(l, usb) {
      forall ipa: nat ensures Walk(m, p.root, ipa) == Intended(l, usb, ipa) {
        CompatibleMap(l, usb, p, m, ipa);
      }
    } else {
      var ipa := IncompatibleMap(l, usb, p, m);
    }
  }

  /** The intended map never reaches EL2's RAM, the GIC's own interfaces or a trapped page. */
  lemma IntendedIsSafe(l: Layout, usb: bool, ipa: nat)
    requires Accepted(l) && Intended(l, usb, ipa).Some?
    ensures
      var pa := Intended(l, usb, ipa).value;
      && pa < IPA_LIMIT && !Resident(pa) && !Within(l.distributor, l.distributorSize, pa)
      && !Within(l.hypervisor, l.hypervisorSize, pa) && !Within(l.cpu, l.cpuSize, pa)
      && (Trapped(usb, pa) ==> Within(l.virtualCpu, l.virtualCpuSize, pa))
  {
    var pa := Intended(l, usb, ipa).value;
    if Within(l.cpu, l.cpuSize, ipa) { WindowsInBlock(l, pa); }
  }

  /** No two guest addresses share a physical one. */
  lemma IntendedInjective(l: Layout, usb: bool, a: nat, b: nat)
    requires Accepted(l) && Intended(l, usb, a).Some? && Intended(l, usb, a) == Intended(l, usb, b)
    ensures a == b
  {
  }

  const TEGRA210 :=
    Layout(0x5004_1000, 0x1000, 0x5004_2000, 0x2000, 0x5004_4000, 0x2000, 0x5004_6000, 0x2000)

  const QEMU_VIRT :=
    Layout(0x0800_0000, 0x1_0000, 0x0801_0000, 0x1_0000, 0x0803_0000, 0x1_0000, 0x0804_0000, 0x1_0000)

  lemma KnownLayouts(usb: bool)
    ensures Accepted(TEGRA210) && Compatible(TEGRA210, usb)
    ensures Accepted(QEMU_VIRT) && Compatible(QEMU_VIRT, usb)
  {
  }

  const IN_MC_BLOCK := Layout(0x7000_1000, 0x1000, 0x7000_2000, 0x1000, 0x7000_3000, 0x1000, 0x7000_4000, 0x1000)

  /** A layout in the memory controller's block passes every check, and the guest then owns that page. */
  lemma AcceptedButExposed(p: Places, m: Memory)
    requires Built(IN_MC_BLOCK, false, p, m)
    ensures Accepted(IN_MC_BLOCK) && Walk(m, p.root, MC) == Some(MC)
  {
    WalkMmio(IN_MC_BLOCK, false, p, m, MC);
    WalkGicPage(IN_MC_BLOCK, false, p, m, MC);
  }
}
