/** Building the stage-2 tables in place, in the order the hypervisor does it. */
module Stage2Tables {
  import opened Types
  import opened Stage2
  import opened Stage2Walk

  ghost predicate IsTable(t: array<nat>) { t.Length == ENTRIES }

  method ClearTable(t: array<nat>)
    requires IsTable(t)
    modifies t
    ensures Holds(t[..], (i: nat) => 0)
  {
    for i := 0 to ENTRIES
      invariant forall j: nat :: j < i ==> t[j] == 0
    {
      t[i] := 0;
    }
  }

  method FillRoot(root: array<nat>)
    requires IsTable(root) && Holds(root[..], (i: nat) => 0)
    modifies root
    ensures Holds(root[..], (i: nat) => RootStart(i))
  {
    for i := 0 to IPA_LIMIT / GIB
      invariant forall j: nat :: j < i ==> root[j] == RootStart(j)
      invariant forall j: nat :: i <= j < ENTRIES ==> root[j] == 0
    {
      var address := i * GIB;
      root[i] := address + if address < RAM_BASE then DEVICE else NORMAL;
    }
  }

  method FillSplit(split: array<nat>)
    requires IsTable(split) && Holds(split[..], (i: nat) => 0)
    modifies split
    ensures Holds(split[..], (i: nat) => SplitEntry(i))
  {
    for i := 0 to ENTRIES
      invariant forall j: nat :: j < i ==> split[j] == SplitEntry(j)
      invariant forall j: nat :: i <= j < ENTRIES ==> split[j] == 0
    {
      var address := 3 * GIB + i * BLOCK;
      if !Resident(address) { split[i] := address + NORMAL; }
    }
  }

  method FillMmio(mmio: array<nat>)
    requires IsTable(mmio)
    modifies mmio
    ensures Holds(mmio[..], (i: nat) => MmioStart(i))
  {
    for i := 0 to ENTRIES
      invariant forall j: nat :: j < i ==> mmio[j] == MmioStart(j)
    {
      mmio[i] := GIB + i * BLOCK + DEVICE;
    }
  }

  method FillPages(pages: array<nat>)
    requires IsTable(pages) && Holds(pages[..], (i: nat) => 0)
    modifies pages
    ensures Holds(pages[..], (i: nat) => PagesEntry(i))
  {
    for i := 0 to ENTRIES
      invariant forall j: nat :: j < i ==> pages[j] == PagesEntry(j)
      invariant forall j: nat :: i <= j < ENTRIES ==> pages[j] == 0
    {
      var address := MC_BLOCK + i * PAGE;
      if address != MC && address != UART && address != VIRTIO { pages[i] := address + DEVICE + 2; }
    }
  }

  /** Whether new table addresses lie in resident RAM, apart from each other and from `existing`. */
  predicate PlacesOk(addresses: seq<nat>, existing: seq<nat>) {
    && (forall i: nat :: i < |addresses| ==> ResidentTable(addresses[i]) && addresses[i] !in existing)
    && forall i: nat, j: nat :: i < j < |addresses| ==> addresses[i] != addresses[j]
  }

  method CheckPlaces(addresses: seq<nat>, existing: seq<nat>) returns (ok: bool)
    ensures ok == PlacesOk(addresses, existing)
  {
    for i := 0 to |addresses|
      invariant PlacesOk(addresses[..i], existing)
    {
      if !ResidentTable(addresses[i]) || addresses[i] in existing || addresses[i] in addresses[..i] {
        return false;
      }
      assert addresses[..i + 1] == addresses[..i] + [addresses[i]];
    }
    assert addresses[..|addresses|] == addresses;
    return true;
  }

  /** The tables that hold the identity map with its traps; `Ok` is the translation-table base. */
  method Build(root: array<nat>, split: array<nat>, mmio: array<nat>, pages: array<nat>, addresses: seq<nat>)
    returns (r: Result<nat, MapError>)
    requires IsTable(root) && IsTable(split) && IsTable(mmio) && IsTable(pages) && |addresses| == 4
    requires root != split && root != mmio && root != pages && split != mmio && split != pages && mmio != pages
    modifies root, split, mmio, pages
    ensures r == if PlacesOk(addresses, []) then Ok(0x1_0000_0000_0000 + addresses[0]) else Err(TablePlacement)
    ensures r.Err? ==> unchanged(root, split, mmio, pages)
    ensures r.Ok? ==> Holds(root[..], (i: nat) => RootEntry(i, addresses[1], addresses[2]))
    ensures r.Ok? ==> Holds(split[..], (i: nat) => SplitEntry(i))
    ensures r.Ok? ==> Holds(mmio[..], (i: nat) => MmioEntry(i, addresses[3]))
    ensures r.Ok? ==> Holds(pages[..], (i: nat) => PagesEntry(i))
  {
    var ok := CheckPlaces(addresses, []);
    if !ok { return Err(TablePlacement); }
    ClearTable(root);
    ClearTable(split);
    ClearTable(mmio);
    ClearTable(pages);
    FillRoot(root);
    FillSplit(split);
    FillMmio(mmio);
    FillPages(pages);
    mmio[(MC_BLOCK - GIB) / BLOCK] := addresses[3] + 3;
    root[1] := addresses[2] + 3;
    root[3] := addresses[1] + 3;
    return Ok(VMID + addresses[0]);
  }

  /** A window as slots of its block's page table. */
  lemma WindowSlots(block: nat, base: nat, size: nat, i: nat)
    requires block % PAGE == 0 && block <= base && base % PAGE == 0 && size % PAGE == 0
    ensures Within(base, size, block + i * PAGE) <==> (base - block) / PAGE <= i < (base - block) / PAGE + size / PAGE
    ensures i == (base - block) / PAGE + (block + i * PAGE - base) / PAGE
  {
  }

  lemma WindowSlot(block: nat, base: nat, n: nat)
    requires block % PAGE == 0 && block <= base && base % PAGE == 0
    ensures (base + n * PAGE - block) / PAGE == (base - block) / PAGE + n
    ensures block + ((base - block) / PAGE + n) * PAGE == base + n * PAGE
  {
  }

  /** Clear the pages of a window, which lie in the table's block. */
  method HideWindow(gic: array<nat>, block: nat, base: nat, size: nat)
    requires IsTable(gic) && block % BLOCK == 0 && block <= base && base + size <= block + BLOCK
    requires base % PAGE == 0 && size % PAGE == 0
    modifies gic
    ensures Holds(gic[..], (i: nat) =>
      if Within(base, size, block + i * PAGE) || i >= ENTRIES then 0 else old(gic[..])[i])
  {
    ghost var before, first := gic[..], (base - block) / PAGE;
    for n := 0 to size / PAGE
      invariant forall i: nat :: i < ENTRIES ==> gic[i] == if first <= i < first + n then 0 else before[i]
    {
      WindowSlot(block, base, n);
      gic[(base + n * PAGE - block) / PAGE] := 0;
    }
    forall i: nat | i < ENTRIES
      ensures gic[i] == if Within(base, size, block + i * PAGE) then 0 else before[i] {
      WindowSlots(block, base, size, i);
    }
  }

  /** Show the guest's CPU interface pages at their original place. */
  method ShowWindow(gic: array<nat>, block: nat, base: nat, size: nat, target: nat)
    requires IsTable(gic) && block % BLOCK == 0 && block <= base && base + size <= block + BLOCK
    requires base % PAGE == 0 && size % PAGE == 0
    modifies gic
    ensures Holds(gic[..], (i: nat) =>
      if Within(base, size, block + i * PAGE) then Leaf(target + (block + i * PAGE - base))
      else if i < ENTRIES then old(gic[..])[i] else 0)
  {
    ghost var before, first := gic[..], (base - block) / PAGE;
    for n := 0 to size / PAGE
      invariant forall i: nat :: i < ENTRIES ==>
        gic[i] == if first <= i < first + n then Leaf(target + (i - first) * PAGE) else before[i]
    {
      WindowSlot(block, base, n);
      gic[(base + n * PAGE - block) / PAGE] := target + n * PAGE + DEVICE + 2;
    }
    forall i: nat | i < ENTRIES
      ensures gic[i] == if Within(base, size, block + i * PAGE) then Leaf(target + (block + i * PAGE - base))
                        else before[i] {
      WindowSlots(block, base, size, i);
      if first <= i { WindowSlot(block, base, i - first); }
    }
  }

  method FillLeaves(t: array<nat>, base: nat)
    requires IsTable(t)
    modifies t
    ensures Holds(t[..], (i: nat) => Leaf(base + i * PAGE))
  {
    for i := 0 to ENTRIES
      invariant forall j: nat :: j < i ==> t[j] == Leaf(base + j * PAGE)
    {
      t[i] := base + i * PAGE + DEVICE + 2;
    }
  }

  lemma WindowBounds(base: nat, size: nat, block: nat)
    requires PageRange(base, size) && block == base / BLOCK * BLOCK
    ensures block <= base && base + size <= block + BLOCK
  {
  }

  method FillGic(gic: array<nat>, l: Layout)
    requires IsTable(gic) && Fits(l)
    modifies gic
    ensures Holds(gic[..], (i: nat) => GicEntry(l, i))
  {
    var block := GicBlock(l);
    WindowBounds(l.distributor, l.distributorSize, block);
    WindowBounds(l.cpu, l.cpuSize, block);
    FillLeaves(gic, block);
    HideWindow(gic, block, l.distributor, l.distributorSize);
    ShowWindow(gic, block, l.cpu, l.cpuSize, l.virtualCpu);
    HideEl2(gic, l);
  }

  /** The windows of EL2's own, once the guest's CPU interface stands in the table. */
  method HideEl2(gic: array<nat>, l: Layout)
    requires IsTable(gic) && Fits(l)
    modifies gic
    ensures Holds(gic[..], (i: nat) =>
      var a := GicBlock(l) + i * PAGE;
      if Within(l.hypervisor, l.hypervisorSize, a) || Within(l.virtualCpu, l.virtualCpuSize, a) || i >= ENTRIES then 0
      else old(gic[..])[i])
  {
    WindowBounds(l.hypervisor, l.hypervisorSize, GicBlock(l));
    WindowBounds(l.virtualCpu, l.virtualCpuSize, GicBlock(l));
    HideWindow(gic, GicBlock(l), l.hypervisor, l.hypervisorSize);
    HideWindow(gic, GicBlock(l), l.virtualCpu, l.virtualCpuSize);
  }

  method FillL2(l2: array<nat>, gib: nat)
    requires IsTable(l2)
    modifies l2
    ensures Holds(l2[..], (i: nat) => gib * GIB + i * BLOCK + DEVICE)
  {
    for i := 0 to ENTRIES
      invariant forall j: nat :: j < i ==> l2[j] == gib * GIB + j * BLOCK + DEVICE
    {
      l2[i] := gib * GIB + i * BLOCK + DEVICE;
    }
  }

  method ProtectGic(root: array<nat>, mmio: array<nat>, l2: array<nat>, gic: array<nat>,
                    addresses: seq<nat>, existing: seq<nat>, l: Layout)
    returns (r: Option<MapError>)
    requires IsTable(root) && IsTable(mmio) && IsTable(l2) && IsTable(gic) && |addresses| == 2
    requires root != mmio && root != l2 && root != gic && mmio != l2 && mmio != gic && l2 != gic
    modifies root, mmio, l2, gic
    ensures !PlacesOk(addresses, existing) ==> r == Some(TablePlacement)
    ensures PlacesOk(addresses, existing) ==>
              r == (if Fits(l) && (GicGib(l) == 1 || (GicGib(l) != 3 && Kind(old(root[..])[GicGib(l)]) == 1))
                    then None else Some(GicLayout))
    ensures r.Some? ==> unchanged(root, mmio, l2, gic)
    ensures r.None? ==> Fits(l) && Holds(gic[..], (i: nat) => GicEntry(l, i))
    ensures r.None? && GicGib(l) == 1 ==>
              unchanged(root) && Holds(mmio[..], (i: nat) =>
                if GIB + i * BLOCK == GicBlock(l) then addresses[1] + 3
                else if i < ENTRIES then old(mmio[..])[i] else 0)
    ensures r.None? && GicGib(l) != 1 ==>
              && unchanged(mmio) && root[..] == old(root[..])[GicGib(l) := addresses[0] + 3]
              && Holds(l2[..], (i: nat) => L2Entry(l, i, addresses[1]))
  {
    var ok := CheckPlaces(addresses, existing);
    if !ok { return Some(TablePlacement); }
    if !Fits(l) { return Some(GicLayout); }
    GibBound(l);
    var gib, block := GicGib(l), GicBlock(l);
    if gib != 1 && (gib == 3 || Kind(root[gib]) != 1) { return Some(GicLayout); }
    var slot := block % GIB / BLOCK;
    ClearTable(l2);
    FillGic(gic, l);
    if gib == 1 {
      mmio[slot] := addresses[1] + 3;
    } else {
      FillL2(l2, gib);
      l2[slot] := addresses[1] + 3;
      root[gib] := addresses[0] + 3;
    }
    return None;
  }

  lemma BlockSlot(q: nat)
    ensures q * BLOCK % GIB / BLOCK == q % ENTRIES && q * BLOCK == q / ENTRIES * GIB + q % ENTRIES * BLOCK
  {
    assert q * BLOCK == q / ENTRIES * GIB + q % ENTRIES * BLOCK;
    assert q * BLOCK % GIB == q % ENTRIES * BLOCK;
  }

  lemma GibBound(l: Layout)
    requires Fits(l)
    ensures GicGib(l) < 64 && GicBlock(l) % GIB / BLOCK < ENTRIES
    ensures GicBlock(l) == GicGib(l) * GIB + GicBlock(l) % GIB / BLOCK * BLOCK
  {
    BlockSlot(l.distributor / BLOCK);
    assert l.distributor / GIB == l.distributor / BLOCK / ENTRIES;
  }

  method ClearWhere(t: array<nat>, base: nat)
    requires IsTable(t)
    modifies t
    ensures Holds(t[..], (i: nat) =>
      if i >= ENTRIES || Controller(base + i * PAGE) || base + i * PAGE == PMC_PAGE then 0 else old(t[..])[i])
  {
    ghost var before := t[..];
    for i := 0 to ENTRIES
      invariant forall j: nat :: j < ENTRIES ==>
        t[j] == if j < i && (Controller(base + j * PAGE) || base + j * PAGE == PMC_PAGE) then 0 else before[j]
    {
      var ipa := base + i * PAGE;
      if Controller(ipa) || ipa == PMC_PAGE { t[i] := 0; }
    }
  }

  method FillCar(car: array<nat>)
    requires IsTable(car)
    modifies car
    ensures Holds(car[..], (i: nat) => CarEntry(i))
  {
    for i := 0 to ENTRIES
      invariant forall j: nat :: j < i ==> car[j] == CarEntry(j)
    {
      var ipa := CAR_BLOCK + i * PAGE;
      car[i] := if ipa == CAR || ipa == LIC then 0 else ipa + DEVICE + 2;
    }
  }

  method ProtectUsb(mmio: array<nat>, pages: array<nat>, car: array<nat>, address: nat, existing: seq<nat>)
    returns (r: Option<MapError>)
    requires IsTable(mmio) && IsTable(pages) && IsTable(car) && mmio != pages && mmio != car && pages != car
    modifies mmio, pages, car
    ensures r == if ResidentTable(address) && address !in existing then None else Some(TablePlacement)
    ensures r.Some? ==> unchanged(mmio, pages, car)
    ensures r.None? ==> Holds(car[..], (i: nat) => CarEntry(i))
    ensures r.None? ==> Holds(pages[..], (i: nat) =>
      if i >= ENTRIES || Controller(MC_BLOCK + i * PAGE) || MC_BLOCK + i * PAGE == PMC_PAGE then 0
      else old(pages[..])[i])
    ensures r.None? ==> Holds(mmio[..], (i: nat) =>
      if GIB + i * BLOCK == CAR_BLOCK then address + 3
      else if i >= ENTRIES || GIB + i * BLOCK == USB_BLOCK then 0 else old(mmio[..])[i])
  {
    if !ResidentTable(address) || address in existing { return Some(TablePlacement); }
    ClearWhere(pages, MC_BLOCK);
    mmio[(USB_BLOCK - GIB) / BLOCK] := 0;
    FillCar(car);
    mmio[(CAR_BLOCK - GIB) / BLOCK] := address + 3;
    return None;
  }

  /** The tables as the page walker finds them. */
  ghost function InMemory(p: Places, root: array<nat>, split: array<nat>, mmio: array<nat>, pages: array<nat>,
                          l2: array<nat>, gic: array<nat>): Memory
    requires IsTable(root) && IsTable(split) && IsTable(mmio) && IsTable(pages) && IsTable(l2) && IsTable(gic)
    reads root, split, mmio, pages, l2, gic
  {
    map[p.root := root[..], p.split := split[..], p.mmio := mmio[..], p.pages := pages[..],
        p.l2 := l2[..], p.gic := gic[..]]
  }

  /** The USB step's own table beside them. */
  ghost function WithCar(m: Memory, p: Places, car: array<nat>): Memory
    requires IsTable(car)
    reads car
  {
    m[p.car := car[..]]
  }

  lemma PlacesPlaced(p: Places)
    requires PlacesOk([p.root, p.split, p.mmio, p.pages], [])
    requires PlacesOk([p.l2, p.gic], [p.root, p.split, p.mmio, p.pages])
    ensures Placed(false, p)
  {
    var a, b := [p.root, p.split, p.mmio, p.pages], [p.l2, p.gic];
    assert a[0] == p.root && a[1] == p.split && a[2] == p.mmio && a[3] == p.pages && b[0] == p.l2 && b[1] == p.gic;
    assert a[0] in a && a[1] in a && a[2] in a && a[3] in a;
  }

  /** The USB step on top of a map built without it. */
  lemma UsbAdds(l: Layout, p: Places, m: Memory, after: Memory)
    requires Built(l, false, p, m) && m.Keys <= after.Keys && p.car in after && CarPlaced(p)
    requires after[p.root] == m[p.root] && after[p.split] == m[p.split] && after[p.gic] == m[p.gic]
    requires p.l2 in m && after[p.l2] == m[p.l2]
    requires Holds(after[p.car], (i: nat) => CarEntry(i))
    requires Holds(after[p.pages], (i: nat) =>
      if i >= ENTRIES || Controller(MC_BLOCK + i * PAGE) || MC_BLOCK + i * PAGE == PMC_PAGE then 0
      else m[p.pages][i])
    requires Holds(after[p.mmio], (i: nat) =>
      if GIB + i * BLOCK == CAR_BLOCK then p.car + 3
      else if i >= ENTRIES || GIB + i * BLOCK == USB_BLOCK then 0 else m[p.mmio][i])
    ensures Built(l, true, p, after)
  {
  }

  /** The error of the first two steps, if any. */
  function GicFault(p: Places, l: Layout): Option<MapError> {
    if !PlacesOk([p.root, p.split, p.mmio, p.pages], []) then Some(TablePlacement)
    else if !PlacesOk([p.l2, p.gic], [p.root, p.split, p.mmio, p.pages]) then Some(TablePlacement)
    else if !Accepted(l) then Some(GicLayout)
    else None
  }

  /** The map without the USB step. */
  method PrepareGic(root: array<nat>, split: array<nat>, mmio: array<nat>, pages: array<nat>, l2: array<nat>,
                    gic: array<nat>, p: Places, l: Layout)
    returns (r: Option<MapError>)
    requires IsTable(root) && IsTable(split) && IsTable(mmio) && IsTable(pages) && IsTable(l2) && IsTable(gic)
    requires root != split && root != mmio && root != pages && root != l2 && root != gic
    requires split != mmio && split != pages && split != l2 && split != gic
    requires mmio != pages && mmio != l2 && mmio != gic && pages != l2 && pages != gic && l2 != gic
    modifies root, split, mmio, pages, l2, gic
    ensures r == GicFault(p, l)
    ensures r.None? ==> Built(l, false, p, InMemory(p, root, split, mmio, pages, l2, gic))
  {
    var built := Build(root, split, mmio, pages, [p.root, p.split, p.mmio, p.pages]);
    if built.Err? { return Some(built.error); }
    if Fits(l) {
      GibBound(l);
      RootKind(l, root[..], p.split, p.mmio);
    }
    r := ProtectGic(root, mmio, l2, gic, [p.l2, p.gic], [p.root, p.split, p.mmio, p.pages], l);
    if r.None? { PlacesPlaced(p); }
  }

  /** Build, protect the GIC and, if asked for, the USB blocks: the finished map, or the first error. */
  method Prepare(root: array<nat>, split: array<nat>, mmio: array<nat>, pages: array<nat>, car: array<nat>,
                 l2: array<nat>, gic: array<nat>, p: Places, usb: bool, l: Layout)
    returns (r: Option<MapError>)
    requires IsTable(root) && IsTable(split) && IsTable(mmio) && IsTable(pages)
    requires IsTable(l2) && IsTable(gic) && IsTable(car)
    requires root != split && root != mmio && root != pages && root != car && root != l2 && root != gic
    requires split != mmio && split != pages && split != car && split != l2 && split != gic
    requires mmio != pages && mmio != car && mmio != l2 && mmio != gic
    requires pages != car && pages != l2 && pages != gic && car != l2 && car != gic && l2 != gic
    modifies root, split, mmio, pages, car, l2, gic
    ensures r == if GicFault(p, l).Some? then GicFault(p, l)
                 else if usb && !CarPlaced(p) then Some(TablePlacement) else None
    ensures r.None? ==> Accepted(l)
    ensures r.None? && !usb ==> Built(l, false, p, InMemory(p, root, split, mmio, pages, l2, gic))
    ensures r.None? && usb ==>
              Built(l, true, p, WithCar(InMemory(p, root, split, mmio, pages, l2, gic), p, car))
  {
    r := PrepareGic(root, split, mmio, pages, l2, gic, p, l);
    if r.Some? || !usb { return; }
    ghost var m := InMemory(p, root, split, mmio, pages, l2, gic);
    r := ProtectUsb(mmio, pages, car, p.car, [p.root, p.split, p.mmio, p.pages, p.l2, p.gic]);
    if r.None? { UsbAdds(l, p, m, WithCar(InMemory(p, root, split, mmio, pages, l2, gic), p, car)); }
  }

  lemma RootKind(l: Layout, root: seq<nat>, split: nat, mmio: nat)
    requires GicGib(l) < 64 && Holds(root, (i: nat) => RootEntry(i, split, mmio))
    ensures GicGib(l) !in {1, 3} ==> Kind(root[GicGib(l)]) == 1
  {
    var g := GicGib(l);
    DeviceDecodes(g * GIB);
    NormalDecodes(g * GIB);
  }
}
