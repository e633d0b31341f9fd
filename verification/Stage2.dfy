/**
 The stage-2 map as arithmetic: what each table entry is, and what a page walk over the finished
 tables returns. Descriptors are 64-bit words; a walk looks tables up by their physical address.
 */
module Stage2 {
  import opened Types

  const PAGE := 0x1000
  const BLOCK := 0x20_0000
  const GIB := 0x4000_0000
  const ENTRIES := 512
  const IPA_LIMIT := 0x10_0000_0000
  const RAM_BASE := 0x8000_0000
  const RESIDENT_BASE := 0xfec0_0000
  const RESIDENT_END := 0xffc0_0000
  const MC := 0x7001_9000
  const UART := 0x700f_f000
  const VIRTIO := 0x700f_e000
  const CAR := 0x6000_6000
  const LIC := 0x6000_4000
  const PMC_PAGE := 0x7000_e000
  const USB_BLOCK := 0x7d00_0000
  const MC_BLOCK := 0x7000_0000
  const CAR_BLOCK := 0x6000_0000
  /** Read-write, inner-shareable, accessed, as a block: normal memory, or execute-never device. */
  const NORMAL := 0x7fd
  const DEVICE := 0x40_0000_0000_07c1
  const VMID := 0x1_0000_0000_0000

  type Table = t: seq<nat> | |t| == ENTRIES witness seq(ENTRIES, _ => 0)

  datatype Layout = Layout(
    distributor: nat, distributorSize: nat, cpu: nat, cpuSize: nat,
    hypervisor: nat, hypervisorSize: nat, virtualCpu: nat, virtualCpuSize: nat)

  datatype MapError = TablePlacement | GicLayout

  predicate Within(base: nat, size: nat, a: nat) { base <= a < base + size }

  predicate Resident(a: nat) { RESIDENT_BASE <= a < RESIDENT_END }

  predicate ResidentTable(a: nat) { a % PAGE == 0 && RESIDENT_BASE <= a && a + PAGE <= RESIDENT_END }

  predicate PageRange(base: nat, size: nat) {
    && base + size < U64_LIMIT && base % PAGE == 0 && size != 0 && size % PAGE == 0 && base + size <= IPA_LIMIT
    && base / BLOCK == (base + size - 1) / BLOCK
  }

  predicate Apart(a: nat, aSize: nat, b: nat, bSize: nat) { !(a < b + bSize && b < a + aSize) }

  /** What the code demands of a GIC layout before it touches a table. */
  predicate Fits(l: Layout) {
    && PageRange(l.distributor, l.distributorSize) && PageRange(l.cpu, l.cpuSize)
    && PageRange(l.hypervisor, l.hypervisorSize) && PageRange(l.virtualCpu, l.virtualCpuSize)
    && l.cpuSize <= l.virtualCpuSize
    && l.cpu / BLOCK == l.distributor / BLOCK && l.hypervisor / BLOCK == l.distributor / BLOCK
    && l.virtualCpu / BLOCK == l.distributor / BLOCK
    && Apart(l.distributor, l.distributorSize, l.cpu, l.cpuSize)
    && Apart(l.distributor, l.distributorSize, l.hypervisor, l.hypervisorSize)
    && Apart(l.distributor, l.distributorSize, l.virtualCpu, l.virtualCpuSize)
    && Apart(l.cpu, l.cpuSize, l.hypervisor, l.hypervisorSize)
    && Apart(l.cpu, l.cpuSize, l.virtualCpu, l.virtualCpuSize)
    && Apart(l.hypervisor, l.hypervisorSize, l.virtualCpu, l.virtualCpuSize)
  }

  function GicBlock(l: Layout): nat { l.distributor / BLOCK * BLOCK }

  function GicGib(l: Layout): nat { l.distributor / GIB }

  // ---- Table contents ---------------------------------------------------------------------------

  function Block(a: nat): nat { a + if a < RAM_BASE then DEVICE else NORMAL }

  function Leaf(a: nat): nat { a + DEVICE + 2 }

  function RootStart(i: nat): nat { if i < IPA_LIMIT / GIB then Block(i * GIB) else 0 }

  function RootEntry(i: nat, split: nat, mmio: nat): nat {
    if i == 1 then mmio + 3 else if i == 3 then split + 3 else RootStart(i)
  }

  function SplitEntry(i: nat): nat {
    var a := 3 * GIB + i * BLOCK;
    if Resident(a) then 0 else a + NORMAL
  }

  function MmioStart(i: nat): nat { GIB + i * BLOCK + DEVICE }

  function MmioEntry(i: nat, pages: nat): nat { if GIB + i * BLOCK == MC_BLOCK then pages + 3 else MmioStart(i) }

  function PagesEntry(i: nat): nat {
    var a := MC_BLOCK + i * PAGE;
    if a == MC || a == UART || a == VIRTIO then 0 else Leaf(a)
  }

  /** A page of the GIC's block: the guest's CPU interface shows GICV, the other windows nothing. */
  function GicEntry(l: Layout, i: nat): nat {
    var a := GicBlock(l) + i * PAGE;
    if Within(l.cpu, l.cpuSize, a) then Leaf(l.virtualCpu + (a - l.cpu)) else if Hidden(l, a) then 0 else Leaf(a)
  }

  predicate Hidden(l: Layout, a: nat) {
    || Within(l.distributor, l.distributorSize, a) || Within(l.hypervisor, l.hypervisorSize, a)
    || Within(l.virtualCpu, l.virtualCpuSize, a)
  }

  function L2Entry(l: Layout, i: nat, pages: nat): nat {
    var a := GicGib(l) * GIB + i * BLOCK;
    if a == GicBlock(l) then pages + 3 else a + DEVICE
  }

  predicate Controller(a: nat) {
    Within(0x7009_0000, 0x1_0000, a) || Within(0x700d_0000, 0x1_0000, a) || Within(USB_BLOCK, BLOCK, a)
  }

  function CarEntry(i: nat): nat {
    var a := CAR_BLOCK + i * PAGE;
    if a == CAR || a == LIC then 0 else Leaf(a)
  }

  // ---- The walk -------------------------------------------------------------------------------------

  function Kind(d: nat): nat { d % 4 }

  /** Output or next-table address: bits 12 to 35. */
  function Target(d: nat): nat { d / PAGE % 0x100_0000 * PAGE }

  type Memory = map<nat, Table>

  /** Armv8.0, 36-bit IPA, 4 KiB granule, starting at level 1. */
  function Walk(m: Memory, root: nat, ipa: nat): Option<nat> {
    if ipa >= IPA_LIMIT || root !in m then None
    else
      var d := m[root][ipa / GIB];
      if Kind(d) == 1 then Some(Target(d) / GIB * GIB + ipa % GIB)
      else if Kind(d) == 3 then WalkBlock(m, Target(d), ipa)
      else None
  }

  function WalkBlock(m: Memory, table: nat, ipa: nat): Option<nat> {
    if table !in m then None
    else
      var d := m[table][ipa / BLOCK % ENTRIES];
      if Kind(d) == 1 then Some(Target(d) / BLOCK * BLOCK + ipa % BLOCK)
      else if Kind(d) == 3 then WalkPage(m, Target(d), ipa)
      else None
  }

  function WalkPage(m: Memory, table: nat, ipa: nat): Option<nat> {
    if table !in m then None
    else
      var d := m[table][ipa / PAGE % ENTRIES];
      if Kind(d) == 3 then Some(Target(d) + ipa % PAGE) else None
  }

  // ---- The finished tables -----------------------------------------------------------------------------

  datatype Places = Places(root: nat, split: nat, mmio: nat, pages: nat, l2: nat, gic: nat, car: nat)

  /** Distinct pages of resident RAM: six, and a seventh if the USB blocks are protected too. */
  predicate Placed(usb: bool, p: Places) {
    && ResidentTable(p.root) && ResidentTable(p.split) && ResidentTable(p.mmio) && ResidentTable(p.pages)
    && ResidentTable(p.l2) && ResidentTable(p.gic)
    && p.root !in {p.split, p.mmio, p.pages, p.l2, p.gic} && p.split !in {p.mmio, p.pages, p.l2, p.gic}
    && p.mmio !in {p.pages, p.l2, p.gic} && p.pages !in {p.l2, p.gic} && p.l2 != p.gic
    && (usb ==> CarPlaced(p))
  }

  predicate CarPlaced(p: Places) { ResidentTable(p.car) && p.car !in [p.root, p.split, p.mmio, p.pages, p.l2, p.gic] }

  function FinalRoot(l: Layout, p: Places, i: nat): nat {
    if i == GicGib(l) && i != 1 then p.l2 + 3 else RootEntry(i, p.split, p.mmio)
  }

  function FinalMmio(l: Layout, usb: bool, p: Places, i: nat): nat {
    var a := GIB + i * BLOCK;
    if usb && a == CAR_BLOCK then p.car + 3
    else if usb && a == USB_BLOCK then 0
    else if a == GicBlock(l) then p.gic + 3
    else MmioEntry(i, p.pages)
  }

  function FinalPages(usb: bool, i: nat): nat {
    var a := MC_BLOCK + i * PAGE;
    if usb && (Controller(a) || a == PMC_PAGE) then 0 else PagesEntry(i)
  }

  ghost predicate Holds(t: seq<nat>, f: nat -> nat) {
    |t| == ENTRIES && forall i: nat :: i < ENTRIES ==> t[i] == f(i)
  }

  /**
   Memory in which the tables are finished: built, the GIC protected and, for `usb`, the USB blocks
   protected. Tables that nothing points to may hold anything.
   */
  ghost predicate Built(l: Layout, usb: bool, p: Places, m: Memory) {
    && Placed(usb, p) && p.root in m && p.split in m && p.mmio in m && p.pages in m && p.gic in m
    && Holds(m[p.root], (i: nat) => FinalRoot(l, p, i)) && Holds(m[p.split], (i: nat) => SplitEntry(i))
    && Holds(m[p.mmio], (i: nat) => FinalMmio(l, usb, p, i)) && Holds(m[p.pages], (i: nat) => FinalPages(usb, i))
    && Holds(m[p.gic], (i: nat) => GicEntry(l, i))
    && (GicGib(l) != 1 ==> p.l2 in m && Holds(m[p.l2], (i: nat) => L2Entry(l, i, p.gic)))
    && (usb ==> p.car in m && Holds(m[p.car], (i: nat) => CarEntry(i)))
  }

  // ---- What the guest should see -------------------------------------------------------------------------

  function PageBase(a: nat): nat { a / PAGE * PAGE }

  /** Pages whose accesses are emulated or refused. */
  predicate Trapped(usb: bool, a: nat) {
    || PageBase(a) == MC || PageBase(a) == UART || PageBase(a) == VIRTIO
    || (usb && (PageBase(a) == CAR || PageBase(a) == LIC || PageBase(a) == PMC_PAGE || Controller(a)))
  }

  /** The intended map: identity but for GICC, which shows GICV, and for what must not be reachable. */
  function Intended(l: Layout, usb: bool, ipa: nat): Option<nat> {
    if ipa >= IPA_LIMIT then None
    else if Within(l.cpu, l.cpuSize, ipa) then Some(l.virtualCpu + (ipa - l.cpu))
    else if Hidden(l, ipa) || Resident(ipa) || Trapped(usb, ipa) then None
    else Some(ipa)
  }

  /**
   When the three steps do not get in each other's way: the GIC's block is not one that the USB step
   replaces, and if it is the MC block, every trapped page in it lies in a GIC window.
   */
  predicate Compatible(l: Layout, usb: bool) {
    && (usb ==> GicBlock(l) != CAR_BLOCK && GicBlock(l) != USB_BLOCK)
    && (GicBlock(l) == MC_BLOCK ==>
          forall i: nat :: i < ENTRIES && Trapped(usb, MC_BLOCK + i * PAGE) ==>
            Hidden(l, MC_BLOCK + i * PAGE) || Within(l.cpu, l.cpuSize, MC_BLOCK + i * PAGE))
  }
}
