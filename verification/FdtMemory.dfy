/** Subtracting a region from a devicetree's memory, as one function from blob to blob. */
module FdtMemory {
  import opened Types
  import opened FdtRanges
  import opened FdtTokens
  import opened Fdt

  const RESIDENT := Ascii("switchvisor,resident-region")
  const CHOSEN := Ascii("chosen")
  const REG := Ascii("reg")
  const DEVICE_TYPE := Ascii("device_type")
  const MEMORY := Ascii("memory") + [0]
  const ADDRESS_CELLS := Ascii("#address-cells")
  const SIZE_CELLS := Ascii("#size-cells")
  const MAX_MEMORY_NODES := 16

  /** A cell count of the root: given at most once, in one word, as 1 or 2. */
  function CellCount(data: seq<Bytes>, default: nat): (n: Option<nat>)
    requires default in {1, 2}
    ensures n.Some? ==> n.value in {1, 2}
  {
    if data == [] then Some(default)
    else if |data| > 1 || |data[0]| != 4 then None
    else if Word(data[0]) in {1, 2} then Some(Word(data[0])) else None
  }

  function RootCells(vs: seq<Visit>): (c: Option<Cells>)
    ensures c.Some? ==> c.value.Valid()
  {
    var address, size := CellCount(Data(vs, [], ADDRESS_CELLS), 2), CellCount(Data(vs, [], SIZE_CELLS), 1);
    if address.None? || size.None? then None else Some(Cells(address.value, size.value))
  }

  predicate MarksMemory(v: Visit) { v.name == DEVICE_TYPE && v.data == MEMORY && |v.path| <= 1 }

  /** The root and its children that call themselves memory. */
  function MemoryPaths(vs: seq<Visit>): seq<seq<Bytes>> {
    if vs == [] then []
    else (if MarksMemory(vs[0]) then [vs[0].path] else []) + MemoryPaths(vs[1..])
  }

  predicate MemoryOk(vs: seq<Visit>, c: Cells)
    requires c.Valid()
  {
    && |MemoryPaths(vs)| <= MAX_MEMORY_NODES
    && forall p :: p in MemoryPaths(vs) ==>
         |Data(vs, p, REG)| == 1 && |Data(vs, p, DEVICE_TYPE)| == 1 && Banks(Data(vs, p, REG)[0], c).Some?
  }

  // ---- Reservations and strings ------------------------------------------------------------------

  const WIDE := Cells(2, 2)

  function Reserved(entries: Bytes): seq<Bank>
    requires |entries| % 16 == 0
  {
    DecodeBanks(entries, WIDE)
  }

  predicate SameAs(k: Bank, r: Region) { k.start == r.start && k.start + k.size == r.end }

  /** No reservation wraps, and any that meets the region is the region. */
  predicate ReservedOk(bs: seq<Bank>, r: Region) {
    forall i: nat :: i < |bs| && bs[i].size != 0 ==>
      bs[i].start + bs[i].size < U64_LIMIT && (Outside(bs[i], r) || SameAs(bs[i], r))
  }

  predicate Includes(bs: seq<Bank>, r: Region) {
    exists i: nat :: i < |bs| && bs[i].size != 0 && SameAs(bs[i], r)
  }

  function Reserve(entries: Bytes, r: Region): (e: Bytes)
    requires r.Valid() && |entries| % 16 == 0
    ensures |e| % 16 == 0
  {
    if Includes(Reserved(entries), r) then entries else entries + EncodeBank(Bank(r.start, r.end - r.start), WIDE)
  }

  /** The zero-terminated strings of a block; `None` if the last is unterminated. */
  function Strings(s: Bytes): Option<seq<Bytes>>
    decreases |s|
  {
    if s == [] then Some([])
    else
      var n := FirstNul(s);
      if n.None? then None
      else
        var rest := Strings(s[n.value + 1..]);
        if rest.None? then None else Some([s[..n.value]] + rest.value)
  }

  /** The offset of the last string that is `name`, the first being at `base`. */
  function LastNamed(strings: seq<Bytes>, name: Bytes, base: nat): Option<nat> {
    if strings == [] then None
    else
      var later := LastNamed(strings[1..], name, base + |strings[0]| + 1);
      if later.Some? then later else if strings[0] == name then Some(base) else None
  }

  datatype Names = Names(offset: nat, strings: Bytes)

  /** Where the resident property's name is, appended if it was nowhere. */
  function Named(strings: Bytes): Option<Names> {
    match Strings(strings)
    case None => None
    case Some(list) =>
      match LastNamed(list, RESIDENT, 0)
      case None => Some(Names(|strings|, strings + RESIDENT + [0]))
      case Some(offset) => Some(Names(offset, strings))
  }

  // ---- The structure ---------------------------------------------------------------------------------

  datatype Policy = Policy(
    nameOffset: nat, region: Region, cells: Cells, memory: seq<seq<Bytes>>, strings: Bytes)

  function RegionBytes(r: Region): (b: Bytes)
    requires r.Valid()
    ensures |b| == 16
  {
    Be64(r.start) + Be64(r.end - r.start)
  }

  function Publish(p: Policy): Token
    requires p.region.Valid()
  {
    Prop(p.nameOffset, RegionBytes(p.region), [])
  }

  function NewChosen(p: Policy): seq<Token>
    requires p.region.Valid()
  {
    [Begin(CHOSEN, [0]), Publish(p), End]
  }

  predicate InChosen(stack: Stack) { |stack| == 2 && stack[1] == CHOSEN }

  /** What one property becomes: dropped, replaced or kept. */
  function CopyProp(t: Token, stack: Stack, p: Policy): Option<seq<Token>>
    requires t.Prop? && stack != [] && p.cells.Valid()
  {
    var name := NameAt(p.strings, t.nameOffset);
    if name.None? then None
    else if InChosen(stack) && name.value == RESIDENT then Some([])
    else if stack[1..] in p.memory && name.value == REG then
      var data := Subtract(t.data, p.cells, p.region);
      if data.None? || |data.value| >= U32_LIMIT then None else Some([Prop(t.nameOffset, data.value, [])])
    else Some([t])
  }

  /** What one token becomes in a node `stack`; `seen` says whether /chosen was met before it. */
  function CopyToken(t: Token, stack: Stack, seen: bool, p: Policy): Option<seq<Token>>
    requires p.cells.Valid() && p.region.Valid()
  {
    match t
    case Begin(name, _) =>
      if |stack| == 1 && name == CHOSEN then (if seen then None else Some([t, Publish(p)])) else Some([t])
    case End =>
      if stack == [] then None else Some(if |stack| == 1 && !seen then NewChosen(p) + [t] else [t])
    case Prop(_, _, _) => if stack == [] then None else CopyProp(t, stack, p)
    case _ => Some([t])
  }

  function SeenAfter(t: Token, stack: Stack, seen: bool): bool {
    seen || (t.Begin? && |stack| == 1 && t.name == CHOSEN)
  }

  function Copy(ts: seq<Token>, stack: Stack, seen: bool, p: Policy): Option<seq<Token>>
    requires p.cells.Valid() && p.region.Valid()
  {
    if ts == [] then Some([])
    else
      var first := CopyToken(ts[0], stack, seen, p);
      if first.None? then None
      else if ts[0] == Fin then first
      else
        var rest := Copy(ts[1..], StackAfter(ts[0], stack), SeenAfter(ts[0], stack, seen), p);
        if rest.None? then None else Some(first.value + rest.value)
  }

  // ---- The whole ------------------------------------------------------------------------------------------

  datatype Plan = Plan(policy: Policy, entries: Bytes)

  /** Everything that is decided before the first byte is written. */
  function Planned(t: Tree, r: Region): (p: Option<Plan>)
    requires r.Valid() && |t.blob.entries| % 16 == 0
    ensures p.Some? ==> p.value.policy.cells.Valid() && p.value.policy.region == r
  {
    var c := RootCells(t.visits);
    if c.None? || !MemoryOk(t.visits, c.value) || !ReservedOk(Reserved(t.blob.entries), r) then None
    else
      var names := Named(t.blob.strings);
      if names.None? then None
      else
        Some(Plan(Policy(names.value.offset, r, c.value, MemoryPaths(t.visits), names.value.strings),
                  Reserve(t.blob.entries, r)))
  }

  /** The new blob for a tree and a plan, if it can be written. */
  function Rewritten(t: Tree, plan: Plan): Option<Bytes>
    requires plan.policy.cells.Valid() && plan.policy.region.Valid() && |t.blob.header| == HEADER
  {
    var ts := Copy(t.tokens, [], false, plan.policy);
    if ts.None? then None
    else
      var out := Render(Blob(t.blob.header, plan.entries, EncodeAll(ts.value), plan.policy.strings));
      if |out| >= U32_LIMIT then None else Some(out)
  }

  lemma ParsedBlob(input: Bytes)
    requires Parse(input).Some?
    ensures |Parse(input).value.blob.header| == HEADER && |Parse(input).value.blob.entries| % 16 == 0
  {
  }

  /** The blob without the region, refused like any other if it does not parse. */
  function Exclude(input: Bytes, r: Region): Option<Bytes>
    requires r.Valid()
  {
    match Parse(input)
    case None => None
    case Some(t) =>
      ParsedBlob(input);
      match Planned(t, r)
      case None => None
      case Some(plan) =>
        match Rewritten(t, plan)
        case None => None
        case Some(out) => if Parse(out).Some? then Some(out) else None
  }
}
