/**
 Which error an exclusion that fails reports: the first one met, in the order in which the program reads
 the header, walks the structure, plans and writes. Only the memory nodes report their last one.
 */
module FdtFaults {
  import opened Types
  import opened FdtRanges
  import opened FdtTokens
  import F = Fdt
  import M = FdtMemory

  datatype FdtError =
    | Truncated | Header | BlockOverlap | ReservationTable | Structure | String | PathCapacity
    | DuplicateProperty | OutputCapacity | MemoryCells | MemoryRanges | ReservationConflict

  // ---- The header -------------------------------------------------------------------------------

  function BlocksFault(input: Bytes): FdtError {
    if |input| < F.HEADER || F.Field(input, 0) != F.MAGIC || F.Field(input, 4) < F.HEADER then Header
    else if F.Field(input, 4) > |input| then Truncated
    else
      var b := input[..F.Field(input, 4)];
      if F.Field(b, 20) != 17 || F.Field(b, 24) > 17 || F.Field(b, 8) % 4 != 0 || F.Field(b, 16) % 8 != 0 then Header
      else if F.Field(b, 8) + F.Field(b, 36) > |b| || F.Field(b, 12) + F.Field(b, 32) > |b| then Truncated
      else if F.Field(b, 16) > |b| || F.Entries(b[F.Field(b, 16)..]).None? then ReservationTable
      else BlockOverlap
  }

  // ---- The walk -----------------------------------------------------------------------------------

  /** A node that may not be entered: its name is looked at before its place, and its place before room. */
  function EnterFault(stack: F.Stack, rootSeen: bool, name: Bytes): FdtError {
    if !F.Utf8(name) then String
    else if stack == [] && (rootSeen || name != []) then Structure
    else if stack != [] && (name == [] || F.SLASH in name) then Structure
    else PathCapacity
  }

  /** The error if the walk does not get past the token at the front of `b`. */
  function TokenFault(b: Bytes, stack: F.Stack, rootSeen: bool, strings: Bytes): FdtError {
    if b == [] then Structure
    else if |b| < 4 then Truncated
    else if Word(b[..4]) == 1 then
      var n := FirstNul(b[4..]);
      if n.None? then String
      else if !F.MayEnter(stack, rootSeen, b[4..4 + n.value]) then EnterFault(stack, rootSeen, b[4..4 + n.value])
      else Structure
    else if Word(b[..4]) == 3 then
      if stack == [] then Structure
      else if |b| < 12 || 12 + Word(b[4..8]) > |b| then Truncated
      else if F.NameAt(strings, Word(b[8..12])).None? then String
      else Structure
    else Structure
  }

  /** The error at which the walk from here stops, if it does. */
  function WalkFault(b: Bytes, stack: F.Stack, rootSeen: bool, strings: Bytes): Option<FdtError>
    decreases |b|
  {
    match First(b)
    case None => Some(TokenFault(b, stack, rootSeen, strings))
    case Some(t) =>
      if F.Step(t, stack, rootSeen, strings).None? then Some(TokenFault(b, stack, rootSeen, strings))
      else if t == Fin then if Zero(b[4..]) then None else Some(Structure)
      else
        FirstIs(b);
        WalkFault(b[|Encode(t)|..], F.StackAfter(t, stack), rootSeen || t.Begin?, strings)
  }

  // ---- Planning -------------------------------------------------------------------------------------

  function CountFault(data: seq<Bytes>): FdtError { if |data| > 1 then DuplicateProperty else MemoryCells }

  /** What is wrong with a memory node when `count` have been taken before it. */
  function NodeFault(visits: seq<F.Visit>, path: seq<Bytes>, c: Cells, count: nat): Option<FdtError>
    requires c.Valid()
  {
    var reg := F.Data(visits, path, M.REG);
    if |reg| > 1 then Some(DuplicateProperty)
    else if reg == [] then Some(MemoryRanges)
    else if |F.Data(visits, path, M.DEVICE_TYPE)| > 1 then Some(DuplicateProperty)
    else if count >= M.MAX_MEMORY_NODES || Banks(reg[0], c).None? then Some(MemoryRanges)
    else None
  }

  /** The last error of the memory nodes among `rest`, or `before` if they have none. */
  function MemoryFault(visits: seq<F.Visit>, rest: seq<F.Visit>, c: Cells, count: nat, before: Option<FdtError>)
    : Option<FdtError>
    requires c.Valid()
    decreases rest
  {
    if rest == [] then before
    else if !M.MarksMemory(rest[0]) then MemoryFault(visits, rest[1..], c, count, before)
    else
      var f := NodeFault(visits, rest[0].path, c, count);
      if f.Some? then MemoryFault(visits, rest[1..], c, count, f)
      else MemoryFault(visits, rest[1..], c, count + 1, before)
  }

  /** The first reservation that wraps or meets the region without being it. */
  function ReservedFault(bs: seq<Bank>, r: Region): Option<FdtError> {
    if bs == [] then None
    else if bs[0].size != 0 && bs[0].start + bs[0].size >= U64_LIMIT then Some(MemoryRanges)
    else if bs[0].size != 0 && !Outside(bs[0], r) && !M.SameAs(bs[0], r) then Some(ReservationConflict)
    else ReservedFault(bs[1..], r)
  }

  function PlanFault(t: F.Tree, r: Region): FdtError
    requires r.Valid() && |t.blob.entries| % 16 == 0
  {
    var address, size := F.Data(t.visits, [], M.ADDRESS_CELLS), F.Data(t.visits, [], M.SIZE_CELLS);
    if M.CellCount(address, 2).None? then CountFault(address)
    else if M.CellCount(size, 1).None? then CountFault(size)
    else
      var memory := MemoryFault(t.visits, t.visits, M.RootCells(t.visits).value, 0, None);
      var reserved := ReservedFault(M.Reserved(t.blob.entries), r);
      if memory.Some? then memory.value else if reserved.Some? then reserved.value else String
  }

  // ---- Writing ----------------------------------------------------------------------------------------

  /** What a token that cannot be copied writes before it is given up, and why it is. */
  datatype Stop = Stop(written: nat, error: FdtError)

  /** The bytes of the numbers before the first that does not fit its cells. */
  function FittingBytes(left: seq<Bank>, c: Cells): nat
    requires c.Valid()
  {
    if left == [] then 0
    else if left[0].start >= Limit(c.address) then 0
    else if left[0].size >= Limit(c.size) then 4 * c.address
    else c.Stride() + FittingBytes(left[1..], c)
  }

  function RangesStop(data: Bytes, c: Cells, r: Region): Stop
    requires c.Valid()
  {
    var banks := Banks(data, c);
    if banks.None? then Stop(0, MemoryRanges)
    else
      var left := RestAll(banks.value, r);
      if |left| * c.Stride() >= U32_LIMIT then Stop(4, OutputCapacity)
      else Stop(12 + FittingBytes(left, c), MemoryRanges)
  }

  function CopyStop(t: Token, stack: F.Stack, p: M.Policy): Stop
    requires p.cells.Valid()
  {
    match t
    case Begin(_, _) => Stop(|Encode(t)|, Structure)
    case Prop(offset, data, _) =>
      if stack == [] then Stop(0, Structure)
      else if F.NameAt(p.strings, offset).None? then Stop(0, String)
      else RangesStop(data, p.cells, p.region)
    case _ => Stop(0, Structure)
  }

  /** How much one token writes, if it can be copied. */
  function CopyLength(t: Token, stack: F.Stack, seen: bool, p: M.Policy): nat
    requires p.cells.Valid() && p.region.Valid()
  {
    match M.CopyToken(t, stack, seen, p) case None => 0 case Some(out) => |EncodeAll(out)|
  }

  /** The error of copying one token with `pos` bytes written of `room`, if there is one. */
  function TokenStop(t: Token, stack: F.Stack, seen: bool, p: M.Policy, pos: nat, room: nat): Option<FdtError>
    requires p.cells.Valid() && p.region.Valid()
  {
    if M.CopyToken(t, stack, seen, p).None? then
      var s := CopyStop(t, stack, p);
      Some(if pos + s.written > room then OutputCapacity else s.error)
    else if pos + CopyLength(t, stack, seen, p) > room then Some(OutputCapacity)
    else None
  }

  /** The error at which copying stops, if it does. */
  function CopyFault(ts: seq<Token>, stack: F.Stack, seen: bool, p: M.Policy, pos: nat, room: nat): Option<FdtError>
    requires p.cells.Valid() && p.region.Valid()
    decreases ts
  {
    if ts == [] then None
    else
      var stop := TokenStop(ts[0], stack, seen, p, pos, room);
      if stop.Some? || ts[0] == Fin then stop
      else
        CopyFault(ts[1..], F.StackAfter(ts[0], stack), M.SeenAfter(ts[0], stack, seen), p,
                  pos + CopyLength(ts[0], stack, seen, p), room)
  }

  function WriteFault(tokens: seq<Token>, plan: M.Plan, room: nat): FdtError
    requires plan.policy.cells.Valid() && plan.policy.region.Valid()
  {
    var start := 64 + |plan.entries|;
    if start > room then OutputCapacity
    else
      match CopyFault(tokens, [], false, plan.policy, start, room)
      case Some(e) => e
      case None => OutputCapacity
  }

  // ---- The whole ------------------------------------------------------------------------------------------

  /** The error of reading a blob. */
  function ParseFault(input: Bytes): FdtError {
    match F.Blocks(input)
    case None => BlocksFault(input)
    case Some(blob) =>
      match WalkFault(blob.structure, [], false, blob.strings)
      case Some(e) => e
      case None => Structure
  }

  /** The error of an exclusion into `room` bytes. */
  function Fault(input: Bytes, r: Region, room: nat): FdtError
    requires r.Valid()
  {
    match F.Parse(input)
    case None => ParseFault(input)
    case Some(t) =>
      M.ParsedBlob(input);
      match M.Planned(t, r)
      case None => PlanFault(t, r)
      case Some(plan) =>
        var out := M.Rewritten(t, plan);
        if out.None? || |out.value| > room then WriteFault(t.tokens, plan, room) else ParseFault(out.value)
  }

  // ---- Errors are reported exactly for what is refused ----------------------------------------------------

  /** The walk has an error exactly when the structure is not accepted. */
  lemma {:induction false} WalkFaultExact(b: Bytes, stack: F.Stack, rootSeen: bool, strings: Bytes)
    ensures WalkFault(b, stack, rootSeen, strings).None?
       <==> Decode(b).Some? && F.Walk(Decode(b).value, stack, rootSeen, strings).Some?
    decreases |b|
  {
    var t := First(b);
    if t.Some? && t.value != Fin {
      FirstIs(b);
      var rest := b[|Encode(t.value)|..];
      WalkFaultExact(rest, F.StackAfter(t.value, stack), rootSeen || t.value.Begin?, strings);
      if Decode(rest).Some? { assert ([t.value] + Decode(rest).value)[1..] == Decode(rest).value; }
    } else if t == Some(Fin) {
      assert F.Walk([Fin], stack, rootSeen, strings) == F.Step(Fin, stack, rootSeen, strings);
    }
  }

  /** The reservations have one exactly when they are not all right. */
  lemma {:induction false} ReservedFaultExact(bs: seq<Bank>, r: Region)
    ensures ReservedFault(bs, r).None? <==> M.ReservedOk(bs, r)
  {
    if bs != [] {
      ReservedFaultExact(bs[1..], r);
      assert bs == [bs[0]] + bs[1..];
      assert forall i: nat :: 0 < i < |bs| ==> bs[i] == bs[1..][i - 1];
      assert forall i: nat :: i < |bs[1..]| ==> bs[1..][i] == bs[i + 1];
    }
  }
}
