/** Which error is reported for what, by the words and nodes of the blob. */
module FdtErrors {
  import opened Types
  import opened FdtRanges
  import opened FdtTokens
  import opened FdtFaults
  import opened FdtLayout
  import F = Fdt
  import M = FdtMemory

  // ---- The header ----------------------------------------------------------------------------------

  /** A header that is refused: first its magic number and length, then its version and alignment, then the blocks. */
  lemma BlocksFaultExact(input: Bytes)
    ensures
      BlocksFault(input)
      == if |input| < 40 || WordAt(input, 0) != 0xd00d_feed || WordAt(input, 4) < 40 then Header
         else if WordAt(input, 4) > |input| then Truncated
         else if WordAt(input, 20) != 17 || WordAt(input, 24) > 17 || WordAt(input, 8) % 4 != 0
                 || WordAt(input, 16) % 8 != 0 then Header
         else if WordAt(input, 8) + WordAt(input, 36) > WordAt(input, 4)
                 || WordAt(input, 12) + WordAt(input, 32) > WordAt(input, 4) then Truncated
         else if WordAt(input, 16) > WordAt(input, 4)
                 || F.Entries(input[WordAt(input, 16)..WordAt(input, 4)]).None? then ReservationTable
         else BlockOverlap
  {
    if |input| >= 40 && 40 <= WordAt(input, 4) <= |input| {
      var b := input[..WordAt(input, 4)];
      FieldsAre(input, b);
      if WordAt(input, 16) <= |b| { Slices(input, b, WordAt(input, 16), |b|); }
    }
  }

  // ---- The walk --------------------------------------------------------------------------------------

  /** A piece that starts no token, or one that is not in place. */
  lemma TokenFaultExact(b: Bytes, stack: F.Stack, rootSeen: bool, strings: Bytes)
    ensures |b| == 0 ==> TokenFault(b, stack, rootSeen, strings) == Structure
    ensures 0 < |b| < 4 ==> TokenFault(b, stack, rootSeen, strings) == Truncated
    ensures
      |b| >= 4 && Word(b[..4]) == 1 ==>
        TokenFault(b, stack, rootSeen, strings)
        == match FirstNul(b[4..])
           case None => String
           case Some(n) =>
             var name := b[4..4 + n];
             if !F.Utf8(name) then String
             else if (if |stack| == 0 then rootSeen || |name| > 0 else |name| == 0 || 47 in name) then Structure
             else if |stack| >= 32 || (|name| > 0 && F.PathLength(stack) + |name| + 1 > 512) then PathCapacity
             else Structure
    ensures
      |b| >= 4 && Word(b[..4]) == 3 ==>
        TokenFault(b, stack, rootSeen, strings)
        == if |stack| == 0 then Structure
           else if |b| < 12 || |b| < 12 + Word(b[4..8]) then Truncated
           else if F.NameAt(strings, Word(b[8..12])).None? then String else Structure
    ensures |b| >= 4 && Word(b[..4]) !in {1, 3} ==> TokenFault(b, stack, rootSeen, strings) == Structure
  {
  }

  // ---- Planning ------------------------------------------------------------------------------------------

  /** A cell count given twice, or once and not soundly. */
  lemma CountFaultExact(data: seq<Bytes>)
    ensures CountFault(data) == if |data| >= 2 then DuplicateProperty else MemoryCells
  {
  }

  /** A memory node with a property too many, or without banks, with unsound ones or beyond the sixteenth. */
  lemma NodeFaultExact(visits: seq<F.Visit>, path: seq<Bytes>, c: Cells, count: nat)
    requires c.Valid()
    ensures
      var reg, kind := F.Data(visits, path, Ascii("reg")), F.Data(visits, path, Ascii("device_type"));
      NodeFault(visits, path, c, count)
      == if |reg| == 0 then Some(MemoryRanges)
         else if |reg| > 1 || |kind| > 1 then Some(DuplicateProperty)
         else if count >= 16 || Banks(reg[0], c).None? then Some(MemoryRanges) else None
  {
  }

  /** How many memory nodes among the first `i` visits have been taken. */
  function Counted(visits: seq<F.Visit>, c: Cells, i: nat): nat
    requires c.Valid() && i <= |visits|
    decreases i, 0
  {
    if i == 0 then 0
    else
      Counted(visits, c, i - 1)
      + if M.MarksMemory(visits[i - 1]) && NodeError(visits, c, i - 1).None? then 1 else 0
  }

  /** What is wrong with the memory node that visit `i` marks. */
  function NodeError(visits: seq<F.Visit>, c: Cells, i: nat): Option<FdtError>
    requires c.Valid() && i < |visits|
    decreases i, 1
  {
    NodeFault(visits, visits[i].path, c, Counted(visits, c, i))
  }

  predicate Faulty(visits: seq<F.Visit>, c: Cells, j: nat)
    requires c.Valid() && j < |visits|
  {
    M.MarksMemory(visits[j]) && NodeError(visits, c, j).Some?
  }

  lemma {:induction false} MemoryFaultFrom(visits: seq<F.Visit>, c: Cells, i: nat, before: Option<FdtError>)
    returns (j: Option<nat>)
    requires c.Valid() && i <= |visits|
    ensures j.Some? ==> i <= j.value < |visits| && Faulty(visits, c, j.value)
    ensures forall k: nat :: i <= k < |visits| && (j.Some? ==> k > j.value) ==> !Faulty(visits, c, k)
    ensures
      MemoryFault(visits, visits[i..], c, Counted(visits, c, i), before)
      == if j.Some? then NodeError(visits, c, j.value) else before
    decreases |visits| - i
  {
    j := None;
    if i < |visits| {
      assert visits[i..][1..] == visits[i + 1..];
      j := MemoryFaultFrom(visits, c, i + 1, if Faulty(visits, c, i) then NodeError(visits, c, i) else before);
      if j.None? && Faulty(visits, c, i) { j := Some(i); }
    }
  }

  /** Of several faults in the memory nodes the last is reported; without any the nodes are all right. */
  lemma {:induction false} MemoryFaultExact(visits: seq<F.Visit>, c: Cells) returns (j: Option<nat>)
    requires c.Valid()
    ensures j.Some? ==> j.value < |visits| && Faulty(visits, c, j.value)
    ensures forall k: nat :: k < |visits| && (j.Some? ==> k > j.value) ==> !Faulty(visits, c, k)
    ensures
      MemoryFault(visits, visits, c, 0, None) == if j.Some? then NodeError(visits, c, j.value) else None
  {
    assert visits[0..] == visits && Counted(visits, c, 0) == 0;
    j := MemoryFaultFrom(visits, c, 0, None);
  }

  /** Of several reservations that may not stay the first is reported. */
  lemma {:induction false} ReservedFaultFirst(bs: seq<Bank>, r: Region) returns (i: nat)
    requires r.Valid() && ReservedFault(bs, r).Some?
    ensures i < |bs| && bs[i].size > 0 && ReservedFault(bs[..i], r).None?
    ensures
      if bs[i].start + bs[i].size > 0xffff_ffff_ffff_ffff then ReservedFault(bs, r) == Some(MemoryRanges)
      else
        && ReservedFault(bs, r) == Some(ReservationConflict)
        && r.start < bs[i].start + bs[i].size && bs[i].start < r.end && bs[i] != Bank(r.start, r.end - r.start)
  {
    var k := bs[0];
    if k.size != 0 && (k.start + k.size >= U64_LIMIT || (!Outside(k, r) && !M.SameAs(k, r))) {
      i := 0;
      assert bs[..0] == [];
    } else {
      var j := ReservedFaultFirst(bs[1..], r);
      i := j + 1;
      var front := bs[..i];
      assert front[0] == k && front[1..] == bs[1..][..j];
      assert ReservedFault(front, r) == ReservedFault(front[1..], r);
    }
  }

  /** Cell counts come before memory nodes, those before reservations, and an unterminated string comes last. */
  lemma PlanFaultExact(t: F.Tree, r: Region)
    requires r.Valid() && |t.blob.entries| % 16 == 0
    ensures
      var address, size := F.Data(t.visits, [], Ascii("#address-cells")), F.Data(t.visits, [], Ascii("#size-cells"));
      PlanFault(t, r)
      == if M.CellCount(address, 2).None? then CountFault(address)
         else if M.CellCount(size, 1).None? then CountFault(size)
         else
           var c := Cells(M.CellCount(address, 2).value, M.CellCount(size, 1).value);
           if MemoryFault(t.visits, t.visits, c, 0, None).Some?
           then MemoryFault(t.visits, t.visits, c, 0, None).value
           else if ReservedFault(M.Reserved(t.blob.entries), r).Some?
           then ReservedFault(M.Reserved(t.blob.entries), r).value else String
  {
  }

  // ---- Writing -------------------------------------------------------------------------------------------

  /** How far a `reg` is written before a number that does not fit: whole banks, and one start if a size is too long. */
  lemma {:induction false} FittingExact(left: seq<Bank>, c: Cells, i: nat)
    requires c.Valid() && i <= |left| && (forall k: nat :: k < i ==> Fits(left[k], c))
    requires i < |left| ==> !Fits(left[i], c)
    ensures
      FittingBytes(left, c)
      == i * (4 * c.address + 4 * c.size)
         + if i < |left| && left[i].start < Limit(c.address) then 4 * c.address else 0
  {
    if i > 0 {
      FittingExact(left[1..], c, i - 1);
      Scaled(i, 4 * c.address + 4 * c.size);
    }
  }

  lemma Scaled(i: nat, n: nat)
    requires i > 0
    ensures i * n == (i - 1) * n + n
  {
  }

  /** Why a token is not copied, and how much of it is written before: a second /chosen whole, a `reg` up to there. */
  lemma CopyStopExact(t: Token, stack: F.Stack, p: M.Policy)
    requires p.cells.Valid()
    ensures t.Begin? ==> CopyStop(t, stack, p) == Stop(|Encode(t)|, Structure)
    ensures
      t.Prop? && |stack| > 0 && F.NameAt(p.strings, t.nameOffset).Some? && Banks(t.data, p.cells).Some? ==>
        var left := RestAll(Banks(t.data, p.cells).value, p.region);
        CopyStop(t, stack, p)
        == if |left| * (4 * p.cells.address + 4 * p.cells.size) > 0xffff_ffff then Stop(4, OutputCapacity)
           else Stop(12 + FittingBytes(left, p.cells), MemoryRanges)
  {
  }

  /** A token stops the copy if it is not copied, or if there is no room for it; room is looked at first. */
  lemma {:induction false} TokenStopExact(
    t: Token, stack: F.Stack, seen: bool, p: M.Policy, pos: nat, room: nat)
    requires p.cells.Valid() && p.region.Valid()
    ensures
      M.CopyToken(t, stack, seen, p).Some? ==>
        (TokenStop(t, stack, seen, p, pos, room)
         == if pos + |EncodeAll(M.CopyToken(t, stack, seen, p).value)| <= room then None else Some(OutputCapacity))
    ensures
      M.CopyToken(t, stack, seen, p).None? ==>
        var stop := CopyStop(t, stack, p);
        TokenStop(t, stack, seen, p, pos, room)
        == if pos + stop.written <= room then Some(stop.error) else Some(OutputCapacity)
  {
  }

  /** A copied token takes up as much as what it is copied to. */
  lemma {:induction false} CopyLengthExact(t: Token, stack: F.Stack, seen: bool, p: M.Policy)
    requires p.cells.Valid() && p.region.Valid() && M.CopyToken(t, stack, seen, p).Some?
    ensures CopyLength(t, stack, seen, p) == |EncodeAll(M.CopyToken(t, stack, seen, p).value)|
  {
  }

  /** Header, gap and reservations come before the structure; whatever does not stop there runs out of room after it. */
  lemma WriteFaultExact(tokens: seq<Token>, plan: M.Plan, room: nat)
    requires plan.policy.cells.Valid() && plan.policy.region.Valid()
    ensures 40 + 8 + |plan.entries| + 16 > room ==> WriteFault(tokens, plan, room) == OutputCapacity
    ensures
      40 + 8 + |plan.entries| + 16 <= room ==>
        var stop := CopyFault(tokens, [], false, plan.policy, 40 + 8 + |plan.entries| + 16, room);
        WriteFault(tokens, plan, room) == if stop.Some? then stop.value else OutputCapacity
  {
  }
}
