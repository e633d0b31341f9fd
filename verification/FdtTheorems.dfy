/** Excluding a region from a devicetree: meaning, acceptance and idempotence. */
module FdtTheorems {
  import opened Types
  import opened FdtRanges
  import opened FdtTokens
  import opened Fdt
  import opened FdtMemory
  import opened FdtCopy
  import opened FdtMeaning
  import opened FdtNames
  import opened FdtExclude

  /** The stages of an exclusion that reach the final re-parse. */
  ghost predicate Reaches(input: Bytes, r: Region, t: Tree, plan: Plan, ts: seq<Token>, out: Bytes) {
    && r.Valid() && Parse(input) == Some(t) && |t.blob.entries| % 16 == 0 && |t.blob.header| == HEADER
    && Planned(t, r) == Some(plan) && Copy(t.tokens, [], false, plan.policy) == Some(ts)
    && out == Render(Blob(t.blob.header, plan.entries, EncodeAll(ts), plan.policy.strings)) && |out| < U32_LIMIT
  }

  lemma Stages(input: Bytes, r: Region) returns (t: Tree, plan: Plan, ts: seq<Token>, out: Bytes)
    requires r.Valid() && Exclude(input, r).Some?
    ensures Reaches(input, r, t, plan, ts, out) && Exclude(input, r) == Some(out)
  {
    t := Parse(input).value;
    ParsedBlob(input);
    plan := Planned(t, r).value;
    ts := Copy(t.tokens, [], false, plan.policy).value;
    out := Rewritten(t, plan).value;
  }

  lemma ParseIs(input: Bytes, t: Tree)
    requires Parse(input) == Some(t)
    ensures Blocks(input) == Some(t.blob) && Decode(t.blob.structure) == Some(t.tokens)
    ensures Walk(t.tokens, [], false, t.blob.strings) == Some(t.visits)
  {
  }

  lemma ParsesTo(input: Bytes, b: Blob, ts: seq<Token>, vs: seq<Visit>)
    requires Blocks(input) == Some(b) && Decode(b.structure) == Some(ts)
    requires Walk(ts, [], false, b.strings) == Some(vs)
    ensures Parse(input) == Some(Tree(b, ts, vs))
  {
  }

  lemma PlanIs(t: Tree, r: Region, plan: Plan)
    requires r.Valid() && |t.blob.entries| % 16 == 0 && Planned(t, r) == Some(plan)
    ensures plan.policy.cells.Valid() && plan.policy.region == r && plan.entries == Reserve(t.blob.entries, r)
    ensures RootCells(t.visits) == Some(plan.policy.cells) && MemoryOk(t.visits, plan.policy.cells)
    ensures ReservedOk(Reserved(t.blob.entries), r) && plan.policy.memory == MemoryPaths(t.visits)
    ensures Named(t.blob.strings) == Some(Names(plan.policy.nameOffset, plan.policy.strings))
  {
  }

  /** The tokens written are well formed, are copied to themselves and visit the revised properties. */
  lemma CopiedTokens(input: Bytes, r: Region, t: Tree, plan: Plan, ts: seq<Token>, out: Bytes)
    returns (ws: seq<Visit>)
    requires Reaches(input, r, t, plan, ts, out)
    ensures plan.policy.cells.Valid() && plan.policy.region == r
    ensures Closed(ts) && Copy(ts, [], false, plan.policy) == Some(ts)
    ensures Walk(ts, [], false, plan.policy.strings) == Some(ws) && Carries(t.visits, ws, plan.policy, true)
  {
    ParseIs(input, t);
    BlocksChecked(input);
    EncodeDecode(t.blob.structure);
    PlanResolves(t, r);
    CopyTwice(t.tokens, [], false, false, t.blob.strings, plan.policy);
    CopyWalks(t.tokens, [], false, false, t.blob.strings, plan.policy);
    ws := Walk(ts, [], false, plan.policy.strings).value;
  }

  /** What was written parses back to exactly what was meant, so the re-parse never refuses it. */
  lemma Reparsed(input: Bytes, r: Region, t: Tree, plan: Plan, ts: seq<Token>, out: Bytes) returns (u: Tree)
    requires Reaches(input, r, t, plan, ts, out)
    ensures Parse(out) == Some(u) && u.tokens == ts
    ensures u.blob == Blob(Patch(t.blob.header, plan.entries, EncodeAll(ts), plan.policy.strings), plan.entries,
                           EncodeAll(ts), plan.policy.strings)
    ensures plan.policy.cells.Valid() && plan.policy.region == r && |plan.entries| % 16 == 0
    ensures Carries(t.visits, u.visits, plan.policy, true)
  {
    var ws := CopiedTokens(input, r, t, plan, ts, out);
    ParseIs(input, t);
    BlocksChecked(input);
    PlanIs(t, r, plan);
    ReserveEntered(t.blob.entries, r);
    var b := Blob(t.blob.header, plan.entries, EncodeAll(ts), plan.policy.strings);
    BlocksRendered(b);
    DecodeEncode(ts);
    var c := b.(header := Patch(b.header, b.entries, b.structure, b.strings));
    ParsesTo(out, c, ts, ws);
    u := Tree(c, ts, ws);
  }

  /** An exclusion that gets as far as writing a blob succeeds. */
  lemma {:induction false} NeverRefused(input: Bytes, r: Region, t: Tree, plan: Plan, ts: seq<Token>, out: Bytes)
    requires Reaches(input, r, t, plan, ts, out)
    ensures Exclude(input, r) == Some(out)
  {
    var u := Reparsed(input, r, t, plan, ts, out);
    assert Parse(out).Some?;
    assert Rewritten(t, plan) == Some(out);
    ExcludeIs(input, r, t, plan, out);
  }

  lemma {:induction false} ExcludeIs(input: Bytes, r: Region, t: Tree, plan: Plan, out: Bytes)
    requires r.Valid() && Parse(input) == Some(t) && |t.blob.entries| % 16 == 0 && |t.blob.header| == HEADER
    requires Planned(t, r) == Some(plan) && Rewritten(t, plan) == Some(out) && Parse(out).Some?
    ensures Exclude(input, r) == Some(out)
  {
  }

  lemma RegionData(r: Region)
    requires r.Valid()
    ensures Quad(RegionBytes(r)[..8]) == r.start && Quad(RegionBytes(r)[8..]) == r.end - r.start
  {
    assert RegionBytes(r)[..8] == Be64(r.start) && RegionBytes(r)[8..] == Be64(r.end - r.start);
    QuadOf(r.start);
    QuadOf(r.end - r.start);
  }

  /**
   On success every property but the resident one keeps its place, path, name and data, except that a
   memory node's `reg` loses the region; and the resident property is there once, its data the start
   and then the length of the region as big-endian numbers of eight bytes.
   */
  lemma ExcludePreserves(input: Bytes, r: Region) returns (t: Tree, u: Tree, p: Policy, d: Bytes)
    requires r.Valid() && Exclude(input, r).Some?
    ensures Parse(input) == Some(t) && Parse(Exclude(input, r).value) == Some(u)
    ensures p.cells.Valid() && RootCells(t.visits) == Some(p.cells) && p.region == r
    ensures p.memory == MemoryPaths(t.visits) == MemoryPaths(u.visits)
    ensures Keep(u.visits) == ReviseAll(Keep(t.visits), p)
    ensures Residents(u.visits) == [Visit([CHOSEN], RESIDENT, d)]
    ensures |d| == 16 && Quad(d[..8]) == r.start && Quad(d[8..]) == r.end - r.start
    ensures |t.blob.entries| % 16 == 0 && |u.blob.entries| % 16 == 0
    ensures Reserved(u.blob.entries) == Reserved(t.blob.entries) + Added(Reserved(t.blob.entries), r)
  {
    var plan, ts, out;
    t, plan, ts, out := Stages(input, r);
    u := Reparsed(input, r, t, plan, ts, out);
    p := plan.policy;
    PlanIs(t, r, plan);
    ReservedOnce(t.blob.entries, r);
    CarriesMeaning(t.visits, u.visits, p, [CHOSEN], RESIDENT);
    d := RegionBytes(r);
    RegionData(r);
  }

  // ---- Memory ----------------------------------------------------------------------------------------

  /** The copy would have failed if a memory `reg` could not be subtracted. */
  lemma PropSubtracts(
    t: Token, stack: Stack, rootSeen: bool, seen: bool, original: Bytes, p: Policy, v: Visit)
    requires Resolves(original, p) && Step(t, stack, rootSeen, original).Some? && CopyToken(t, stack, seen, p).Some?
    requires v in Step(t, stack, rootSeen, original).value && IsReg(v, p)
    ensures Subtract(v.data, p.cells, p.region).Some?
  {
    Distinct();
    assert t.Prop? && v == Step(t, stack, rootSeen, original).value[0];
  }

  lemma {:induction false} CopySubtracts(
    ts: seq<Token>, stack: Stack, rootSeen: bool, seen: bool, original: Bytes, p: Policy, v: Visit)
    requires Resolves(original, p) && Walk(ts, stack, rootSeen, original).Some? && Copy(ts, stack, seen, p).Some?
    requires v in Walk(ts, stack, rootSeen, original).value && IsReg(v, p)
    ensures Subtract(v.data, p.cells, p.region).Some?
    decreases |ts|
  {
    var t := ts[0];
    if t != Fin {
      var first := Step(t, stack, rootSeen, original).value;
      if v in first {
        PropSubtracts(t, stack, rootSeen, seen, original, p, v);
      } else {
        CopySubtracts(ts[1..], StackAfter(t, stack), rootSeen || t.Begin?, SeenAfter(t, stack, seen), original, p, v);
      }
    }
  }

  lemma {:induction false} DataVisit(vs: seq<Visit>, path: seq<Bytes>, name: Bytes, d: Bytes)
    requires d in Data(vs, path, name)
    ensures Visit(path, name, d) in vs
  {
    if !(vs[0].path == path && vs[0].name == name && vs[0].data == d) {
      assert Data(vs, path, name)
          == (if vs[0].path == path && vs[0].name == name then [vs[0].data] else []) + Data(vs[1..], path, name);
      DataVisit(vs[1..], path, name, d);
    }
  }

  /** A memory node's one `reg`, before and after. */
  lemma MemoryReg(input: Bytes, r: Region, t: Tree, plan: Plan, ts: seq<Token>, out: Bytes, u: Tree, path: seq<Bytes>)
    returns (d: Bytes)
    requires Reaches(input, r, t, plan, ts, out) && Parse(out) == Some(u)
    requires path in MemoryPaths(t.visits)
    ensures plan.policy.cells.Valid() && Data(t.visits, path, REG) == [d]
    ensures Subtract(d, plan.policy.cells, r).Some?
    ensures Data(u.visits, path, REG) == [Subtract(d, plan.policy.cells, r).value]
  {
    var p := plan.policy;
    var w := Reparsed(input, r, t, plan, ts, out);
    PlanIs(t, r, plan);
    Distinct();
    CarriesMeaning(t.visits, u.visits, p, path, REG);
    var ds := Data(t.visits, path, REG);
    d := ds[0];
    assert ds == [d] && ds[1..] == [];
    DataVisit(t.visits, path, REG, d);
    ParseIs(input, t);
    BlocksChecked(input);
    PlanResolves(t, r);
    CopySubtracts(t.tokens, [], false, false, t.blob.strings, p, Visit(path, REG, d));
  }

  /** A memory node's addresses afterwards are its addresses before, minus the region. */
  lemma MemoryLoses(input: Bytes, r: Region, path: seq<Bytes>, a: nat)
    returns (before: seq<Bank>, after: seq<Bank>)
    requires r.Valid() && Exclude(input, r).Some? && path in MemoryPaths(Parse(input).value.visits)
    ensures
      var t, u := Parse(input).value, Parse(Exclude(input, r).value).value;
      var c := RootCells(t.visits);
      && c.Some? && |Data(t.visits, path, REG)| == 1 && |Data(u.visits, path, REG)| == 1
      && Banks(Data(t.visits, path, REG)[0], c.value) == Some(before)
      && Banks(Data(u.visits, path, REG)[0], c.value) == Some(after)
    ensures Covers(after, a) <==> Covers(before, a) && !r.Holds(a)
  {
    var t, plan, ts, out := Stages(input, r);
    var u := Reparsed(input, r, t, plan, ts, out);
    PlanIs(t, r, plan);
    var d := MemoryReg(input, r, t, plan, ts, out, u, path);
    SubtractCovers(d, plan.policy.cells, r, a);
    before := Banks(d, plan.policy.cells).value;
    after := Banks(Subtract(d, plan.policy.cells, r).value, plan.policy.cells).value;
  }

  // ---- Excluding twice ---------------------------------------------------------------------------------

  lemma SameCells(vs: seq<Visit>, ws: seq<Visit>, p: Policy)
    requires p.cells.Valid() && p.region.Valid() && Carries(vs, ws, p, true)
    ensures RootCells(ws) == RootCells(vs)
  {
    Distinct();
    CarriesMeaning(vs, ws, p, [], ADDRESS_CELLS);
    CarriesMeaning(vs, ws, p, [], SIZE_CELLS);
  }

  lemma MemoryStillOk(vs: seq<Visit>, ws: seq<Visit>, p: Policy)
    requires p.cells.Valid() && p.region.Valid() && Carries(vs, ws, p, true)
    requires p.memory == MemoryPaths(vs) && MemoryOk(vs, p.cells)
    ensures MemoryPaths(ws) == MemoryPaths(vs) && MemoryOk(ws, p.cells)
  {
    CarriesMeaning(vs, ws, p, [], REG);
    forall path | path in MemoryPaths(ws)
      ensures |Data(ws, path, REG)| == 1 && |Data(ws, path, DEVICE_TYPE)| == 1
      ensures Banks(Data(ws, path, REG)[0], p.cells).Some? {
      PathStillOk(vs, ws, p, path);
    }
  }

  lemma {:induction false} PathStillOk(vs: seq<Visit>, ws: seq<Visit>, p: Policy, path: seq<Bytes>)
    requires p.cells.Valid() && p.region.Valid() && Carries(vs, ws, p, true)
    requires p.memory == MemoryPaths(vs) && MemoryOk(vs, p.cells) && path in MemoryPaths(vs)
    ensures |Data(ws, path, REG)| == 1 && |Data(ws, path, DEVICE_TYPE)| == 1
    ensures Banks(Data(ws, path, REG)[0], p.cells).Some?
  {
    Distinct();
    CarriesMeaning(vs, ws, p, path, REG);
    CarriesMeaning(vs, ws, p, path, DEVICE_TYPE);
    var d := Data(vs, path, REG)[0];
    assert Data(vs, path, REG) == [d] && Data(vs, path, REG)[1..] == [];
    if Subtract(d, p.cells, p.region).Some? { SubtractSettles(d, p.cells, p.region); }
  }

  /** The plan for the result is the plan that made it. */
  lemma PlannedTwice(input: Bytes, r: Region, t: Tree, plan: Plan, ts: seq<Token>, out: Bytes, u: Tree)
    requires Reaches(input, r, t, plan, ts, out) && Parse(out) == Some(u)
    ensures |u.blob.entries| % 16 == 0 && Planned(u, r) == Some(plan)
  {
    var w := Reparsed(input, r, t, plan, ts, out);
    PlanIs(t, r, plan);
    SameCells(t.visits, u.visits, plan.policy);
    MemoryStillOk(t.visits, u.visits, plan.policy);
    ReservedOnce(t.blob.entries, r);
    NamedTwice(t.blob.strings);
  }

  /** Excluding the region again gives the same bytes. */
  lemma Idempotent(input: Bytes, r: Region)
    requires r.Valid() && Exclude(input, r).Some?
    ensures Exclude(Exclude(input, r).value, r) == Exclude(input, r)
  {
    var t, plan, ts, out := Stages(input, r);
    var u := Reparsed(input, r, t, plan, ts, out);
    PlannedTwice(input, r, t, plan, ts, out, u);
    var ws := CopiedTokens(input, r, t, plan, ts, out);
    PatchTwice(t.blob.header, plan.entries, EncodeAll(ts), plan.policy.strings);
    SameRender(t.blob.header, plan.entries, EncodeAll(ts), plan.policy.strings);
    NeverRefused(out, r, u, plan, ts, out);
  }

  lemma SameRender(h: Bytes, e: Bytes, structure: Bytes, strings: Bytes)
    requires |h| == HEADER
    ensures Render(Blob(Patch(h, e, structure, strings), e, structure, strings))
         == Render(Blob(h, e, structure, strings))
  {
    PatchTwice(h, e, structure, strings);
  }
}
