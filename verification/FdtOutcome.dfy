/** When a region can be excluded, which nodes the result has, and how a bank is cut. */
module FdtOutcome {
  import opened Types
  import opened FdtRanges
  import opened FdtTokens
  import opened Fdt
  import opened FdtMemory
  import opened FdtCopy
  import opened FdtNames
  import opened FdtExclude
  import opened FdtTheorems

  // ---- Cutting banks --------------------------------------------------------------------------------

  /** A piece of a bank outside the region that could not be longer. */
  predicate Piece(q: Bank, k: Bank, r: Region) {
    && q.size > 0 && k.start <= q.start && q.start + q.size <= k.start + k.size && Outside(q, r)
    && (q.start == k.start || r.Holds(q.start - 1))
    && (q.start + q.size == k.start + k.size || r.Holds(q.start + q.size))
  }

  /** A bank is cut into at most two pieces, the lower first. */
  lemma RestExact(k: Bank, r: Region)
    requires r.Valid() && k.size > 0
    ensures |Rest(k, r)| <= 2 && forall i: nat :: i < |Rest(k, r)| ==> Piece(Rest(k, r)[i], k, r)
    ensures |Rest(k, r)| == 2 ==> Rest(k, r)[0].start + Rest(k, r)[0].size <= Rest(k, r)[1].start
  {
  }

  /** Banks are cut one by one, in order, and empty ones are dropped. */
  lemma {:induction false} RestAllAppends(bs: seq<Bank>, k: Bank, r: Region)
    ensures RestAll(bs + [k], r) == RestAll(bs, r) + if k.size == 0 then [] else Rest(k, r)
  {
    if bs == [] {
      assert [k][1..] == [] && [] + [k] == [k];
      assert Rest(k, r) + [] == Rest(k, r);
    } else {
      assert (bs + [k])[1..] == bs[1..] + [k];
      RestAllAppends(bs[1..], k, r);
      assert RestAll(bs + [k], r) == Rest(bs[0], r) + RestAll(bs[1..] + [k], r);
    }
  }

  /** Outside means not one address in common. */
  lemma OutsideExact(k: Bank, r: Region)
    requires r.Valid() && k.size > 0
    ensures Outside(k, r) <==> forall a: nat :: r.Holds(a) ==> !(k.start <= a < k.start + k.size)
  {
    if !Outside(k, r) {
      var a := if k.start < r.start then r.start else k.start;
      assert r.Holds(a);
    }
  }

  // ---- Planning ----------------------------------------------------------------------------------------

  /** The cell count a property gives: once, in one word, one or two. */
  predicate Counts(data: seq<Bytes>, default: nat, n: nat) {
    || (data == [] && n == default)
    || (|data| == 1 && |data[0]| == 4 && n == Word(data[0]) && n in {1, 2})
  }

  /** Two address cells and one size cell unless the root says otherwise. */
  lemma CellsExact(vs: seq<Visit>, address: nat, size: nat)
    ensures
      RootCells(vs) == Some(Cells(address, size)) <==>
        Counts(Data(vs, [], Ascii("#address-cells")), 2, address) && Counts(Data(vs, [], Ascii("#size-cells")), 1, size)
  {
  }

  /** The root or a node right below it that says it is memory. */
  predicate Marks(v: Visit) { |v.path| < 2 && v.name == Ascii("device_type") && v.data == Ascii("memory") + [0] }

  lemma {:induction false} MemoryExact(vs: seq<Visit>, path: seq<Bytes>)
    ensures path in MemoryPaths(vs) <==> exists i: nat :: i < |vs| && Marks(vs[i]) && vs[i].path == path
  {
    if vs != [] {
      MemoryExact(vs[1..], path);
      if path in MemoryPaths(vs[1..]) {
        var i: nat :| i < |vs[1..]| && Marks(vs[1..][i]) && vs[1..][i].path == path;
        assert vs[i + 1] == vs[1..][i];
      }
      if exists i: nat :: i < |vs| && Marks(vs[i]) && vs[i].path == path {
        var i: nat :| i < |vs| && Marks(vs[i]) && vs[i].path == path;
        if i > 0 { assert vs[1..][i - 1] == vs[i]; }
      }
    }
  }

  /** A strings block that can be read ends its last string. */
  lemma {:induction false} StringsExact(s: Bytes)
    ensures Strings(s).Some? <==> s == [] || s[|s| - 1] == 0
    decreases |s|
  {
    if s != [] && FirstNul(s).Some? { StringsExact(s[FirstNul(s).value + 1..]); }
  }

  /** Sixteen memory nodes at most, each with one `reg` of whole banks that do not wrap and one `device_type`. */
  predicate Sixteen(vs: seq<Visit>, c: Cells)
    requires c.Valid()
  {
    && |MemoryPaths(vs)| <= 16
    && forall p :: p in MemoryPaths(vs) ==>
         && |Data(vs, p, Ascii("device_type"))| == 1 && |Data(vs, p, Ascii("reg"))| == 1
         && Whole(Data(vs, p, Ascii("reg"))[0], c)
  }

  predicate Whole(data: Bytes, c: Cells)
    requires c.Valid()
  {
    && |data| % (4 * c.address + 4 * c.size) == 0
    && forall k :: k in DecodeBanks(data, c) ==> k.start + k.size < U64_LIMIT
  }

  lemma WholeIs(data: Bytes, c: Cells)
    requires c.Valid()
    ensures Whole(data, c) <==> Banks(data, c).Some?
  {
    if |data| % c.Stride() == 0 {
      var bs := DecodeBanks(data, c);
      if k :| k in bs && k.start + k.size >= U64_LIMIT {
        var i: nat :| i < |bs| && bs[i] == k;
      }
    }
  }

  lemma SixteenIs(vs: seq<Visit>, c: Cells)
    requires c.Valid()
    ensures Sixteen(vs, c) <==> MemoryOk(vs, c)
  {
    forall p | p in MemoryPaths(vs) && |Data(vs, p, REG)| == 1
      ensures Whole(Data(vs, p, REG)[0], c) <==> Banks(Data(vs, p, REG)[0], c).Some? {
      WholeIs(Data(vs, p, REG)[0], c);
    }
  }

  /** A reservation that is empty, shares nothing with the region, or is the region. */
  predicate Compatible(k: Bank, r: Region) {
    k.size == 0
    || (k.start + k.size < U64_LIMIT
        && (k.start + k.size <= r.start || r.end <= k.start || (k.start == r.start && k.start + k.size == r.end)))
  }

  /** An exclusion is planned exactly for a tree of which all four can be said. */
  lemma PlannedExact(t: Tree, r: Region)
    requires r.Valid() && |t.blob.entries| % 16 == 0
    ensures
      Planned(t, r).Some? <==>
        && RootCells(t.visits).Some? && Sixteen(t.visits, RootCells(t.visits).value)
        && (forall k :: k in Reserved(t.blob.entries) ==> Compatible(k, r))
        && (t.blob.strings == [] || t.blob.strings[|t.blob.strings| - 1] == 0)
  {
    StringsExact(t.blob.strings);
    if RootCells(t.visits).Some? { SixteenIs(t.visits, RootCells(t.visits).value); }
    ReservedIs(Reserved(t.blob.entries), r);
  }

  lemma ReservedIs(bs: seq<Bank>, r: Region)
    ensures ReservedOk(bs, r) <==> forall k :: k in bs ==> Compatible(k, r)
  {
    if ReservedOk(bs, r) {
      forall k | k in bs ensures Compatible(k, r) {
        var i: nat :| i < |bs| && bs[i] == k;
      }
    }
    if forall k :: k in bs ==> Compatible(k, r) {
      forall i: nat | i < |bs| && bs[i].size != 0
        ensures bs[i].start + bs[i].size < U64_LIMIT && (Outside(bs[i], r) || SameAs(bs[i], r)) {
        assert bs[i] in bs;
      }
    }
  }

  // ---- Copying --------------------------------------------------------------------------------------------

  predicate Opens(t: Token, stack: Stack) { t.Begin? && |stack| == 1 && t.name == Ascii("chosen") }

  /** How many nodes called chosen lie right below the root, up to the end of the structure. */
  function Chosens(ts: seq<Token>, stack: Stack): nat {
    if ts == [] || ts[0] == Fin then 0
    else
      (if Opens(ts[0], stack) then 1 else 0)
      + Chosens(ts[1..], StackAfter(ts[0], stack))
  }

  /** What is left of a memory node's `reg` can be written in the same cells. */
  predicate Shrinks(v: Visit, p: Policy)
    requires p.cells.Valid()
  {
    IsReg(v, p) ==> Subtract(v.data, p.cells, p.region).Some? && |Subtract(v.data, p.cells, p.region).value| < U32_LIMIT
  }

  ghost predicate AllShrink(vs: seq<Visit>, p: Policy)
    requires p.cells.Valid()
  {
    forall v :: v in vs ==> Shrinks(v, p)
  }

  lemma ShrinkBoth(a: seq<Visit>, b: seq<Visit>, p: Policy)
    requires p.cells.Valid()
    ensures AllShrink(a + b, p) <==> AllShrink(a, p) && AllShrink(b, p)
  {
    assert forall v :: v in a + b <==> v in a || v in b;
  }

  lemma {:induction false} CopyExact(
    ts: seq<Token>, stack: Stack, rootSeen: bool, seen: bool, original: Bytes, p: Policy)
    requires Resolves(original, p) && Walk(ts, stack, rootSeen, original).Some?
    ensures
      Copy(ts, stack, seen, p).Some? <==>
        && Chosens(ts, stack) + (if seen then 1 else 0) <= 1
        && AllShrink(Walk(ts, stack, rootSeen, original).value, p)
    decreases |ts|
  {
    var t := ts[0];
    if t == Fin {
      assert Walk(ts, stack, rootSeen, original).value == [];
    } else {
      var next, nextRoot := StackAfter(t, stack), rootSeen || t.Begin?;
      var first := Step(t, stack, rootSeen, original).value;
      var rest := Walk(ts[1..], next, nextRoot, original).value;
      CopyExact(ts[1..], next, nextRoot, SeenAfter(t, stack, seen), original, p);
      TokenExact(t, stack, rootSeen, seen, original, p);
      ShrinkBoth(first, rest, p);
      assert SeenAfter(t, stack, seen) <==> seen || Opens(t, stack);
    }
  }

  lemma TokenExact(t: Token, stack: Stack, rootSeen: bool, seen: bool, original: Bytes, p: Policy)
    requires Resolves(original, p) && Step(t, stack, rootSeen, original).Some?
    ensures
      CopyToken(t, stack, seen, p).Some? <==>
        !(seen && Opens(t, stack)) && AllShrink(Step(t, stack, rootSeen, original).value, p)
  {
    match t
    case Prop(_, _, _) => PropExact(t, stack, rootSeen, original, p);
    case _ => assert Step(t, stack, rootSeen, original).value == [];
  }

  lemma PropExact(t: Token, stack: Stack, rootSeen: bool, original: Bytes, p: Policy)
    requires Resolves(original, p) && t.Prop? && Step(t, stack, rootSeen, original).Some?
    ensures CopyProp(t, stack, p).Some? <==> AllShrink(Step(t, stack, rootSeen, original).value, p)
  {
    Distinct();
    var v := Visit(stack[1..], NameAt(original, t.nameOffset).value, t.data);
    assert Step(t, stack, rootSeen, original) == Some([v]);
    assert forall u :: u in [v] <==> u == v;
    assert AllShrink([v], p) <==> Shrinks(v, p);
    assert NameAt(p.strings, t.nameOffset) == Some(v.name);
  }

  /**
   A planned exclusion succeeds exactly if /chosen stands at most once, each memory `reg` can be rewritten
   and the result fits its size field.
   */
  lemma SucceedsExact(input: Bytes, r: Region, t: Tree, plan: Plan)
    requires r.Valid() && Parse(input) == Some(t) && |t.blob.header| == HEADER && |t.blob.entries| % 16 == 0
    requires Planned(t, r) == Some(plan)
    ensures
      Exclude(input, r).Some? <==>
        && Chosens(t.tokens, []) <= 1
        && AllShrink(t.visits, plan.policy)
        && Copy(t.tokens, [], false, plan.policy).Some?
        && 64 + |plan.entries| + |EncodeAll(Copy(t.tokens, [], false, plan.policy).value)| + |plan.policy.strings|
           < 0x1_0000_0000
  {
    ParseIs(input, t);
    BlocksChecked(input);
    PlanResolves(t, r);
    CopyExact(t.tokens, [], false, false, t.blob.strings, plan.policy);
    var c := Copy(t.tokens, [], false, plan.policy);
    if c.Some? {
      var b := Blob(t.blob.header, plan.entries, EncodeAll(c.value), plan.policy.strings);
      RenderParts(b);
      if |Render(b)| < U32_LIMIT { NeverRefused(input, r, t, plan, c.value, Render(b)); }
    }
  }

  // ---- Nodes ------------------------------------------------------------------------------------------------

  /** The path of every node below the root, in the order they are opened. */
  function Nodes(ts: seq<Token>, stack: Stack): seq<Stack> {
    if ts == [] || ts[0] == Fin then []
    else
      (if ts[0].Begin? then [(stack + [ts[0].name])[1..]] else []) + Nodes(ts[1..], StackAfter(ts[0], stack))
  }

  /** After the root has been closed there is nothing more to open. */
  lemma {:induction false} NothingAfter(ts: seq<Token>, strings: Bytes)
    requires Walk(ts, [], true, strings).Some?
    ensures Nodes(ts, []) == [] && Chosens(ts, []) == 0
  {
    if ts[0] != Fin { NothingAfter(ts[1..], strings); }
  }

  lemma NodesCons(t: Token, rest: seq<Token>, stack: Stack)
    requires t != Fin
    ensures
      Nodes([t] + rest, stack)
      == (if t.Begin? then [(stack + [t.name])[1..]] else []) + Nodes(rest, StackAfter(t, stack))
  {
    assert ([t] + rest)[1..] == rest;
  }

  /** The node a copy of the rest still has to add. */
  function Missing(ts: seq<Token>, stack: Stack, rootSeen: bool, seen: bool): seq<Stack> {
    if Due(stack, rootSeen, seen) && Chosens(ts, stack) == 0 then [[CHOSEN]] else []
  }

  lemma {:induction false} CopyTail(
    t: Token, tail: seq<Token>, stack: Stack, rootSeen: bool, seen: bool, original: Bytes, p: Policy)
    requires p.cells.Valid() && p.region.Valid() && t != Fin && Rooted(stack) && (stack != [] ==> rootSeen)
    requires Walk([t] + tail, stack, rootSeen, original).Some? && Copy([t] + tail, stack, seen, p).Some?
    ensures
      var next, nextSeen, nextRoot := StackAfter(t, stack), SeenAfter(t, stack, seen), rootSeen || t.Begin?;
      && Rooted(next) && (next != [] ==> nextRoot) && Walk(tail, next, nextRoot, original).Some?
      && Copy(tail, next, nextSeen, p).Some? && CopyToken(t, stack, seen, p).Some?
      && Copy([t] + tail, stack, seen, p).value
         == CopyToken(t, stack, seen, p).value + Copy(tail, next, nextSeen, p).value
    ensures t.Begin? && stack == [] ==> !rootSeen
    ensures t == End && |stack| == 1 ==> Nodes(tail, []) == [] && Chosens(tail, []) == 0
  {
    assert ([t] + tail)[0] == t && ([t] + tail)[1..] == tail;
    if t == End && |stack| == 1 { NothingAfter(tail, original); }
  }

  /** A copy opens the same nodes in the same order, and /chosen after them if it was missing. */
  lemma {:induction false} NodesKept(
    ts: seq<Token>, stack: Stack, rootSeen: bool, seen: bool, original: Bytes, p: Policy)
    requires Resolves(original, p)
    requires Walk(ts, stack, rootSeen, original).Some? && Copy(ts, stack, seen, p).Some?
    requires Rooted(stack) && (stack != [] ==> rootSeen)
    ensures Nodes(Copy(ts, stack, seen, p).value, stack) == Nodes(ts, stack) + Missing(ts, stack, rootSeen, seen)
    decreases |ts|
  {
    var t := ts[0];
    if t == Fin {
      assert Copy(ts, stack, seen, p).value == [Fin];
    } else {
      var next, nextSeen, nextRoot := StackAfter(t, stack), SeenAfter(t, stack, seen), rootSeen || t.Begin?;
      var tail := ts[1..];
      assert ts == [t] + tail;
      CopyTail(t, tail, stack, rootSeen, seen, original, p);
      NodesKept(tail, next, nextRoot, nextSeen, original, p);
      NodesToken(t, tail, Copy(tail, next, nextSeen, p).value, stack, rootSeen, seen, p);
    }
  }

  /** What is missing before a token is what is missing after it, but where the root ends. */
  lemma {:induction false} MissingAfter(t: Token, ts: seq<Token>, stack: Stack, rootSeen: bool, seen: bool)
    requires t != Fin && (stack != [] ==> rootSeen) && (t.Begin? && stack == [] ==> !rootSeen)
    requires t == End && |stack| == 1 ==> Chosens(ts, []) == 0
    ensures
      Missing([t] + ts, stack, rootSeen, seen)
      == if t == End && |stack| == 1 then if seen then [] else [[CHOSEN]]
         else Missing(ts, StackAfter(t, stack), rootSeen || t.Begin?, SeenAfter(t, stack, seen))
  {
    assert ([t] + ts)[0] == t && ([t] + ts)[1..] == ts;
  }

  lemma {:induction false} NodesToken(
    t: Token, ts: seq<Token>, rest: seq<Token>, stack: Stack, rootSeen: bool, seen: bool, p: Policy)
    requires p.cells.Valid() && p.region.Valid() && t != Fin && CopyToken(t, stack, seen, p).Some?
    requires Rooted(stack) && (stack != [] ==> rootSeen) && (t.Begin? && stack == [] ==> !rootSeen)
    requires t == End && |stack| == 1 ==> Nodes(ts, []) == [] && Chosens(ts, []) == 0
    requires
      Nodes(rest, StackAfter(t, stack))
      == Nodes(ts, StackAfter(t, stack))
         + Missing(ts, StackAfter(t, stack), rootSeen || t.Begin?, SeenAfter(t, stack, seen))
    ensures
      Nodes(CopyToken(t, stack, seen, p).value + rest, stack)
      == Nodes([t] + ts, stack) + Missing([t] + ts, stack, rootSeen, seen)
  {
    var own := if t.Begin? then [(stack + [t.name])[1..]] else [];
    var after, missing := Nodes(ts, StackAfter(t, stack)), Missing([t] + ts, stack, rootSeen, seen);
    NodesCons(t, ts, stack);
    MissingAfter(t, ts, stack, rootSeen, seen);
    NodesCopied(t, rest, stack, seen, p);
    if t == End && |stack| == 1 {
      assert Missing(ts, [], rootSeen, seen) == [];
      assert missing + ([] + []) == [] + [] + missing;
    } else {
      Associative(own, after, missing);
    }
  }

  /** The nodes a copied token opens. */
  lemma NodesCopied(t: Token, rest: seq<Token>, stack: Stack, seen: bool, p: Policy)
    requires p.cells.Valid() && p.region.Valid() && t != Fin && Rooted(stack) && CopyToken(t, stack, seen, p).Some?
    ensures
      Nodes(CopyToken(t, stack, seen, p).value + rest, stack)
      == (if t.Begin? then [(stack + [t.name])[1..]]
          else if t == End && |stack| == 1 && !seen then [[CHOSEN]] else [])
         + Nodes(rest, StackAfter(t, stack))
  {
    match t
    case Begin(_, _) => NodesBegin(t, rest, stack, seen, p);
    case End => NodesEnd(rest, stack, seen, p);
    case Prop(_, _, _) => NodesProp(t, rest, stack, seen, p);
    case Nop => NodesCons(Nop, rest, stack);
  }

  lemma NodesBegin(t: Token, rest: seq<Token>, stack: Stack, seen: bool, p: Policy)
    requires p.cells.Valid() && p.region.Valid() && t.Begin? && CopyToken(t, stack, seen, p).Some?
    ensures
      Nodes(CopyToken(t, stack, seen, p).value + rest, stack)
      == [(stack + [t.name])[1..]] + Nodes(rest, stack + [t.name])
  {
    NodesCons(t, rest, stack);
    if |stack| == 1 && t.name == CHOSEN {
      NodesCons(Publish(p), rest, stack + [t.name]);
      NodesCons(t, [Publish(p)] + rest, stack);
      assert [t, Publish(p)] + rest == [t] + ([Publish(p)] + rest);
    }
  }

  lemma NodesEnd(rest: seq<Token>, stack: Stack, seen: bool, p: Policy)
    requires p.cells.Valid() && p.region.Valid() && stack != [] && Rooted(stack)
    ensures
      Nodes(CopyToken(End, stack, seen, p).value + rest, stack)
      == (if |stack| == 1 && !seen then [[CHOSEN]] else []) + Nodes(rest, stack[..|stack| - 1])
  {
    NodesCons(End, rest, stack);
    if |stack| == 1 && !seen {
      var inner := stack + [CHOSEN];
      assert stack == [[]] && inner[1..] == [CHOSEN] && inner[..|inner| - 1] == stack;
      NodesCons(End, [End] + rest, inner);
      NodesCons(Publish(p), [End] + ([End] + rest), inner);
      NodesCons(Begin(CHOSEN, [0]), [Publish(p)] + ([End] + ([End] + rest)), stack);
      assert NewChosen(p) + [End] + rest
          == [Begin(CHOSEN, [0])] + ([Publish(p)] + ([End] + ([End] + rest)));
    }
  }

  lemma NodesProp(t: Token, rest: seq<Token>, stack: Stack, seen: bool, p: Policy)
    requires p.cells.Valid() && p.region.Valid() && t.Prop? && stack != [] && CopyProp(t, stack, p).Some?
    ensures Nodes(CopyProp(t, stack, p).value + rest, stack) == Nodes(rest, stack)
  {
    var c := CopyProp(t, stack, p).value;
    if c == [] {
      assert c + rest == rest;
    } else {
      NodesCons(c[0], rest, stack);
      assert c == [c[0]];
    }
  }

  lemma {:induction false} CopiedNodes(input: Bytes, r: Region, t: Tree, plan: Plan, ts: seq<Token>, out: Bytes)
    requires Reaches(input, r, t, plan, ts, out)
    ensures Nodes(ts, []) == Nodes(t.tokens, []) + (if Chosens(t.tokens, []) == 0 then [[CHOSEN]] else [])
  {
    ParseIs(input, t);
    BlocksChecked(input);
    PlanResolves(t, r);
    NodesKept(t.tokens, [], false, false, t.blob.strings, plan.policy);
  }

  /** The nodes of the result are those of the input in order, with /chosen at the end if there was none. */
  lemma {:induction false} ExcludeNodes(input: Bytes, r: Region) returns (t: Tree, u: Tree, out: Bytes)
    requires r.Valid() && Exclude(input, r).Some?
    ensures Exclude(input, r) == Some(out) && Parse(input) == Some(t) && Parse(out) == Some(u)
    ensures Nodes(u.tokens, []) == Nodes(t.tokens, []) + (if Chosens(t.tokens, []) == 0 then [[CHOSEN]] else [])
  {
    var plan, ts;
    t, plan, ts, out := Stages(input, r);
    u := Reparsed(input, r, t, plan, ts, out);
    CopiedNodes(input, r, t, plan, ts, out);
  }
}
