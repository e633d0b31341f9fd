/** What copying a structure does to its meaning, token by token. */
module FdtCopy {
  import opened Types
  import opened FdtRanges
  import opened FdtTokens
  import opened Fdt
  import opened FdtMemory

  /** The one property the copy owns. */
  predicate IsResident(v: Visit) { v.path == [CHOSEN] && v.name == RESIDENT }

  function Keep(vs: seq<Visit>): seq<Visit> {
    if vs == [] then [] else (if IsResident(vs[0]) then [] else [vs[0]]) + Keep(vs[1..])
  }

  function Residents(vs: seq<Visit>): seq<Visit> {
    if vs == [] then [] else (if IsResident(vs[0]) then [vs[0]] else []) + Residents(vs[1..])
  }

  predicate IsReg(v: Visit, p: Policy) { v.path in p.memory && v.name == REG }

  /** A memory node's `reg` loses the region; every other property stays as it is. */
  function Revise(v: Visit, p: Policy): Visit
    requires p.cells.Valid()
  {
    if IsReg(v, p) && Subtract(v.data, p.cells, p.region).Some?
    then v.(data := Subtract(v.data, p.cells, p.region).value) else v
  }

  function ReviseAll(vs: seq<Visit>, p: Policy): seq<Visit>
    requires p.cells.Valid()
  {
    if vs == [] then [] else [Revise(vs[0], p)] + ReviseAll(vs[1..], p)
  }

  function Published(p: Policy): Visit
    requires p.region.Valid()
  {
    Visit([CHOSEN], RESIDENT, RegionBytes(p.region))
  }

  /** Names found in `old` are found in the policy's strings too, and so is the resident name. */
  ghost predicate Resolves(original: Bytes, p: Policy) {
    && p.cells.Valid() && p.region.Valid() && NameAt(p.strings, p.nameOffset) == Some(RESIDENT)
    && p.nameOffset < U32_LIMIT
    && forall offset: nat :: NameAt(original, offset).Some? ==> NameAt(p.strings, offset) == NameAt(original, offset)
  }

  predicate Rooted(stack: Stack) { stack != [] ==> stack[0] == [] }

  lemma Distinct()
    ensures RESIDENT != [] && CHOSEN != [] && RESIDENT != REG && RESIDENT != DEVICE_TYPE && REG != DEVICE_TYPE
    ensures RESIDENT != ADDRESS_CELLS && RESIDENT != SIZE_CELLS && REG != ADDRESS_CELLS && REG != SIZE_CELLS
    ensures |RESIDENT| == 27 && |CHOSEN| == 6
  {
    assert |RESIDENT| == 27 && |REG| == 3 && |DEVICE_TYPE| == 11 && |ADDRESS_CELLS| == 14 && |SIZE_CELLS| == 11;
  }

  lemma AsciiClean(s: string)
    requires forall i: nat :: i < |s| ==> 0 < s[i] as int < 128 && s[i] != '/'
    ensures Utf8(Ascii(s)) && NoNul(Ascii(s)) && SLASH !in Ascii(s)
  {
    AsciiIsUtf8(Ascii(s));
    forall i: nat | i < |s| ensures Ascii(s)[i] != SLASH {}
  }

  lemma CleanNames()
    ensures Utf8(CHOSEN) && NoNul(CHOSEN) && SLASH !in CHOSEN
    ensures Utf8(RESIDENT) && NoNul(RESIDENT)
  {
    AsciiClean("chosen");
    AsciiClean("switchvisor,resident-region");
  }

  // ---- Walking what was copied ------------------------------------------------------------------

  lemma WalkCons(t: Token, rest: seq<Token>, stack: Stack, rootSeen: bool, strings: Bytes)
    requires t != Fin && Step(t, stack, rootSeen, strings).Some?
    ensures
      var w := Walk(rest, StackAfter(t, stack), rootSeen || t.Begin?, strings);
      Walk([t] + rest, stack, rootSeen, strings)
      == if w.None? then None else Some(Step(t, stack, rootSeen, strings).value + w.value)
  {
    assert ([t] + rest)[0] == t && ([t] + rest)[1..] == rest;
  }

  /** A token that visits nothing. */
  lemma WalkPast(t: Token, rest: seq<Token>, stack: Stack, rootSeen: bool, strings: Bytes)
    requires t != Fin && Step(t, stack, rootSeen, strings) == Some([])
    ensures Walk([t] + rest, stack, rootSeen, strings)
         == Walk(rest, StackAfter(t, stack), rootSeen || t.Begin?, strings)
  {
    WalkCons(t, rest, stack, rootSeen, strings);
    var w := Walk(rest, StackAfter(t, stack), rootSeen || t.Begin?, strings);
    if w.Some? { assert [] + w.value == w.value; }
  }

  lemma CopyCons(t: Token, rest: seq<Token>, stack: Stack, seen: bool, p: Policy)
    requires p.cells.Valid() && p.region.Valid() && t != Fin && CopyToken(t, stack, seen, p).Some?
    ensures
      var c := Copy(rest, StackAfter(t, stack), SeenAfter(t, stack, seen), p);
      Copy([t] + rest, stack, seen, p)
      == if c.None? then None else Some(CopyToken(t, stack, seen, p).value + c.value)
  {
    assert ([t] + rest)[0] == t && ([t] + rest)[1..] == rest;
  }

  /** The resident property, wherever the copy writes it, is visited as the policy's. */
  lemma PublishVisits(p: Policy, stack: Stack, rootSeen: bool)
    requires Resolves(p.strings, p) && InChosen(stack)
    ensures Step(Publish(p), stack, rootSeen, p.strings) == Some([Published(p)])
  {
    assert stack[1..] == [CHOSEN];
  }

  lemma WalkPublish(p: Policy, stack: Stack, rootSeen: bool, rest: seq<Token>)
    requires Resolves(p.strings, p) && InChosen(stack) && Walk(rest, stack, rootSeen, p.strings).Some?
    ensures Walk([Publish(p)] + rest, stack, rootSeen, p.strings)
         == Some([Published(p)] + Walk(rest, stack, rootSeen, p.strings).value)
  {
    PublishVisits(p, stack, rootSeen);
    WalkCons(Publish(p), rest, stack, rootSeen, p.strings);
  }

  lemma MayChoose(rootSeen: bool)
    ensures MayEnter([[]], rootSeen, CHOSEN)
  {
    Distinct();
    CleanNames();
    assert PathLength([[]]) == 0;
  }

  lemma NewChosenParts(p: Policy, rest: seq<Token>)
    requires p.region.Valid()
    ensures NewChosen(p) + rest == [Begin(CHOSEN, [0])] + ([Publish(p)] + ([End] + rest))
  {
  }

  /** A whole new /chosen at the end of the root. */
  lemma WalkNewChosen(p: Policy, rest: seq<Token>)
    requires Resolves(p.strings, p) && Walk(rest, [[]], true, p.strings).Some?
    ensures Walk(NewChosen(p) + rest, [[]], true, p.strings)
         == Some([Published(p)] + Walk(rest, [[]], true, p.strings).value)
  {
    var begin, inside, strings := Begin(CHOSEN, [0]), [[], CHOSEN], p.strings;
    var a := [End] + rest;
    var b := [Publish(p)] + a;
    assert StackAfter(End, inside) == [[]] && StackAfter(begin, [[]]) == inside;
    WalkPast(End, rest, inside, true, strings);
    WalkPublish(p, inside, true, a);
    MayChoose(true);
    WalkPast(begin, b, [[]], true, strings);
    NewChosenParts(p, rest);
  }

  // ---- The meaning of a copy ---------------------------------------------------------------------

  /** `ws` is `vs` revised, with the policy as the only resident property if it is still `due`. */
  ghost predicate Carries(vs: seq<Visit>, ws: seq<Visit>, p: Policy, due: bool)
    requires p.cells.Valid() && p.region.Valid()
  {
    Keep(ws) == ReviseAll(Keep(vs), p) && Residents(ws) == if due then [Published(p)] else []
  }

  /** Whether /chosen is still to be met or made. */
  predicate Due(stack: Stack, rootSeen: bool, seen: bool) { !seen && !(rootSeen && stack == []) }

  lemma KeepCons(v: Visit, vs: seq<Visit>)
    ensures Keep([v] + vs) == (if IsResident(v) then [] else [v]) + Keep(vs)
    ensures Residents([v] + vs) == (if IsResident(v) then [v] else []) + Residents(vs)
  {
    assert ([v] + vs)[1..] == vs;
  }

  lemma ReviseCons(v: Visit, vs: seq<Visit>, p: Policy)
    requires p.cells.Valid()
    ensures ReviseAll([v] + vs, p) == [Revise(v, p)] + ReviseAll(vs, p)
  {
    assert ([v] + vs)[1..] == vs;
  }

  lemma CarriesPublished(vs: seq<Visit>, ws: seq<Visit>, p: Policy)
    requires p.cells.Valid() && p.region.Valid() && Carries(vs, ws, p, false)
    ensures Carries(vs, [Published(p)] + ws, p, true)
  {
    KeepCons(Published(p), ws);
  }

  lemma CarriesDropped(v: Visit, vs: seq<Visit>, ws: seq<Visit>, p: Policy, due: bool)
    requires p.cells.Valid() && p.region.Valid() && Carries(vs, ws, p, due) && IsResident(v)
    ensures Carries([v] + vs, ws, p, due)
  {
    KeepCons(v, vs);
    assert [] + Keep(vs) == Keep(vs);
  }

  lemma CarriesRevised(v: Visit, vs: seq<Visit>, ws: seq<Visit>, p: Policy, due: bool)
    requires p.cells.Valid() && p.region.Valid() && Carries(vs, ws, p, due) && !IsResident(v)
    ensures Carries([v] + vs, [Revise(v, p)] + ws, p, due)
  {
    KeepCons(v, vs);
    KeepCons(Revise(v, p), ws);
    ReviseCons(v, Keep(vs), p);
    assert [] + Residents(ws) == Residents(ws);
  }

  /** The copied property, if any, visits the revised property. */
  lemma CopyPropVisits(t: Token, stack: Stack, rootSeen: bool, original: Bytes, p: Policy)
    requires Resolves(original, p) && t.Prop? && Step(t, stack, rootSeen, original).Some?
    requires CopyProp(t, stack, p).Some?
    ensures Step(t, stack, rootSeen, original)
         == Some([Visit(stack[1..], NameAt(original, t.nameOffset).value, t.data)])
    ensures
      var v, c := Step(t, stack, rootSeen, original).value[0], CopyProp(t, stack, p).value;
      if IsResident(v) then c == []
      else |c| == 1 && c[0].Prop? && Step(c[0], stack, rootSeen, p.strings) == Some([Revise(v, p)])
  {
    var v := Step(t, stack, rootSeen, original).value[0];
    Distinct();
    assert InChosen(stack) <==> stack[1..] == [CHOSEN] by {
      if |stack| == 2 { assert stack[1..] == [stack[1]]; }
    }
  }

  lemma CopyWalksProp(t: Token, rest: seq<Token>, stack: Stack, rootSeen: bool, original: Bytes, p: Policy,
                      vs: seq<Visit>, due: bool)
    requires Resolves(original, p) && t.Prop? && Step(t, stack, rootSeen, original).Some?
    requires CopyProp(t, stack, p).Some? && Walk(rest, stack, rootSeen, p.strings).Some?
    requires Carries(vs, Walk(rest, stack, rootSeen, p.strings).value, p, due)
    ensures
      var w := Walk(CopyProp(t, stack, p).value + rest, stack, rootSeen, p.strings);
      w.Some? && Carries(Step(t, stack, rootSeen, original).value + vs, w.value, p, due)
  {
    CopyPropVisits(t, stack, rootSeen, original, p);
    var v, c := Step(t, stack, rootSeen, original).value[0], CopyProp(t, stack, p).value;
    var ws := Walk(rest, stack, rootSeen, p.strings).value;
    if IsResident(v) {
      assert c + rest == rest;
      CarriesDropped(v, vs, ws, p, due);
    } else {
      assert c == [c[0]];
      WalkCons(c[0], rest, stack, rootSeen, p.strings);
      CarriesRevised(v, vs, ws, p, due);
    }
  }

  lemma CopyWalksBegin(t: Token, rest: seq<Token>, stack: Stack, rootSeen: bool, seen: bool, p: Policy, vs: seq<Visit>)
    requires Resolves(p.strings, p) && t.Begin? && MayEnter(stack, rootSeen, t.name) && Rooted(stack)
    requires CopyToken(t, stack, seen, p).Some? && Walk(rest, stack + [t.name], true, p.strings).Some?
    requires Carries(vs, Walk(rest, stack + [t.name], true, p.strings).value, p,
                     Due(stack + [t.name], true, SeenAfter(t, stack, seen)))
    requires stack != [] ==> rootSeen
    ensures
      var w := Walk(CopyToken(t, stack, seen, p).value + rest, stack, rootSeen, p.strings);
      w.Some? && Carries(vs, w.value, p, Due(stack, rootSeen, seen))
  {
    var inner := stack + [t.name];
    var ws := Walk(rest, inner, true, p.strings).value;
    if |stack| == 1 && t.name == CHOSEN {
      WalkPublish(p, inner, true, rest);
      WalkPast(t, [Publish(p)] + rest, stack, rootSeen, p.strings);
      assert [t, Publish(p)] + rest == [t] + ([Publish(p)] + rest);
      CarriesPublished(vs, ws, p);
    } else {
      WalkPast(t, rest, stack, rootSeen, p.strings);
    }
  }

  lemma CopyWalksEnd(rest: seq<Token>, stack: Stack, seen: bool, p: Policy, vs: seq<Visit>)
    requires Resolves(p.strings, p) && stack != [] && Rooted(stack)
    requires Walk(rest, stack[..|stack| - 1], true, p.strings).Some?
    requires Carries(vs, Walk(rest, stack[..|stack| - 1], true, p.strings).value, p,
                     Due(stack[..|stack| - 1], true, seen))
    ensures
      var w := Walk(CopyToken(End, stack, seen, p).value + rest, stack, true, p.strings);
      w.Some? && Carries(vs, w.value, p, Due(stack, true, seen))
  {
    WalkPast(End, rest, stack, true, p.strings);
    if |stack| == 1 && !seen {
      assert stack == [[]];
      WalkNewChosen(p, [End] + rest);
      assert NewChosen(p) + [End] + rest == NewChosen(p) + ([End] + rest);
      CarriesPublished(vs, Walk(rest, [], true, p.strings).value, p);
    }
  }

  /** A copy is accepted, and means the original revised, with the policy once under /chosen. */
  lemma {:induction false} CopyWalks(
    ts: seq<Token>, stack: Stack, rootSeen: bool, seen: bool, original: Bytes, p: Policy)
    requires Resolves(original, p) && Resolves(p.strings, p)
    requires Walk(ts, stack, rootSeen, original).Some? && Copy(ts, stack, seen, p).Some?
    requires Rooted(stack) && (stack != [] ==> rootSeen)
    ensures
      var w := Walk(Copy(ts, stack, seen, p).value, stack, rootSeen, p.strings);
      w.Some? && Carries(Walk(ts, stack, rootSeen, original).value, w.value, p, Due(stack, rootSeen, seen))
    decreases |ts|
  {
    var t := ts[0];
    if t == Fin {
      assert Copy(ts, stack, seen, p).value == [Fin];
    } else {
      var next, nextSeen := StackAfter(t, stack), SeenAfter(t, stack, seen);
      var nextRoot := rootSeen || t.Begin?;
      assert Rooted(next) && (next != [] ==> nextRoot);
      CopyWalks(ts[1..], next, nextRoot, nextSeen, original, p);
      var rest, vs := Copy(ts[1..], next, nextSeen, p).value, Walk(ts[1..], next, nextRoot, original).value;
      assert [] + vs == vs;
      match t
      case Begin(_, _) => CopyWalksBegin(t, rest, stack, rootSeen, seen, p, vs);
      case End => CopyWalksEnd(rest, stack, seen, p, vs);
      case Prop(_, _, _) => CopyWalksProp(t, rest, stack, rootSeen, original, p, vs, Due(stack, rootSeen, seen));
      case Nop => WalkPast(Nop, rest, stack, rootSeen, p.strings);
    }
  }
}
