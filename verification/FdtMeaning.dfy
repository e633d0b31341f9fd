/** From a copy's visits to what a devicetree says, and copying a copy. */
module FdtMeaning {
  import opened Types
  import opened FdtRanges
  import opened FdtTokens
  import opened Fdt
  import opened FdtMemory
  import opened FdtCopy

  lemma {:induction false} KeepData(vs: seq<Visit>, path: seq<Bytes>, name: Bytes)
    requires !(path == [CHOSEN] && name == RESIDENT)
    ensures Data(Keep(vs), path, name) == Data(vs, path, name)
  {
    if vs != [] {
      KeepData(vs[1..], path, name);
      var v := vs[0];
      if IsResident(v) {
        assert [] + Keep(vs[1..]) == Keep(vs[1..]);
        assert [] + Data(vs[1..], path, name) == Data(vs[1..], path, name);
      } else {
        assert ([v] + Keep(vs[1..]))[1..] == Keep(vs[1..]);
      }
    }
  }

  lemma {:induction false} ResidentData(vs: seq<Visit>)
    ensures Data(vs, [CHOSEN], RESIDENT) == Data(Residents(vs), [CHOSEN], RESIDENT)
  {
    if vs != [] {
      ResidentData(vs[1..]);
      var v := vs[0];
      if IsResident(v) {
        assert ([v] + Residents(vs[1..]))[1..] == Residents(vs[1..]);
      } else {
        assert [] + Residents(vs[1..]) == Residents(vs[1..]);
        assert [] + Data(vs[1..], [CHOSEN], RESIDENT) == Data(vs[1..], [CHOSEN], RESIDENT);
      }
    }
  }

  /** Each datum minus the region where that can be written. */
  function SubtractEach(ds: seq<Bytes>, p: Policy): seq<Bytes>
    requires p.cells.Valid()
  {
    if ds == [] then []
    else
      [if Subtract(ds[0], p.cells, p.region).Some? then Subtract(ds[0], p.cells, p.region).value else ds[0]]
      + SubtractEach(ds[1..], p)
  }

  lemma {:induction false} ReviseData(vs: seq<Visit>, path: seq<Bytes>, name: Bytes, p: Policy)
    requires p.cells.Valid()
    ensures Data(ReviseAll(vs, p), path, name)
         == if path in p.memory && name == REG then SubtractEach(Data(vs, path, name), p) else Data(vs, path, name)
  {
    if vs != [] {
      ReviseData(vs[1..], path, name, p);
      var v := vs[0];
      var rest := Data(vs[1..], path, name);
      assert ([Revise(v, p)] + ReviseAll(vs[1..], p))[1..] == ReviseAll(vs[1..], p);
      if v.path == path && v.name == name {
        assert ([v.data] + rest)[1..] == rest;
      } else {
        assert [] + rest == rest;
      }
    }
  }

  lemma {:induction false} KeepMemory(vs: seq<Visit>)
    ensures MemoryPaths(Keep(vs)) == MemoryPaths(vs)
  {
    if vs != [] {
      KeepMemory(vs[1..]);
      Distinct();
      var v := vs[0];
      if IsResident(v) {
        assert [] + Keep(vs[1..]) == Keep(vs[1..]);
        assert [] + MemoryPaths(vs[1..]) == MemoryPaths(vs[1..]);
      } else {
        assert ([v] + Keep(vs[1..]))[1..] == Keep(vs[1..]);
      }
    }
  }

  lemma {:induction false} ReviseMemory(vs: seq<Visit>, p: Policy)
    requires p.cells.Valid()
    ensures MemoryPaths(ReviseAll(vs, p)) == MemoryPaths(vs)
  {
    if vs != [] {
      ReviseMemory(vs[1..], p);
      Distinct();
      var v := vs[0];
      assert ([Revise(v, p)] + ReviseAll(vs[1..], p))[1..] == ReviseAll(vs[1..], p);
    }
  }

  /** The same memory nodes, and the same data everywhere but in their `reg` and under /chosen. */
  lemma CarriesMeaning(vs: seq<Visit>, ws: seq<Visit>, p: Policy, path: seq<Bytes>, name: Bytes)
    requires p.cells.Valid() && p.region.Valid() && Carries(vs, ws, p, true)
    ensures MemoryPaths(ws) == MemoryPaths(vs)
    ensures
      Data(ws, path, name)
      == if path == [CHOSEN] && name == RESIDENT then [RegionBytes(p.region)]
         else if path in p.memory && name == REG then SubtractEach(Data(vs, path, name), p)
         else Data(vs, path, name)
  {
    KeepMemory(vs);
    KeepMemory(ws);
    ReviseMemory(Keep(vs), p);
    if path == [CHOSEN] && name == RESIDENT {
      ResidentData(ws);
      assert [Published(p)][1..] == [];
      assert Data([], path, name) == [];
    } else {
      KeepData(vs, path, name);
      KeepData(ws, path, name);
      ReviseData(Keep(vs), path, name, p);
    }
  }

  // ---- Copying twice ----------------------------------------------------------------------------

  lemma CopyPast(t: Token, rest: seq<Token>, stack: Stack, seen: bool, p: Policy, out: seq<Token>)
    requires p.cells.Valid() && p.region.Valid() && t != Fin
    requires CopyToken(t, stack, seen, p) == Some([t])
    requires Copy(rest, StackAfter(t, stack), SeenAfter(t, stack, seen), p) == Some(out)
    ensures Copy([t] + rest, stack, seen, p) == Some([t] + out)
  {
    CopyCons(t, rest, stack, seen, p);
  }

  lemma CopyPublish(p: Policy, stack: Stack, seen: bool, rest: seq<Token>, out: seq<Token>)
    requires Resolves(p.strings, p) && InChosen(stack) && Copy(rest, stack, seen, p) == Some(out)
    ensures Copy([Publish(p)] + rest, stack, seen, p) == Some(out)
  {
    CopyCons(Publish(p), rest, stack, seen, p);
    assert [] + out == out;
  }

  lemma CopyChosen(t: Token, p: Policy, rest: seq<Token>, out: seq<Token>)
    requires Resolves(p.strings, p) && t.Begin? && t.name == CHOSEN && Copy(rest, [[], CHOSEN], true, p) == Some(out)
    ensures Copy([t] + ([Publish(p)] + rest), [[]], false, p) == Some([t, Publish(p)] + out)
  {
    CopyPublish(p, [[], CHOSEN], true, rest, out);
    assert [[]] + [CHOSEN] == [[], CHOSEN];
    CopyCons(t, [Publish(p)] + rest, [[]], false, p);
  }

  /** After the root has ended nothing is left to copy differently. */
  lemma {:induction false} CopyAfterRoot(ts: seq<Token>, strings: Bytes, seen: bool, p: Policy)
    requires Closed(ts) && Walk(ts, [], true, strings).Some? && p.cells.Valid() && p.region.Valid()
    ensures Copy(ts, [], seen, p) == Some(ts)
    decreases |ts|
  {
    if ts[0] == Fin {
      assert ts == [Fin];
    } else {
      ClosedTail(ts);
      CopyAfterRoot(ts[1..], strings, seen, p);
      assert [ts[0]] + ts[1..] == ts;
    }
  }

  lemma CopyEnds(p: Policy, rest: seq<Token>)
    requires p.cells.Valid() && p.region.Valid() && Copy(rest, [], true, p) == Some(rest)
    ensures
      var a := [End] + rest;
      Copy(a, [[]], true, p) == Some(a) && Copy([End] + a, [[], CHOSEN], true, p) == Some([End] + a)
  {
    var inner: Stack := [[], CHOSEN];
    assert inner[..1] == [[]];
    CopyPast(End, rest, [[]], true, p, rest);
    CopyPast(End, [End] + rest, inner, true, p, [End] + rest);
  }

  lemma NewChosenCopied(p: Policy, a: seq<Token>)
    requires p.region.Valid()
    ensures [Begin(CHOSEN, [0]), Publish(p)] + ([End] + a) == NewChosen(p) + a
  {
  }

  lemma CopyNewChosen(p: Policy, rest: seq<Token>)
    requires Resolves(p.strings, p) && Copy(rest, [], true, p) == Some(rest)
    ensures Copy(NewChosen(p) + ([End] + rest), [[]], false, p) == Some(NewChosen(p) + ([End] + rest))
  {
    var a := [End] + rest;
    CopyEnds(p, rest);
    CopyChosen(Begin(CHOSEN, [0]), p, [End] + a, [End] + a);
    NewChosenParts(p, a);
    NewChosenCopied(p, a);
  }

  /** A copied property is copied as it is. */
  lemma CopyPropTwice(t: Token, stack: Stack, p: Policy)
    requires p.cells.Valid() && p.region.Valid() && t.Prop? && Good(t) && stack != []
    requires CopyProp(t, stack, p).Some? && CopyProp(t, stack, p).value != []
    ensures
      var c := CopyProp(t, stack, p).value;
      |c| == 1 && c[0].Prop? && Good(c[0]) && CopyProp(c[0], stack, p) == Some(c)
  {
    var name := NameAt(p.strings, t.nameOffset).value;
    if stack[1..] in p.memory && name == REG {
      var data := Subtract(t.data, p.cells, p.region).value;
      RegTwice(t.data, p);
      assert CopyProp(t, stack, p).value == [Prop(t.nameOffset, data, [])];
    }
  }

  lemma RegTwice(data: Bytes, p: Policy)
    requires p.cells.Valid() && p.region.Valid() && Subtract(data, p.cells, p.region).Some?
    ensures
      var out := Subtract(data, p.cells, p.region).value;
      Subtract(out, p.cells, p.region) == Some(out) && Pad(|out|) == 0
  {
    SubtractSettles(data, p.cells, p.region);
    SubtractAligned(data, p);
    PadZero(|Subtract(data, p.cells, p.region).value|);
  }

  lemma SubtractAligned(data: Bytes, p: Policy)
    requires p.cells.Valid() && p.region.Valid() && Subtract(data, p.cells, p.region).Some?
    ensures |Subtract(data, p.cells, p.region).value| % 4 == 0
  {
    SubtractSettles(data, p.cells, p.region);
    WordMultiple(|Subtract(data, p.cells, p.region).value|, p.cells);
  }

  lemma WordMultiple(n: nat, c: Cells)
    requires c.Valid() && n % c.Stride() == 0
    ensures n % 4 == 0
  {
    var q := n / c.Stride();
    assert n == c.Stride() * q;
    if c.Stride() == 8 { assert n == 4 * (2 * q); }
    else if c.Stride() == 12 { assert n == 4 * (3 * q); }
    else { assert n == 4 * (4 * q); }
  }

  lemma PublishGood(p: Policy)
    requires p.region.Valid() && p.nameOffset < U32_LIMIT
    ensures Good(Publish(p)) && Good(Begin(CHOSEN, [0]))
  {
    Distinct();
    CleanNames();
    PadValues();
  }

  /** Every token a copy writes is well formed, and copying it again writes it again. */
  lemma {:induction false} CopyTwice(
    ts: seq<Token>, stack: Stack, rootSeen: bool, seen: bool, original: Bytes, p: Policy)
    requires Resolves(original, p) && Resolves(p.strings, p) && Closed(ts)
    requires Walk(ts, stack, rootSeen, original).Some? && Copy(ts, stack, seen, p).Some?
    requires Rooted(stack) && (stack != [] ==> rootSeen)
    ensures
      var out := Copy(ts, stack, seen, p).value;
      Closed(out) && Copy(out, stack, seen, p) == Some(out)
    decreases |ts|
  {
    var t := ts[0];
    if t == Fin {
      assert ts == [Fin];
    } else {
      ClosedTail(ts);
      PublishGood(p);
      var next, nextSeen := StackAfter(t, stack), SeenAfter(t, stack, seen);
      CopyTwice(ts[1..], next, rootSeen || t.Begin?, nextSeen, original, p);
      var rest := Copy(ts[1..], next, nextSeen, p).value;
      match t
      case Begin(_, _) => BeginTwice(t, rest, stack, seen, p);
      case End =>
        if |stack| == 1 && !seen {
          CopyAfterRoot(ts[1..], original, false, p);
          CopyAfterRoot(ts[1..], original, true, p);
        }
        EndTwice(rest, stack, seen, p);
      case Prop(_, _, _) => PropTwice(t, rest, stack, seen, p);
      case Nop =>
        ClosedCons(Nop, rest);
        CopyPast(Nop, rest, stack, seen, p, rest);
    }
  }

  lemma BeginTwice(t: Token, rest: seq<Token>, stack: Stack, seen: bool, p: Policy)
    requires Resolves(p.strings, p) && t.Begin? && Good(t) && Rooted(stack) && Closed(rest)
    requires Good(Publish(p)) && CopyToken(t, stack, seen, p).Some?
    requires Copy(rest, stack + [t.name], SeenAfter(t, stack, seen), p) == Some(rest)
    ensures
      var out := CopyToken(t, stack, seen, p).value + rest;
      Closed(out) && Copy(out, stack, seen, p) == Some(out)
  {
    if |stack| == 1 && t.name == CHOSEN {
      assert stack == [[]] && stack + [t.name] == [[], CHOSEN];
      CopyChosen(t, p, rest, rest);
      ClosedCons(Publish(p), rest);
      ClosedCons(t, [Publish(p)] + rest);
      assert [t, Publish(p)] + rest == [t] + ([Publish(p)] + rest);
    } else {
      CopyPast(t, rest, stack, seen, p, rest);
      ClosedCons(t, rest);
    }
  }

  lemma EndTwice(rest: seq<Token>, stack: Stack, seen: bool, p: Policy)
    requires Resolves(p.strings, p) && stack != [] && Rooted(stack) && Closed(rest)
    requires Good(Publish(p)) && Good(Begin(CHOSEN, [0]))
    requires Copy(rest, stack[..|stack| - 1], seen, p) == Some(rest)
    requires |stack| == 1 && !seen ==> Copy(rest, [], true, p) == Some(rest)
    ensures
      var out := CopyToken(End, stack, seen, p).value + rest;
      Closed(out) && Copy(out, stack, seen, p) == Some(out)
  {
    ClosedCons(End, rest);
    if |stack| == 1 && !seen {
      assert stack == [[]];
      CopyNewChosen(p, rest);
      var a := [End] + rest;
      ClosedCons(End, a);
      ClosedCons(Publish(p), [End] + a);
      ClosedCons(Begin(CHOSEN, [0]), [Publish(p)] + ([End] + a));
      NewChosenParts(p, a);
      Associative(NewChosen(p), [End], rest);
    } else {
      CopyPast(End, rest, stack, seen, p, rest);
    }
  }

  lemma PropTwice(t: Token, rest: seq<Token>, stack: Stack, seen: bool, p: Policy)
    requires Resolves(p.strings, p) && t.Prop? && Good(t) && stack != [] && Closed(rest)
    requires CopyProp(t, stack, p).Some? && Copy(rest, stack, seen, p) == Some(rest)
    ensures
      var out := CopyProp(t, stack, p).value + rest;
      Closed(out) && Copy(out, stack, seen, p) == Some(out)
  {
    var c := CopyProp(t, stack, p).value;
    if c == [] {
      assert c + rest == rest;
    } else {
      CopyPropTwice(t, stack, p);
      assert c == [c[0]];
      CopyPast(c[0], rest, stack, seen, p, rest);
      ClosedCons(c[0], rest);
    }
  }
}
