/** The exclusion as the program runs it: loops over the input and a writer filling the output. */
module FdtWriter {
  import opened Types
  import opened FdtRanges
  import opened FdtTokens
  import F = Fdt
  import M = FdtMemory
  import opened FdtFaults
  import opened FdtPlanner

  /** An output buffer filled from the front; a write that does not fit fails. */
  class Writer {
    const buffer: array<byte>
    var pos: nat

    ghost predicate Valid()
      reads this, buffer
    {
      pos <= buffer.Length
    }

    ghost function Written(): Bytes
      requires Valid()
      reads this, buffer
    {
      buffer[..pos]
    }

    constructor (output: array<byte>)
      ensures Valid() && buffer == output && Written() == []
    {
      buffer, pos := output, 0;
    }

    method Bytes(data: Bytes) returns (ok: bool)
      requires Valid()
      modifies this, buffer
      ensures Valid() && ok == (|old(Written())| + |data| <= buffer.Length)
      ensures Written() == if ok then old(Written()) + data else old(Written())
    {
      if pos + |data| > buffer.Length { return false; }
      ghost var before := Written();
      for i := 0 to |data|
        invariant pos == old(pos) && buffer[..pos] == before && buffer[pos..pos + i] == data[..i]
      {
        buffer[pos + i] := data[i];
      }
      assert data[..|data|] == data;
      assert buffer[..pos + |data|] == buffer[..pos] + buffer[pos..pos + |data|];
      pos := pos + |data|;
      return true;
    }

    /** Overwrite a word already written. */
    method Patch(offset: nat, value: nat)
      requires Valid() && offset + 4 <= pos
      modifies buffer
      ensures Valid() && Written() == old(Written())[..offset] + Be32(value) + old(Written())[offset + 4..]
    {
      var word := Be32(value);
      ghost var before := Written();
      for i := 0 to 4
        invariant forall j: nat :: j < pos ==>
          buffer[j] == if offset <= j < offset + i then word[j - offset] else before[j]
      {
        buffer[offset + i] := word[i];
      }
      assert Written() == before[..offset] + word + before[offset + 4..];
    }
  }

  // ---- Ranges -----------------------------------------------------------------------------------

  ghost predicate Unwrapped(bs: seq<Bank>) { forall i: nat :: i < |bs| ==> bs[i].start + bs[i].size < U64_LIMIT }

  lemma RestCons(k: Bank, bs: seq<Bank>, r: Region)
    ensures RestAll([k] + bs, r) == Rest(k, r) + RestAll(bs, r)
    ensures Unwrapped([k] + bs) <==> k.start + k.size < U64_LIMIT && Unwrapped(bs)
  {
    assert ([k] + bs)[1..] == bs;
    if Unwrapped([k] + bs) {
      assert ([k] + bs)[0] == k;
      forall i: nat | i < |bs| ensures bs[i].start + bs[i].size < U64_LIMIT { assert ([k] + bs)[i + 1] == bs[i]; }
    }
  }

  /** The banks left of a `reg` property, bank by bank. */
  method Ranges(data: Bytes, c: Cells, r: Region) returns (left: Option<seq<Bank>>)
    requires c.Valid()
    ensures left == if Banks(data, c).None? then None else Some(RestAll(Banks(data, c).value, r))
  {
    if |data| % c.Stride() != 0 { return None; }
    ghost var all := DecodeBanks(data, c);
    var out: seq<Bank> := [];
    var rest, stride := data, c.Stride();
    while rest != []
      invariant |rest| % c.Stride() == 0
      invariant Unwrapped(all) <==> Unwrapped(DecodeBanks(rest, c))
      invariant RestAll(all, r) == out + RestAll(DecodeBanks(rest, c), r)
      decreases |rest|
    {
      Peel(rest, c);
      var bank := DecodeBank(rest[..stride], c);
      ghost var tail := DecodeBanks(rest[stride..], c);
      RestCons(bank, tail, r);
      if bank.start + bank.size >= U64_LIMIT { return None; }
      Associative(out, Rest(bank, r), RestAll(tail, r));
      out := out + Rest(bank, r);
      rest := rest[stride..];
    }
    assert DecodeBanks(rest, c) == [] && Unwrapped(DecodeBanks(rest, c));
    assert out + [] == out;
    return Some(out);
  }

  lemma EncodeSnoc(bs: seq<Bank>, k: Bank, c: Cells)
    requires c.Valid()
    ensures EncodeBanks(bs + [k], c) == EncodeBanks(bs, c) + EncodeBank(k, c)
  {
    if bs == [] {
      assert [k][1..] == [];
      assert [] + [k] == [k];
    } else {
      assert (bs + [k])[1..] == bs[1..] + [k];
      EncodeSnoc(bs[1..], k, c);
    }
  }

  /** Banks written number by number, if they fit their cells. */
  method WriteBanks(left: seq<Bank>, c: Cells) returns (out: Option<Bytes>)
    requires c.Valid()
    ensures out == if exists i: nat :: i < |left| && !Fits(left[i], c) then None else Some(EncodeBanks(left, c))
  {
    var bytes: Bytes := [];
    for i := 0 to |left|
      invariant bytes == EncodeBanks(left[..i], c)
      invariant forall j: nat :: j < i ==> Fits(left[j], c)
    {
      if !Fits(left[i], c) { return None; }
      EncodeSnoc(left[..i], left[i], c);
      assert left[..i + 1] == left[..i] + [left[i]];
      bytes := bytes + (Number(left[i].start, c.address) + Number(left[i].size, c.size));
    }
    assert left[..|left|] == left;
    return Some(bytes);
  }

  /** A `reg` property's new data. */
  method Shrink(data: Bytes, c: Cells, r: Region) returns (out: Option<Bytes>)
    requires c.Valid()
    ensures out == Subtract(data, c, r)
  {
    var left := Ranges(data, c, r);
    if left.None? { return None; }
    out := WriteBanks(left.value, c);
  }

  // ---- The walk ------------------------------------------------------------------------------------

  /** Decoding and walking together. */
  function Walked(b: Bytes, stack: F.Stack, rootSeen: bool, strings: Bytes): Option<seq<F.Visit>> {
    match Decode(b)
    case None => None
    case Some(ts) => F.Walk(ts, stack, rootSeen, strings)
  }

  ghost predicate Onward(whole: Option<seq<F.Visit>>, done: seq<F.Visit>, rest: Option<seq<F.Visit>>) {
    whole == if rest.None? then None else Some(done + rest.value)
  }

  lemma WalkedStep(b: Bytes, stack: F.Stack, rootSeen: bool, strings: Bytes)
    ensures First(b).None? ==> Walked(b, stack, rootSeen, strings) == None
    ensures First(b) == Some(Fin) ==>
              |b| >= 4
              && Walked(b, stack, rootSeen, strings)
              == if Zero(b[4..]) then F.Step(Fin, stack, rootSeen, strings) else None
    ensures First(b).Some? && First(b).value != Fin ==>
              var t := First(b).value;
              && |Encode(t)| <= |b|
              && (F.Step(t, stack, rootSeen, strings).None? ==> Walked(b, stack, rootSeen, strings) == None)
              && (F.Step(t, stack, rootSeen, strings).Some? ==>
                    Onward(Walked(b, stack, rootSeen, strings), F.Step(t, stack, rootSeen, strings).value,
                           Walked(b[|Encode(t)|..], F.StackAfter(t, stack), rootSeen || t.Begin?, strings)))
  {
    if First(b).Some? {
      FirstIs(b);
      var t := First(b).value;
      if t != Fin {
        var rest := Decode(b[|Encode(t)|..]);
        if rest.Some? { assert ([t] + rest.value)[1..] == rest.value; }
      } else {
        assert F.Walk([Fin], stack, rootSeen, strings) == F.Step(Fin, stack, rootSeen, strings);
      }
    }
  }

  lemma {:induction false} FaultStep(b: Bytes, stack: F.Stack, rootSeen: bool, strings: Bytes)
    ensures
      var t, whole := First(b), WalkFault(b, stack, rootSeen, strings);
      if t.None? || F.Step(t.value, stack, rootSeen, strings).None? then
        whole == Some(TokenFault(b, stack, rootSeen, strings))
      else if t.value == Fin then whole == if Zero(b[4..]) then None else Some(Structure)
      else
        |Encode(t.value)| <= |b|
        && whole == WalkFault(b[|Encode(t.value)|..], F.StackAfter(t.value, stack), rootSeen || t.value.Begin?, strings)
  {
    if First(b).Some? { FirstIs(b); }
  }

  method Walk(structure: Bytes, strings: Bytes) returns (visits: Result<seq<F.Visit>, FdtError>)
    ensures visits.Ok? ==> Walked(structure, [], false, strings) == Some(visits.value)
    ensures visits.Err? ==> Walked(structure, [], false, strings) == None
    ensures WalkFault(structure, [], false, strings) == if visits.Ok? then None else Some(visits.error)
  {
    ghost var whole := Walked(structure, [], false, strings);
    ghost var fault := WalkFault(structure, [], false, strings);
    var stack: F.Stack, rootSeen, rest, done: seq<F.Visit> := [], false, structure, [];
    if whole.Some? { assert [] + whole.value == whole.value; }
    while true
      invariant Onward(whole, done, Walked(rest, stack, rootSeen, strings))
      invariant fault == WalkFault(rest, stack, rootSeen, strings)
      decreases |rest|
    {
      WalkedStep(rest, stack, rootSeen, strings);
      FaultStep(rest, stack, rootSeen, strings);
      var t := First(rest);
      if t.None? { return Err(TokenFault(rest, stack, rootSeen, strings)); }
      var step := F.Step(t.value, stack, rootSeen, strings);
      if step.None? { return Err(TokenFault(rest, stack, rootSeen, strings)); }
      if t.value == Fin {
        if !Zero(rest[4..]) { return Err(Structure); }
        assert step.value == [] && done + [] == done;
        return Ok(done);
      }
      OnwardTrans(whole, done, Walked(rest, stack, rootSeen, strings), step.value,
                  Walked(rest[|Encode(t.value)|..], F.StackAfter(t.value, stack), rootSeen || t.value.Begin?, strings));
      done := done + step.value;
      stack, rootSeen, rest :=
        F.StackAfter(t.value, stack), rootSeen || t.value.Begin?, rest[|Encode(t.value)|..];
    }
  }

  lemma OnwardTrans(whole: Option<seq<F.Visit>>, done: seq<F.Visit>, mid: Option<seq<F.Visit>>,
                    step: seq<F.Visit>, rest: Option<seq<F.Visit>>)
    requires Onward(whole, done, mid) && Onward(mid, step, rest)
    ensures Onward(whole, done + step, rest)
  {
    if rest.Some? { Associative(done, step, rest.value); }
  }

  // ---- The copy ------------------------------------------------------------------------------------

  method CopyProp(t: Token, stack: F.Stack, p: M.Policy) returns (out: Option<seq<Token>>)
    requires t.Prop? && stack != [] && p.cells.Valid()
    ensures out == M.CopyProp(t, stack, p)
  {
    var name := F.NameAt(p.strings, t.nameOffset);
    if name.None? { return None; }
    if M.InChosen(stack) && name.value == M.RESIDENT { return Some([]); }
    if stack[1..] in p.memory && name.value == M.REG {
      var data := Shrink(t.data, p.cells, p.region);
      if data.None? || |data.value| >= U32_LIMIT { return None; }
      return Some([Prop(t.nameOffset, data.value, [])]);
    }
    return Some([t]);
  }

  method CopyToken(t: Token, stack: F.Stack, seen: bool, p: M.Policy) returns (out: Option<seq<Token>>)
    requires p.cells.Valid() && p.region.Valid()
    ensures out == M.CopyToken(t, stack, seen, p)
  {
    match t
    case Begin(name, _) =>
      if |stack| == 1 && name == M.CHOSEN {
        if seen { return None; }
        return Some([t, M.Publish(p)]);
      }
      return Some([t]);
    case End =>
      if stack == [] { return None; }
      return Some(if |stack| == 1 && !seen then M.NewChosen(p) + [t] else [t]);
    case Prop(_, _, _) =>
      if stack == [] { return None; }
      out := CopyProp(t, stack, p);
    case _ => return Some([t]);
  }

  ghost predicate Copies(whole: Option<seq<Token>>, done: seq<Token>, rest: Option<seq<Token>>) {
    whole == if rest.None? then None else Some(done + rest.value)
  }

  lemma {:induction false} CopiesOn(
    whole: Option<seq<Token>>, done: seq<Token>, ts: seq<Token>, stack: F.Stack, seen: bool, p: M.Policy)
    requires p.cells.Valid() && p.region.Valid() && ts != [] && Copies(whole, done, M.Copy(ts, stack, seen, p))
    ensures M.CopyToken(ts[0], stack, seen, p).None? ==> whole == None
    ensures M.CopyToken(ts[0], stack, seen, p).Some? ==>
              var c := M.CopyToken(ts[0], stack, seen, p).value;
              if ts[0] == Fin then whole == Some(done + c)
              else Copies(whole, done + c,
                          M.Copy(ts[1..], F.StackAfter(ts[0], stack), M.SeenAfter(ts[0], stack, seen), p))
  {
    var c := M.CopyToken(ts[0], stack, seen, p);
    if c.Some? && ts[0] != Fin {
      var rest := M.Copy(ts[1..], F.StackAfter(ts[0], stack), M.SeenAfter(ts[0], stack, seen), p);
      if rest.Some? { Associative(done, c.value, rest.value); }
    }
  }

  /** What is still to come only adds bytes. */
  lemma CopiesLength(whole: Option<seq<Token>>, done: seq<Token>, c: seq<Token>, rest: Option<seq<Token>>)
    requires Copies(whole, done + c, rest)
    ensures whole.Some? ==> |EncodeAll(done)| + |EncodeAll(c)| <= |EncodeAll(whole.value)|
  {
    if rest.Some? {
      EncodeConcat(done + c, rest.value);
      EncodeConcat(done, c);
    }
  }

  lemma DecodeStep(b: Bytes)
    requires Decode(b).Some?
    ensures First(b).Some? && Decode(b).value != [] && Decode(b).value[0] == First(b).value
    ensures First(b).value != Fin ==>
              |Encode(First(b).value)| <= |b| && Decode(b[|Encode(First(b).value)|..]) == Some(Decode(b).value[1..])
  {
    FirstIs(b);
    var t := First(b).value;
    if t != Fin {
      var rest := Decode(b[|Encode(t)|..]).value;
      assert ([t] + rest)[1..] == rest;
    }
  }

  lemma {:induction false} FaultOn(ts: seq<Token>, stack: F.Stack, seen: bool, p: M.Policy, pos: nat, room: nat)
    requires p.cells.Valid() && p.region.Valid() && ts != []
    ensures
      var stop := TokenStop(ts[0], stack, seen, p, pos, room);
      CopyFault(ts, stack, seen, p, pos, room)
      == if stop.Some? || ts[0] == Fin then stop
         else CopyFault(ts[1..], F.StackAfter(ts[0], stack), M.SeenAfter(ts[0], stack, seen), p,
                        pos + CopyLength(ts[0], stack, seen, p), room)
  {
  }

  /** One token's bytes into the output, or the error that its copy stops at. */
  method WriteToken(w: Writer, t: Token, stack: F.Stack, seen: bool, p: M.Policy)
    returns (fault: Option<FdtError>, ghost out: seq<Token>)
    requires w.Valid() && p.cells.Valid() && p.region.Valid()
    modifies w, w.buffer
    ensures w.Valid() && fault == TokenStop(t, stack, seen, p, |old(w.Written())|, w.buffer.Length)
    ensures M.CopyToken(t, stack, seen, p).Some? ==> M.CopyToken(t, stack, seen, p) == Some(out)
    ensures fault.None? ==> M.CopyToken(t, stack, seen, p).Some?
    ensures fault.None? ==> |EncodeAll(out)| == CopyLength(t, stack, seen, p)
    ensures fault.None? ==> w.Written() == old(w.Written()) + EncodeAll(out)
  {
    out := [];
    var c := CopyToken(t, stack, seen, p);
    if c.None? {
      var s := CopyStop(t, stack, p);
      return Some(if w.pos + s.written > w.buffer.Length then OutputCapacity else s.error), out;
    }
    out := c.value;
    var ok := w.Bytes(EncodeAll(c.value));
    fault := if ok then None else Some(OutputCapacity);
  }

  /** How far a copy has come: `done` is written, `ts` is still to be copied, and `fault` is how it will end. */
  datatype Copying = Copying(
    done: seq<Token>, ts: seq<Token>, stack: F.Stack, seen: bool, pos: nat, whole: Option<seq<Token>>,
    fault: Option<FdtError>)

  ghost predicate Halfway(s: Copying, p: M.Policy, room: nat)
    requires p.cells.Valid() && p.region.Valid()
  {
    && Copies(s.whole, s.done, M.Copy(s.ts, s.stack, s.seen, p))
    && s.fault == CopyFault(s.ts, s.stack, s.seen, p, s.pos, room)
  }

  ghost function Further(s: Copying, out: seq<Token>, p: M.Policy): Copying
    requires s.ts != [] && p.cells.Valid() && p.region.Valid()
  {
    s.(done := s.done + out, ts := s.ts[1..], stack := F.StackAfter(s.ts[0], s.stack),
       seen := M.SeenAfter(s.ts[0], s.stack, s.seen), pos := s.pos + CopyLength(s.ts[0], s.stack, s.seen, p))
  }

  /** A token that is written brings the copy on, or ends it. */
  lemma {:induction false} WrittenOn(s: Copying, p: M.Policy, room: nat, out: seq<Token>)
    requires p.cells.Valid() && p.region.Valid() && Halfway(s, p, room) && s.ts != []
    requires M.CopyToken(s.ts[0], s.stack, s.seen, p) == Some(out)
    requires TokenStop(s.ts[0], s.stack, s.seen, p, s.pos, room) == None
    ensures if s.ts[0] == Fin then s.whole == Some(s.done + out) && s.fault == None
            else Halfway(Further(s, out, p), p, room)
  {
    CopiesOn(s.whole, s.done, s.ts, s.stack, s.seen, p);
    FaultFurther(s, p, room, out);
  }

  lemma {:induction false} FaultFurther(s: Copying, p: M.Policy, room: nat, out: seq<Token>)
    requires p.cells.Valid() && p.region.Valid() && s.ts != []
    requires s.fault == CopyFault(s.ts, s.stack, s.seen, p, s.pos, room)
    requires M.CopyToken(s.ts[0], s.stack, s.seen, p) == Some(out)
    requires TokenStop(s.ts[0], s.stack, s.seen, p, s.pos, room) == None
    ensures
      var next := Further(s, out, p);
      s.fault == if s.ts[0] == Fin then None
                 else CopyFault(next.ts, next.stack, next.seen, p, next.pos, room)
  {
    FaultOn(s.ts, s.stack, s.seen, p, s.pos, room);
  }

  /** A token that is not written ends it with the token's error. */
  lemma {:induction false} StoppedOn(s: Copying, p: M.Policy, room: nat)
    requires p.cells.Valid() && p.region.Valid() && Halfway(s, p, room) && s.ts != []
    requires TokenStop(s.ts[0], s.stack, s.seen, p, s.pos, room).Some? && s.pos >= |EncodeAll(s.done)|
    ensures s.fault == TokenStop(s.ts[0], s.stack, s.seen, p, s.pos, room)
    ensures s.whole.Some? ==> s.pos - |EncodeAll(s.done)| + |EncodeAll(s.whole.value)| > room
  {
    FaultOn(s.ts, s.stack, s.seen, p, s.pos, room);
    CopiesOn(s.whole, s.done, s.ts, s.stack, s.seen, p);
    var c := M.CopyToken(s.ts[0], s.stack, s.seen, p);
    if c.Some? {
      var next := if s.ts[0] == Fin then Some([])
                  else M.Copy(s.ts[1..], F.StackAfter(s.ts[0], s.stack), M.SeenAfter(s.ts[0], s.stack, s.seen), p);
      TokenLength(s.whole, s.done, c.value, next, s.ts[0] == Fin);
    }
  }

  /** The structure block, token by token, into the output. */
  method CopyStructure(w: Writer, structure: Bytes, p: M.Policy) returns (fault: Option<FdtError>)
    requires w.Valid() && Decode(structure).Some? && p.cells.Valid() && p.region.Valid()
    modifies w, w.buffer
    ensures w.Valid()
    ensures
      var c := M.Copy(Decode(structure).value, [], false, p);
      && (fault.None? <==> c.Some? && |old(w.Written())| + |EncodeAll(c.value)| <= w.buffer.Length)
      && (fault.None? ==> w.Written() == old(w.Written()) + EncodeAll(c.value))
    ensures fault == CopyFault(Decode(structure).value, [], false, p, |old(w.Written())|, w.buffer.Length)
  {
    ghost var start, whole := w.Written(), M.Copy(Decode(structure).value, [], false, p);
    ghost var first := CopyFault(Decode(structure).value, [], false, p, |start|, w.buffer.Length);
    ghost var s := Copying([], Decode(structure).value, [], false, |start|, whole, first);
    var stack: F.Stack, seen, rest := [], false, structure;
    if whole.Some? { assert [] + whole.value == whole.value; }
    assert start + EncodeAll([]) == start;
    while true
      invariant w.Valid() && w.Written() == start + EncodeAll(s.done) && s.pos == w.pos
      invariant Decode(rest) == Some(s.ts) && s.stack == stack && s.seen == seen
      invariant s.whole == whole && s.fault == first && Halfway(s, p, w.buffer.Length)
      decreases |rest|
    {
      DecodeStep(rest);
      var t := First(rest).value;
      ghost var out;
      fault, out := WriteToken(w, t, stack, seen, p);
      if fault.Some? {
        StoppedOn(s, p, w.buffer.Length);
        return;
      }
      WrittenOn(s, p, w.buffer.Length, out);
      Associative(start, EncodeAll(s.done), EncodeAll(out));
      EncodeConcat(s.done, out);
      assert |w.Written()| == w.pos;
      if t == Fin { return; }
      s := Further(s, out, p);
      stack, seen, rest := F.StackAfter(t, stack), M.SeenAfter(t, stack, seen), rest[|Encode(t)|..];
    }
  }

  /** What has been copied, with one more token, is no longer than the whole copy. */
  lemma TokenLength(whole: Option<seq<Token>>, done: seq<Token>, c: seq<Token>, next: Option<seq<Token>>, last: bool)
    requires if last then whole == Some(done + c) && next == Some([]) else Copies(whole, done + c, next)
    ensures whole.Some? ==> |EncodeAll(done)| + |EncodeAll(c)| <= |EncodeAll(whole.value)|
  {
    if last { assert done + c + [] == done + c; }
    CopiesLength(whole, done, c, next);
  }

  // ---- The whole ---------------------------------------------------------------------------------------

  function Overwrite(b: Bytes, offset: nat, v: nat): (r: Bytes)
    requires offset + 4 <= |b|
    ensures |r| == |b|
  {
    b[..offset] + Be32(v) + b[offset + 4..]
  }

  lemma OverwriteHead(h: Bytes, rest: Bytes, offset: nat, v: nat)
    requires offset + 4 <= |h|
    ensures Overwrite(h + rest, offset, v) == Overwrite(h, offset, v) + rest
  {
  }

  lemma OverwriteHeader(h: Bytes, a: nat, b: nat, c: nat, d: nat, e: nat, f: nat)
    requires |h| == F.HEADER
    ensures
      Overwrite(Overwrite(Overwrite(Overwrite(Overwrite(Overwrite(h, 4, a), 8, b), 12, c), 16, d), 32, e), 36, f)
      == h[..4] + Be32(a) + Be32(b) + Be32(c) + Be32(d) + h[20..32] + Be32(e) + Be32(f)
  {
    var x1 := Overwrite(h, 4, a);
    assert x1 == h[..4] + Be32(a) + h[8..];
    var x2 := Overwrite(x1, 8, b);
    assert x2 == h[..4] + Be32(a) + Be32(b) + h[12..];
    var x3 := Overwrite(x2, 12, c);
    assert x3 == h[..4] + Be32(a) + Be32(b) + Be32(c) + h[16..];
    var x4 := Overwrite(x3, 16, d);
    assert x4 == h[..4] + Be32(a) + Be32(b) + Be32(c) + Be32(d) + h[20..];
    var x5 := Overwrite(x4, 32, e);
    assert x5 == h[..4] + Be32(a) + Be32(b) + Be32(c) + Be32(d) + h[20..32] + Be32(e) + h[36..];
    var x6 := Overwrite(x5, 36, f);
    assert x6 == h[..4] + Be32(a) + Be32(b) + Be32(c) + Be32(d) + h[20..32] + Be32(e) + Be32(f) + h[40..];
  }

  /** Fill in the six sizes and offsets once they are known. */
  method PatchHeader(w: Writer, ghost h: Bytes, ghost rest: Bytes, a: nat, b: nat, c: nat, d: nat, e: nat, f: nat)
    requires w.Valid() && |h| == F.HEADER && w.Written() == h + rest
    modifies w.buffer
    ensures w.Valid()
    ensures w.Written()
         == h[..4] + Be32(a) + Be32(b) + Be32(c) + Be32(d) + h[20..32] + Be32(e) + Be32(f) + rest
  {
    ghost var x := h;
    w.Patch(4, a);
    OverwriteHead(x, rest, 4, a);
    x := Overwrite(x, 4, a);
    w.Patch(8, b);
    OverwriteHead(x, rest, 8, b);
    x := Overwrite(x, 8, b);
    w.Patch(12, c);
    OverwriteHead(x, rest, 12, c);
    x := Overwrite(x, 12, c);
    w.Patch(16, d);
    OverwriteHead(x, rest, 16, d);
    x := Overwrite(x, 16, d);
    w.Patch(32, e);
    OverwriteHead(x, rest, 32, e);
    x := Overwrite(x, 32, e);
    w.Patch(36, f);
    OverwriteHead(x, rest, 36, f);
    OverwriteHeader(h, a, b, c, d, e, f);
  }

  /** Everything up to the structure block. */
  method WriteFront(w: Writer, header: Bytes, entries: Bytes) returns (ok: bool)
    requires w.Valid() && w.Written() == [] && |header| == F.HEADER
    modifies w, w.buffer
    ensures w.Valid() && ok == (64 + |entries| <= w.buffer.Length)
    ensures ok ==> w.Written() == header + (Zeros(8) + entries + Zeros(16))
  {
    ok := w.Bytes(header);
    if !ok { return; }
    ok := w.Bytes(Zeros(8));
    if !ok { return; }
    ok := w.Bytes(entries);
    if !ok { return; }
    ok := w.Bytes(Zeros(16));
    assert [] + header == header;
    Associative4(header, Zeros(8), entries, Zeros(16));
  }

  lemma RenderIs(h: Bytes, e: Bytes, structure: Bytes, strings: Bytes)
    requires |h| == F.HEADER
    ensures
      var start := 64 + |e|;
      && F.Render(F.Blob(h, e, structure, strings))
      == h[..4] + Be32(start + |structure| + |strings|) + Be32(start) + Be32(start + |structure|) + Be32(48)
         + h[20..32] + Be32(|strings|) + Be32(|structure|) + (Zeros(8) + e + Zeros(16) + structure + strings)
      && |F.Render(F.Blob(h, e, structure, strings))| == start + |structure| + |strings|
  {
    var p := F.Patch(h, e, structure, strings);
    assert F.Render(F.Blob(h, e, structure, strings)) == p + (Zeros(8) + e + Zeros(16) + structure + strings);
  }

  /** All blocks, behind a header still to be patched. */
  method WriteBody(w: Writer, blob: F.Blob, plan: M.Plan)
    returns (fault: Option<FdtError>, structureAt: nat, stringsAt: nat)
    requires w.Valid() && w.Written() == [] && |blob.header| == F.HEADER && Decode(blob.structure).Some?
    requires plan.policy.cells.Valid() && plan.policy.region.Valid()
    modifies w, w.buffer
    ensures w.Valid()
    ensures
      var c := M.Copy(Decode(blob.structure).value, [], false, plan.policy);
      var start := 64 + |plan.entries|;
      && (fault.None? <==> c.Some? && start + |EncodeAll(c.value)| + |plan.policy.strings| <= w.buffer.Length)
      && (fault.None? ==>
            && structureAt == start && stringsAt == start + |EncodeAll(c.value)|
            && w.Written() == blob.header
               + (Zeros(8) + plan.entries + Zeros(16) + EncodeAll(c.value) + plan.policy.strings))
    ensures fault.Some? ==> fault.value == WriteFault(Decode(blob.structure).value, plan, w.buffer.Length)
    ensures fault.None? ==> WriteFault(Decode(blob.structure).value, plan, w.buffer.Length) == OutputCapacity
  {
    structureAt, stringsAt := 0, 0;
    ghost var c := M.Copy(Decode(blob.structure).value, [], false, plan.policy);
    ghost var front := Zeros(8) + plan.entries + Zeros(16);
    var ok := WriteFront(w, blob.header, plan.entries);
    if !ok { return Some(OutputCapacity), 0, 0; }
    structureAt := w.pos;
    fault := CopyStructure(w, blob.structure, plan.policy);
    if fault.Some? { return; }
    stringsAt := w.pos;
    ok := w.Bytes(plan.policy.strings);
    if !ok { return Some(OutputCapacity), structureAt, stringsAt; }
    Associative4(blob.header, front, EncodeAll(c.value), plan.policy.strings);
  }

  /** With its header patched, what was written is the rendered blob. */
  method Finish(w: Writer, ghost b: F.Blob, structureAt: nat, stringsAt: nat)
    requires w.Valid() && |b.header| == F.HEADER
    requires w.Written() == b.header + (Zeros(8) + b.entries + Zeros(16) + b.structure + b.strings)
    requires structureAt == 64 + |b.entries| && stringsAt == structureAt + |b.structure|
    modifies w.buffer
    ensures w.Valid() && w.Written() == F.Render(b) && |F.Render(b)| == w.pos
  {
    RenderIs(b.header, b.entries, b.structure, b.strings);
    ghost var rest := Zeros(8) + b.entries + Zeros(16) + b.structure + b.strings;
    PatchHeader(w, b.header, rest, w.pos, structureAt, stringsAt, 48, w.pos - stringsAt, stringsAt - structureAt);
  }

  ghost function Written(blob: F.Blob, plan: M.Plan): Option<F.Blob>
    requires Decode(blob.structure).Some? && plan.policy.cells.Valid() && plan.policy.region.Valid()
  {
    var c := M.Copy(Decode(blob.structure).value, [], false, plan.policy);
    if c.None? then None else Some(F.Blob(blob.header, plan.entries, EncodeAll(c.value), plan.policy.strings))
  }

  /** A planned exclusion written out, header last. */
  method WriteBlob(w: Writer, blob: F.Blob, plan: M.Plan) returns (size: Result<nat, FdtError>)
    requires w.Valid() && w.Written() == [] && |blob.header| == F.HEADER && Decode(blob.structure).Some?
    requires plan.policy.cells.Valid() && plan.policy.region.Valid()
    modifies w, w.buffer
    ensures w.Valid()
    ensures Written(blob, plan).None? ==> size.Err?
    ensures Written(blob, plan).Some? ==>
              var out := F.Render(Written(blob, plan).value);
              && (size.Ok? <==> |out| <= w.buffer.Length && |out| < U32_LIMIT)
              && (size.Ok? ==> size.value == |out| == w.pos && w.Written() == out)
    ensures size.Err? ==> size.error == WriteFault(Decode(blob.structure).value, plan, w.buffer.Length)
  {
    ghost var b := Written(blob, plan);
    if b.Some? { RenderIs(blob.header, b.value.entries, b.value.structure, b.value.strings); }
    var fault, structureAt, stringsAt := WriteBody(w, blob, plan);
    if fault.Some? { return Err(fault.value); }
    if w.pos >= U32_LIMIT { return Err(OutputCapacity); }
    Finish(w, b.value, structureAt, stringsAt);
    return Ok(w.pos);
  }

  /**
   The exclusion: a blob of the returned size at the front of the output, exactly when there is one
   and it fits, and otherwise the error. A failure leaves the input as it was.
   */
  method Exclude(input: Bytes, output: array<byte>, r: Region) returns (size: Result<nat, FdtError>)
    requires r.Valid()
    modifies output
    ensures size.Ok? <==> M.Exclude(input, r).Some? && |M.Exclude(input, r).value| <= output.Length
    ensures size.Ok? ==> size.value <= output.Length && output[..size.value] == M.Exclude(input, r).value
    ensures size.Err? ==> size.error == Fault(input, r, output.Length)
  {
    var tree := ReadTree(input);
    if tree.Err? { return Err(tree.error); }
    M.ParsedBlob(input);
    var plan := MakePlan(tree.value, r);
    if plan.Err? { return Err(plan.error); }
    var w := new Writer(output);
    size := WriteTree(w, tree.value, plan.value);
    if size.Err? { return; }
    var again := ReadTree(output[..size.value]);
    if again.Err? { return Err(again.error); }
  }

  /** A blob read as far as the walk over its properties. */
  method ReadTree(input: Bytes) returns (tree: Result<F.Tree, FdtError>)
    ensures tree == match F.Parse(input) case Some(t) => Ok(t) case None => Err(ParseFault(input))
  {
    var blob := F.Blocks(input);
    if blob.None? { return Err(BlocksFault(input)); }
    var visits := Walk(blob.value.structure, blob.value.strings);
    if visits.Err? { return Err(visits.error); }
    return Ok(F.Tree(blob.value, Decode(blob.value.structure).value, visits.value));
  }

  /** A planned exclusion of a parsed blob. */
  method WriteTree(w: Writer, t: F.Tree, plan: M.Plan) returns (size: Result<nat, FdtError>)
    requires w.Valid() && w.Written() == [] && |t.blob.header| == F.HEADER && Decode(t.blob.structure) == Some(t.tokens)
    requires plan.policy.cells.Valid() && plan.policy.region.Valid()
    modifies w, w.buffer
    ensures w.Valid()
    ensures size.Ok? <==> M.Rewritten(t, plan).Some? && |M.Rewritten(t, plan).value| <= w.buffer.Length
    ensures size.Ok? ==> size.value <= w.buffer.Length && w.buffer[..size.value] == M.Rewritten(t, plan).value
    ensures size.Err? ==> size.error == WriteFault(t.tokens, plan, w.buffer.Length)
  {
    size := WriteBlob(w, t.blob, plan);
  }
}
