/** Excluding a region: what it preserves, that its re-parse never refuses it, and that it is idempotent. */
module FdtExclude {
  import opened Types
  import opened FdtRanges
  import opened FdtTokens
  import opened Fdt
  import opened FdtMemory

  // ---- Reservation entries -----------------------------------------------------------------------

  const TERMINATOR: Bytes := Zeros(16)

  /** Sixteen-byte entries none of which could end the table. */
  predicate Entered(e: Bytes)
    decreases |e|
  {
    e == [] || (|e| >= 16 && !Zero(e[..16]) && Entered(e[16..]))
  }

  lemma {:induction false} EntriesEntered(b: Bytes)
    requires Entries(b).Some?
    ensures Entered(Entries(b).value)
    decreases |b|
  {
    if !Zero(b[..16]) {
      EntriesEntered(b[16..]);
      var e, rest := Entries(b).value, Entries(b[16..]).value;
      assert e == b[..16] + rest;
      assert e[..16] == b[..16] && e[16..] == rest;
    }
  }

  lemma {:induction false} EntriesRead(e: Bytes, more: Bytes)
    requires Entered(e)
    ensures Entries(e + TERMINATOR + more) == Some(e)
    decreases |e|
  {
    var b := e + TERMINATOR + more;
    if e == [] {
      assert b[..16] == TERMINATOR;
    } else {
      EntriesRead(e[16..], more);
      assert b[..16] == e[..16] && b[16..] == e[16..] + TERMINATOR + more;
      assert e[..16] + e[16..] == e;
    }
  }

  lemma {:induction false} EnteredAppend(e: Bytes, last: Bytes)
    requires Entered(e) && |last| == 16 && !Zero(last)
    ensures Entered(e + last)
    decreases |e|
  {
    if e == [] {
      assert (e + last)[..16] == last && (e + last)[16..] == [];
    } else {
      EnteredAppend(e[16..], last);
      assert (e + last)[..16] == e[..16] && (e + last)[16..] == e[16..] + last;
    }
  }

  function RegionBank(r: Region): Bank
    requires r.Valid()
  {
    Bank(r.start, r.end - r.start)
  }

  /** Reserved already means that one entry is the region. */
  lemma IncludesExact(bs: seq<Bank>, r: Region)
    requires r.Valid()
    ensures Includes(bs, r) <==> Bank(r.start, r.end - r.start) in bs
  {
    if Includes(bs, r) {
      var i: nat :| i < |bs| && bs[i].size != 0 && SameAs(bs[i], r);
      assert bs[i] == Bank(r.start, r.end - r.start);
    }
    if Bank(r.start, r.end - r.start) in bs {
      var i: nat :| i < |bs| && bs[i] == Bank(r.start, r.end - r.start);
    }
  }

  lemma RegionNotZero(r: Region)
    requires r.Valid()
    ensures !Zero(EncodeBank(RegionBank(r), WIDE))
  {
    var b, size := EncodeBank(RegionBank(r), WIDE), r.end - r.start;
    assert b[8..] == Be64(size);
    QuadOf(size);
    ZeroTail(b);
    if Zero(b[8..]) { ZeroRead(b[8..]); }
  }

  lemma ZeroTail(b: Bytes)
    requires |b| == 16
    ensures Zero(b) ==> Zero(b[8..])
  {
  }

  lemma {:induction false} ZeroRead(b: Bytes)
    requires Zero(b)
    ensures Read(b) == 0
  {
    if b != [] { ZeroRead(b[..|b| - 1]); }
  }

  lemma Less16(n: nat)
    requires n % 16 == 0 && n > 0
    ensures n >= 16 && (n - 16) % 16 == 0
  {
  }

  lemma {:induction false} DecodeAppend(e: Bytes, k: Bank)
    requires |e| % 16 == 0 && Fits(k, WIDE)
    ensures |e + EncodeBank(k, WIDE)| % 16 == 0
    ensures DecodeBanks(e + EncodeBank(k, WIDE), WIDE) == DecodeBanks(e, WIDE) + [k]
    decreases |e|
  {
    var last := EncodeBank(k, WIDE);
    if e == [] {
      BankRoundTrip(k, WIDE);
      DecodeCons(last, [], WIDE);
      assert e + last == last && last + [] == last;
    } else {
      Less16(|e|);
      var first, rest := e[..16], e[16..];
      DecodeAppend(rest, k);
      DecodeCons(first, rest, WIDE);
      DecodeCons(first, rest + last, WIDE);
      assert first + rest == e;
      Associative(first, rest, last);
      Associative([DecodeBank(first, WIDE)], DecodeBanks(rest, WIDE), [k]);
    }
  }

  /** The entry a reservation list still needs. */
  function Added(bs: seq<Bank>, r: Region): seq<Bank>
    requires r.Valid()
  {
    if Bank(r.start, r.end - r.start) in bs then [] else [Bank(r.start, r.end - r.start)]
  }

  /** The region is reserved afterwards: as before if it was, once more at the end if not. */
  lemma ReservedOnce(e: Bytes, r: Region)
    requires r.Valid() && |e| % 16 == 0 && ReservedOk(Reserved(e), r)
    ensures Reserved(Reserve(e, r)) == Reserved(e) + Added(Reserved(e), r)
    ensures Includes(Reserved(Reserve(e, r)), r) && ReservedOk(Reserved(Reserve(e, r)), r)
    ensures Reserve(Reserve(e, r), r) == Reserve(e, r)
  {
    var bs := Reserved(e);
    IncludesExact(bs, r);
    if !Includes(bs, r) {
      DecodeAppend(e, RegionBank(r));
      assert (bs + [RegionBank(r)])[|bs|] == RegionBank(r);
    } else {
      assert bs + [] == bs;
    }
  }

  lemma ReserveEntered(e: Bytes, r: Region)
    requires r.Valid() && |e| % 16 == 0 && Entered(e)
    ensures Entered(Reserve(e, r))
  {
    if !Includes(Reserved(e), r) {
      RegionNotZero(r);
      EnteredAppend(e, EncodeBank(RegionBank(r), WIDE));
    }
  }

  // ---- The header and the blocks -------------------------------------------------------------------

  /** A header the walk would accept but for sizes and offsets. */
  predicate HeaderOk(h: Bytes) { |h| == HEADER && Field(h, 0) == MAGIC && Field(h, 20) == 17 && Field(h, 24) <= 17 }

  lemma FieldIs(b: Bytes, offset: nat, v: nat)
    requires offset + 4 <= |b| && v < U32_LIMIT && b[offset..offset + 4] == Be32(v)
    ensures Field(b, offset) == v
  {
    WordOf(v);
  }

  lemma FieldSame(a: Bytes, b: Bytes, from: nat, to: nat, offset: nat)
    requires from <= offset && offset + 4 <= to <= |a| && to <= |b| && a[from..to] == b[from..to]
    ensures Field(a, offset) == Field(b, offset)
  {
    forall j: nat | offset <= j < offset + 4 ensures a[j] == b[j] {
      assert a[j] == a[from..to][j - from] && b[j] == b[from..to][j - from];
    }
    var x, y := a[offset..offset + 4], b[offset..offset + 4];
    assert x == y;
  }

  lemma PatchHeaderOk(h: Bytes, e: Bytes, structure: Bytes, strings: Bytes)
    requires HeaderOk(h)
    ensures HeaderOk(Patch(h, e, structure, strings))
  {
    var p := Patch(h, e, structure, strings);
    PatchOffsets(h, e, structure, strings);
    FieldSame(p, h, 0, 4, 0);
    FieldSame(p, h, 20, 32, 20);
    FieldSame(p, h, 20, 32, 24);
  }

  lemma PatchFields(h: Bytes, e: Bytes, structure: Bytes, strings: Bytes)
    requires |h| == HEADER && 64 + |e| + |structure| + |strings| < U32_LIMIT
    ensures
      var p := Patch(h, e, structure, strings);
      && Field(p, 4) == 64 + |e| + |structure| + |strings| && Field(p, 8) == 64 + |e|
      && Field(p, 12) == 64 + |e| + |structure| && Field(p, 16) == 48
      && Field(p, 32) == |strings| && Field(p, 36) == |structure|
  {
    var p := Patch(h, e, structure, strings);
    PatchOffsets(h, e, structure, strings);
    FieldIs(p, 4, 64 + |e| + |structure| + |strings|);
    FieldIs(p, 8, 64 + |e|);
    FieldIs(p, 12, 64 + |e| + |structure|);
    FieldIs(p, 16, 48);
    FieldIs(p, 32, |strings|);
    FieldIs(p, 36, |structure|);
  }

  lemma PatchOffsets(h: Bytes, e: Bytes, structure: Bytes, strings: Bytes)
    requires |h| == HEADER
    ensures
      var p := Patch(h, e, structure, strings);
      && p[..4] == h[..4] && p[4..8] == Be32(64 + |e| + |structure| + |strings|) && p[8..12] == Be32(64 + |e|)
      && p[12..16] == Be32(64 + |e| + |structure|) && p[16..20] == Be32(48) && p[20..32] == h[20..32]
      && p[32..36] == Be32(|strings|) && p[36..40] == Be32(|structure|)
  {
  }

  /** Patching a patched header again changes nothing. */
  lemma PatchTwice(h: Bytes, e: Bytes, structure: Bytes, strings: Bytes)
    requires |h| == HEADER
    ensures Patch(Patch(h, e, structure, strings), e, structure, strings) == Patch(h, e, structure, strings)
  {
    PatchOffsets(h, e, structure, strings);
  }

  lemma RenderParts(b: Blob)
    requires |b.header| == HEADER
    ensures
      var out, start := Render(b), 64 + |b.entries|;
      && |out| == start + |b.structure| + |b.strings|
      && out[..HEADER] == Patch(b.header, b.entries, b.structure, b.strings)
      && out[48..] == b.entries + TERMINATOR + (b.structure + b.strings)
      && out[start..start + |b.structure|] == b.structure && out[start + |b.structure|..] == b.strings
  {
  }

  lemma RenderFields(b: Blob, offset: nat)
    requires |b.header| == HEADER && offset + 4 <= HEADER
    ensures
      offset + 4 <= |Render(b)|
      && Field(Render(b), offset) == Field(Patch(b.header, b.entries, b.structure, b.strings), offset)
  {
    RenderParts(b);
    var out, p := Render(b), Patch(b.header, b.entries, b.structure, b.strings);
    assert out[offset..offset + 4] == out[..HEADER][offset..offset + 4];
  }

  /** Blocks in the canonical order lie apart. */
  lemma BlocksInOrder(out: Bytes, e: Bytes, structure: Bytes, strings: Bytes)
    requires |out| == 64 + |e| + |structure| + |strings| && |e| % 16 == 0 && Entered(e)
    requires out[48..] == e + TERMINATOR + (structure + strings)
    requires out[64 + |e|..64 + |e| + |structure|] == structure && out[64 + |e| + |structure|..] == strings
    ensures BlocksAt(out, 64 + |e|, |structure|, 64 + |e| + |structure|, |strings|, 48)
         == Some(Blob(out[..HEADER], e, structure, strings))
  {
    EntriesRead(e, structure + strings);
    assert out[64 + |e| + |structure|..64 + |e| + |structure| + |strings|] == strings;
  }

  /** A header in the canonical order, by its fields. */
  ghost predicate Leads(out: Bytes, start: nat, structure: nat, strings: nat) {
    && |out| >= HEADER && Field(out, 0) == MAGIC && Field(out, 4) == |out| && Field(out, 20) == 17
    && Field(out, 24) <= 17 && Field(out, 8) == start && start % 4 == 0 && Field(out, 36) == structure
    && Field(out, 12) == start + structure && Field(out, 32) == strings && Field(out, 16) == 48
  }

  lemma RenderedLeads(b: Blob)
    requires HeaderOk(b.header) && |b.entries| % 16 == 0 && |Render(b)| < U32_LIMIT
    ensures Leads(Render(b), 64 + |b.entries|, |b.structure|, |b.strings|)
  {
    RenderedFields(b);
    StartAligned(|b.entries|);
  }

  /** The fields of a header lead to the blocks where they say. */
  lemma BlocksFrom(out: Bytes, start: nat, structure: nat, strings: nat, r: Option<Blob>)
    requires Leads(out, start, structure, strings)
    requires BlocksAt(out, start, structure, start + structure, strings, 48) == r
    ensures Blocks(out) == r
  {
    assert out[..|out|] == out;
  }

  lemma {:induction false} RenderedInOrder(b: Blob, out: Bytes)
    requires HeaderOk(b.header) && Entered(b.entries) && |b.entries| % 16 == 0 && out == Render(b)
    ensures |out| == 64 + |b.entries| + |b.structure| + |b.strings|
    ensures
      var start := 64 + |b.entries|;
      BlocksAt(out, start, |b.structure|, start + |b.structure|, |b.strings|, 48)
      == Some(b.(header := Patch(b.header, b.entries, b.structure, b.strings)))
  {
    RenderParts(b);
    BlocksInOrder(out, b.entries, b.structure, b.strings);
  }

  /** A rendered blob is read back block by block. */
  lemma {:induction false} BlocksRendered(b: Blob)
    requires HeaderOk(b.header) && Entered(b.entries) && |b.entries| % 16 == 0 && |Render(b)| < U32_LIMIT
    ensures Blocks(Render(b)) == Some(b.(header := Patch(b.header, b.entries, b.structure, b.strings)))
  {
    RenderedLeads(b);
    RenderedInOrder(b, Render(b));
    BlocksFrom(Render(b), 64 + |b.entries|, |b.structure|, |b.strings|,
               Some(b.(header := Patch(b.header, b.entries, b.structure, b.strings))));
  }

  lemma RenderedFields(b: Blob)
    requires HeaderOk(b.header) && |Render(b)| < U32_LIMIT
    ensures |Render(b)| == 64 + |b.entries| + |b.structure| + |b.strings|
    ensures Field(Render(b), 0) == MAGIC && Field(Render(b), 20) == 17 && Field(Render(b), 24) <= 17
    ensures Field(Render(b), 4) == |Render(b)| && Field(Render(b), 8) == 64 + |b.entries|
    ensures Field(Render(b), 12) == 64 + |b.entries| + |b.structure| && Field(Render(b), 16) == 48
    ensures Field(Render(b), 32) == |b.strings| && Field(Render(b), 36) == |b.structure|
  {
    RenderParts(b);
    PatchHeaderOk(b.header, b.entries, b.structure, b.strings);
    PatchFields(b.header, b.entries, b.structure, b.strings);
    RenderFields(b, 0);
    RenderFields(b, 4);
    RenderFields(b, 8);
    RenderFields(b, 12);
    RenderFields(b, 16);
    RenderFields(b, 20);
    RenderFields(b, 24);
    RenderFields(b, 32);
    RenderFields(b, 36);
  }

  lemma StartAligned(n: nat)
    requires n % 16 == 0
    ensures (64 + n) % 4 == 0
  {
  }

  lemma BlocksChecked(input: Bytes)
    requires Blocks(input).Some?
    ensures
      var b := Blocks(input).value;
      HeaderOk(b.header) && Entered(b.entries) && |b.entries| % 16 == 0 && |b.strings| < U32_LIMIT
  {
    var b := input[..Field(input, 4)];
    EntriesEntered(b[Field(b, 16)..]);
    FieldSame(b, input, 0, HEADER, 0);
    FieldSame(b, b[..HEADER], 0, HEADER, 0);
    FieldSame(b, b[..HEADER], 0, HEADER, 20);
    FieldSame(b, b[..HEADER], 0, HEADER, 24);
  }
}
