/** The devicetree blob byte by byte (sections 5.2 to 5.5 of the Devicetree Specification). */
module FdtLayout {
  import opened Types
  import opened FdtRanges
  import opened FdtTokens
  import opened Fdt
  import opened FdtExclude

  // ---- Numbers ----------------------------------------------------------------------------------

  /** Numbers are stored with the highest byte first. */
  lemma WordBytes(b: seq<byte>)
    requires |b| == 4
    ensures Word(b) == 0x100_0000 * b[0] as nat + 0x1_0000 * b[1] as nat + 0x100 * b[2] as nat + b[3] as nat
  {
    assert b[..3][..2][..1] == [b[0]] && b[..3][..2] == [b[0], b[1]] && b[..3] == [b[0], b[1], b[2]];
    assert Read([b[0]]) == b[0] as nat by { assert [b[0]][..0] == []; }
    assert Read([b[0], b[1]]) == 0x100 * b[0] as nat + b[1] as nat by { assert [b[0], b[1]][..1] == [b[0]]; }
    assert Read([b[0], b[1], b[2]]) == 0x1_0000 * b[0] as nat + 0x100 * b[1] as nat + b[2] as nat by {
      assert [b[0], b[1], b[2]][..2] == [b[0], b[1]];
    }
  }

  lemma {:induction false} ReadSplit(a: seq<byte>, b: seq<byte>)
    ensures Read(a + b) == Read(a) * Power(|b|) + Read(b)
  {
    if b == [] {
      assert a + b == a;
    } else {
      var front := b[..|b| - 1];
      ReadSplit(a, front);
      assert (a + b)[..|a + b| - 1] == a + front;
      Carried(Read(a), Power(|front|), Read(front), b[|b| - 1]);
    }
  }

  lemma Carried(x: nat, y: nat, z: nat, last: nat)
    ensures 256 * (x * y + z) + last == x * (256 * y) + (256 * z + last)
  {
  }

  lemma QuadBytes(b: seq<byte>)
    requires |b| == 8
    ensures Quad(b) == 0x1_0000_0000 * Word(b[..4]) + Word(b[4..])
  {
    Powers();
    ReadSplit(b[..4], b[4..]);
    assert b == b[..4] + b[4..];
  }

  // ---- Banks ----------------------------------------------------------------------------------------

  /** A number of one or two cells. */
  function Cell(b: seq<byte>, cells: nat): nat
    requires cells in {1, 2} && |b| == 4 * cells
  {
    if cells == 1 then Word(b) else 0x1_0000_0000 * Word(b[..4]) + Word(b[4..])
  }

  lemma Multiple(n: int, i: int)
    ensures n * i - n == n * (i - 1)
    ensures i == 0 ==> n * i == 0
    ensures i > 0 && n >= 0 ==> n * i >= n
  {
  }

  lemma SliceOf(data: seq<byte>, n: nat, at: nat, to: nat)
    requires n <= |data| && at <= to <= |data| - n
    ensures data[n..][at..to] == data[n + at..n + to]
  {
  }

  lemma {:induction false} BankStep(data: seq<byte>, c: Cells, i: nat, n: nat, at: nat)
    requires c.Valid() && n == c.Stride() && |data| % n == 0 && data != [] && |data| >= n && |data[n..]| % n == 0
    requires i < |DecodeBanks(data[n..], c)| && at + n <= |data| - n
    requires DecodeBanks(data[n..], c)[i] == DecodeBank(data[n..][at..at + n], c)
    ensures i + 1 < |DecodeBanks(data, c)| && DecodeBanks(data, c)[i + 1] == DecodeBank(data[n + at..n + at + n], c)
  {
    Peel(data, c);
    SliceOf(data, n, at, at + n);
  }

  lemma {:induction false} BankZero(data: seq<byte>, c: Cells, n: nat)
    requires c.Valid() && n == c.Stride() && |data| % n == 0 && |DecodeBanks(data, c)| > 0
    ensures |data| >= n && |data[n..]| % n == 0 && |DecodeBanks(data, c)| == 1 + |DecodeBanks(data[n..], c)|
    ensures DecodeBanks(data, c)[0] == DecodeBank(data[0..n], c)
  {
    Peel(data, c);
    assert data[0..n] == data[..n];
  }

  /** Bank `i` is read from the `i`-th piece of the data. */
  lemma {:induction false} BankAt(data: seq<byte>, c: Cells, n: nat, i: nat, at: nat)
    requires c.Valid() && n == c.Stride() && |data| % n == 0 && i < |DecodeBanks(data, c)| && at == n * i
    ensures at + n <= |data| && DecodeBanks(data, c)[i] == DecodeBank(data[at..at + n], c)
    decreases i
  {
    BankZero(data, c, n);
    Multiple(n, i);
    if i > 0 {
      BankAt(data[n..], c, n, i - 1, at - n);
      BankStep(data, c, i - 1, n, at - n);
    }
  }

  /** A `reg` property is banks end to end, each a start and then a size. */
  lemma {:induction false} BankExact(data: seq<byte>, c: Cells, i: nat)
    requires c.Valid() && |data| % c.Stride() == 0 && i < |DecodeBanks(data, c)|
    ensures var at := c.Stride() * i;
      && at + c.Stride() <= |data|
      && var b := data[at..at + c.Stride()];
         DecodeBanks(data, c)[i]
         == Bank(Cell(b[..4 * c.address], c.address), Cell(b[4 * c.address..], c.size))
  {
    var n, at := c.Stride(), c.Stride() * i;
    BankAt(data, c, n, i, at);
    FirstBank(data[at..at + n], c);
  }

  lemma FirstBank(b: seq<byte>, c: Cells)
    requires c.Valid() && |b| == c.Stride()
    ensures DecodeBank(b, c).start == Cell(b[..4 * c.address], c.address)
    ensures DecodeBank(b, c).size == Cell(b[4 * c.address..], c.size)
  {
    if c.address == 2 { QuadBytes(b[..8]); }
    if c.size == 2 { QuadBytes(b[4 * c.address..]); }
  }

  // ---- Tokens -----------------------------------------------------------------------------------------

  /** What a token is written as, up to the padding bytes. */
  lemma TokenLayout(t: Token)
    requires Good(t)
    ensures t == End ==> Encode(t) == [0, 0, 0, 2]
    ensures t == Nop ==> Encode(t) == [0, 0, 0, 4]
    ensures t == Fin ==> Encode(t) == [0, 0, 0, 9]
    ensures t.Begin? ==> Encode(t) == [0, 0, 0, 1] + t.name + [0] + t.pad
    ensures t.Prop? ==> PropLaid(Encode(t), t)
  {
    Numbers();
    if t.Prop? { PropIsLaid(t); }
  }

  /** With the least padding that keeps the next token aligned. */
  lemma TokenAligned(t: Token)
    requires Good(t)
    ensures |Encode(t)| % 4 == 0 && (t.Begin? || t.Prop? ==> |t.pad| < 4)
  {
    var n := if t.Begin? then |t.name| + 1 else if t.Prop? then |t.data| else 0;
    assert (n + Pad(n)) % 4 == 0;
  }

  predicate PropLaid(b: seq<byte>, t: Token)
    requires t.Prop?
  {
    && |b| == 12 + |t.data| + |t.pad| && b[..4] == [0, 0, 0, 3] && Word(b[4..8]) == |t.data|
    && Word(b[8..12]) == t.nameOffset && b[12..12 + |t.data|] == t.data
  }

  lemma PropIsLaid(t: Token)
    requires t.Prop? && Good(t)
    ensures PropLaid(Encode(t), t)
  {
    Numbers();
    WordOf(|t.data|);
    WordOf(t.nameOffset);
    ThreeWords(Be32(3), Be32(|t.data|), Be32(t.nameOffset), t.data, t.pad);
  }

  lemma ThreeWords(x: seq<byte>, y: seq<byte>, z: seq<byte>, data: seq<byte>, pad: seq<byte>)
    requires |x| == |y| == |z| == 4
    ensures
      var b := x + y + z + data + pad;
      b[..4] == x && b[4..8] == y && b[8..12] == z && b[12..12 + |data|] == data && |b| == 12 + |data| + |pad|
  {
  }

  lemma Numbers()
    ensures Be32(1) == [0, 0, 0, 1] && Be32(2) == [0, 0, 0, 2] && Be32(3) == [0, 0, 0, 3]
    ensures Be32(4) == [0, 0, 0, 4] && Be32(9) == [0, 0, 0, 9]
  {
    Small(1);
    Small(2);
    Small(3);
    Small(4);
    Small(9);
  }

  lemma Small(v: nat)
    requires v < 256
    ensures Be32(v) == [0, 0, 0, v]
  {
    assert Big(0, 1) == Big(0, 0) + [0] == [0];
    assert Big(0, 2) == Big(0, 1) + [0] == [0, 0];
    assert Big(0, 3) == Big(0, 2) + [0] == [0, 0, 0];
    assert Big(v, 4) == Big(0, 3) + [v];
  }

  // ---- Blocks --------------------------------------------------------------------------------------------

  /** A big-endian word at a byte offset. */
  function WordAt(b: seq<byte>, at: nat): nat
    requires at + 4 <= |b|
  {
    Word(b[at..at + 4])
  }

  /** Two pieces of a blob do not share a byte. */
  predicate Beside(a: nat, aSize: nat, b: nat, bSize: nat) {
    aSize == 0 || bSize == 0 || a + aSize <= b || b + bSize <= a
  }

  /** Magic number, length, version seventeen or compatible, and alignment. */
  predicate Headed(input: seq<byte>) {
    && |input| >= 40 && WordAt(input, 0) == 0xd00d_feed && 40 <= WordAt(input, 4) <= |input|
    && WordAt(input, 20) == 17 && WordAt(input, 24) <= 17
    && WordAt(input, 8) % 4 == 0 && WordAt(input, 16) % 8 == 0
  }

  /** Structure, strings and a terminated reservation table inside the blob, apart from each other and the header. */
  predicate Arranged(input: seq<byte>, b: Blob)
    requires |input| >= 40
  {
    var total, structure, strings, table := WordAt(input, 4), WordAt(input, 8), WordAt(input, 12), WordAt(input, 16);
    && total <= |input|
    && structure + |b.structure| <= total && b.structure == input[structure..structure + |b.structure|]
    && strings + |b.strings| <= total && b.strings == input[strings..strings + |b.strings|]
    && table <= total && Entries(input[table..total]) == Some(b.entries)
    && |b.structure| == WordAt(input, 36) && |b.strings| == WordAt(input, 32)
    && Beside(structure, |b.structure|, 0, 40) && Beside(strings, |b.strings|, 0, 40)
    && Beside(strings, |b.strings|, structure, |b.structure|)
    && Beside(table, |b.entries| + 16, 0, 40) && Beside(table, |b.entries| + 16, structure, |b.structure|)
    && Beside(table, |b.entries| + 16, strings, |b.strings|)
    && b.header == input[..40]
  }

  lemma FieldIs(input: seq<byte>, b: seq<byte>, at: nat)
    requires at + 4 <= |b| <= |input| && b == input[..|b|]
    ensures Field(b, at) == WordAt(input, at)
  {
    assert b[at..at + 4] == input[at..at + 4];
  }

  lemma FieldsAre(input: seq<byte>, b: seq<byte>)
    requires 40 <= |b| <= |input| && b == input[..|b|]
    ensures Field(b, 8) == WordAt(input, 8) && Field(b, 12) == WordAt(input, 12) && Field(b, 16) == WordAt(input, 16)
    ensures Field(b, 20) == WordAt(input, 20) && Field(b, 24) == WordAt(input, 24)
    ensures Field(b, 32) == WordAt(input, 32) && Field(b, 36) == WordAt(input, 36)
  {
    FieldIs(input, b, 8);
    FieldIs(input, b, 12);
    FieldIs(input, b, 16);
    FieldIs(input, b, 20);
    FieldIs(input, b, 24);
    FieldIs(input, b, 32);
    FieldIs(input, b, 36);
  }

  lemma SeparateIs(a: nat, aSize: nat, b: nat, bSize: nat)
    ensures Separate(a, a + aSize, b, b + bSize) <==> Beside(a, aSize, b, bSize)
  {
  }

  lemma Slices(input: seq<byte>, b: seq<byte>, from: nat, to: nat)
    requires |b| <= |input| && b == input[..|b|] && from <= to <= |b|
    ensures b[from..to] == input[from..to] && b[from..] == input[from..|b|]
  {
  }

  /** The blocks at offsets that lie inside the blob. */
  lemma BlocksAtExact(b: seq<byte>, structure: nat, n: nat, strings: nat, m: nat, table: nat, r: Blob)
    requires |b| >= 40
    ensures
      BlocksAt(b, structure, n, strings, m, table) == Some(r) <==>
        && structure + n <= |b| && strings + m <= |b| && table <= |b| && Entries(b[table..]) == Some(r.entries)
        && r.structure == b[structure..structure + n] && r.strings == b[strings..strings + m] && r.header == b[..40]
        && Beside(structure, n, 0, 40) && Beside(strings, m, 0, 40) && Beside(strings, m, structure, n)
        && Beside(table, |r.entries| + 16, 0, 40) && Beside(table, |r.entries| + 16, structure, n)
        && Beside(table, |r.entries| + 16, strings, m)
  {
  }

  /** The same in terms of the header's words. */
  lemma ArrangedIs(input: seq<byte>, b: seq<byte>, r: Blob)
    requires 40 <= |b| <= |input| && b == input[..|b|] && |b| == WordAt(input, 4)
    ensures
      Arranged(input, r) <==>
        BlocksAt(b, WordAt(input, 8), WordAt(input, 36), WordAt(input, 12), WordAt(input, 32), WordAt(input, 16))
        == Some(r)
  {
    var structure, n, strings, m, table :=
      WordAt(input, 8), WordAt(input, 36), WordAt(input, 12), WordAt(input, 32), WordAt(input, 16);
    BlocksAtExact(b, structure, n, strings, m, table, r);
    if structure + n <= |b| { Slices(input, b, structure, structure + n); }
    if strings + m <= |b| { Slices(input, b, strings, strings + m); }
    if table <= |b| { Slices(input, b, table, |b|); }
    Slices(input, b, 0, 40);
  }

  /** A header is accepted exactly so, and then with these blocks. */
  lemma BlocksExact(input: seq<byte>, r: Blob)
    ensures Blocks(input) == Some(r) <==> Headed(input) && Arranged(input, r)
  {
    if |input| >= 40 && 40 <= WordAt(input, 4) <= |input| {
      FieldsAre(input, input[..WordAt(input, 4)]);
      ArrangedIs(input, input[..WordAt(input, 4)], r);
    }
  }

  /** Sixteen-byte entries up to the first of zeros. */
  ghost predicate Listed(b: seq<byte>, e: seq<byte>) {
    && |e| % 16 == 0 && |e| + 16 <= |b| && e == b[..|e|] && Zero(b[|e|..|e| + 16]) && Entered(e)
  }

  lemma {:induction false} EntriesExact(b: seq<byte>, e: seq<byte>)
    ensures Entries(b) == Some(e) <==> Listed(b, e)
    decreases |b|
  {
    if |b| >= 16 && |e| >= 16 {
      EntriesExact(b[16..], e[16..]);
      ListedStep(b, e);
      assert e == e[..16] + e[16..];
      if !Zero(b[..16]) && Entries(b[16..]).Some? {
        var rest := Entries(b[16..]).value;
        assert (b[..16] + rest)[..16] == b[..16] && (b[..16] + rest)[16..] == rest;
      }
    } else if |b| >= 16 && e == [] {
      assert b[..0] == [] && b[0..16] == b[..16];
    }
  }

  lemma ListedStep(b: seq<byte>, e: seq<byte>)
    requires |b| >= 16 && |e| >= 16
    ensures Listed(b, e) <==> e[..16] == b[..16] && !Zero(b[..16]) && Listed(b[16..], e[16..])
  {
    assert e == e[..16] + e[16..] && b == b[..16] + b[16..];
    if |e| + 16 <= |b| {
      assert b[16..][|e| - 16..|e|] == b[|e|..|e| + 16];
      assert b[..|e|] == b[..16] + b[16..][..|e| - 16];
      assert e == b[..|e|] <==> e[..16] == b[..16] && e[16..] == b[16..][..|e| - 16] by {
        if e == b[..|e|] { assert e[..16] == b[..|e|][..16] && e[16..] == b[..|e|][16..]; }
      }
    }
  }

  // ---- The walk --------------------------------------------------------------------------------------------

  /** A node may open as the one nameless root, or with a name without a slash within the limits of depth and path. */
  lemma EnterExact(stack: Stack, rootSeen: bool, name: seq<byte>)
    ensures
      MayEnter(stack, rootSeen, name) <==>
        && |stack| < 32 && Utf8(name)
        && if stack == [] then name == [] && !rootSeen
           else |name| > 0 && (forall i: nat :: i < |name| ==> name[i] != 47) && PathLength(stack) + 1 + |name| <= 512
  {
  }

  /** Every name of a path counts with the slash before it; the root has none. */
  lemma {:induction false} PathLengthExact(stack: Stack, name: seq<byte>)
    ensures PathLength([]) == 0
    ensures PathLength(stack + [name]) == PathLength(stack) + if |name| == 0 then 0 else 1 + |name|
  {
    assert (stack + [name])[..|stack|] == stack;
  }

  /** A token is in place: closings and properties inside a node, the end after the root. */
  lemma StepExact(t: Token, stack: Stack, rootSeen: bool, strings: seq<byte>)
    ensures
      Step(t, stack, rootSeen, strings)
      == match t
         case Begin(name, _) => if MayEnter(stack, rootSeen, name) then Some([]) else None
         case End => if |stack| > 0 then Some([]) else None
         case Nop => Some([])
         case Fin => if |stack| == 0 && rootSeen then Some([]) else None
         case Prop(offset, data, _) =>
           if |stack| > 0 && NameAt(strings, offset).Some?
           then Some([Visit(stack[1..], NameAt(strings, offset).value, data)]) else None
  {
  }

  /** The name at an offset is what stands there up to the next zero, if that is something and text. */
  lemma NameExact(strings: seq<byte>, offset: nat, name: seq<byte>)
    ensures
      NameAt(strings, offset) == Some(name) <==>
        && |name| > 0 && offset + |name| < |strings| && strings[offset..offset + |name|] == name
        && strings[offset + |name|] == 0 && NoNul(name) && Utf8(name)
  {
    if offset < |strings| {
      var tail := strings[offset..];
      if offset + |name| < |strings| && strings[offset..offset + |name|] == name && strings[offset + |name|] == 0
         && NoNul(name) {
        assert tail == name + [0] + tail[|name| + 1..];
        FirstNulAt(name, tail[|name| + 1..]);
      }
      if NameAt(strings, offset) == Some(name) {
        forall i: nat | i < |name| ensures name[i] != 0 { assert name[i] == tail[i]; }
        assert strings[offset + |name|] == tail[|name|];
      }
    }
  }
}
