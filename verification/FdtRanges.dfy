/** Memory banks in a `reg` property, and what is left of them outside a region. */
module FdtRanges {
  import opened Types

  // ---- Big-endian numbers -------------------------------------------------------------------

  function Power(n: nat): (p: nat)
    ensures p > 0
  {
    if n == 0 then 1 else 256 * Power(n - 1)
  }

  lemma Powers()
    ensures Power(4) == U32_LIMIT && Power(8) == U64_LIMIT
  {
    assert Power(2) == 65536 && Power(4) == 65536 * Power(2) && Power(6) == 65536 * Power(4);
    assert Power(8) == 65536 * Power(6);
  }

  function Big(v: nat, n: nat): (b: seq<byte>)
    ensures |b| == n
  {
    if n == 0 then [] else Big(v / 256, n - 1) + [v % 256]
  }

  function Read(b: seq<byte>): (v: nat)
    ensures v < Power(|b|)
  {
    if b == [] then 0 else 256 * Read(b[..|b| - 1]) + b[|b| - 1] as nat
  }

  lemma {:induction false} ReadBig(v: nat, n: nat)
    requires v < Power(n)
    ensures Read(Big(v, n)) == v
  {
    if n > 0 {
      ReadBig(v / 256, n - 1);
      var b := Big(v, n);
      assert b[..n - 1] == Big(v / 256, n - 1);
    }
  }

  lemma {:induction false} BigRead(b: seq<byte>)
    ensures Big(Read(b), |b|) == b
  {
    if b != [] {
      BigRead(b[..|b| - 1]);
      assert b == b[..|b| - 1] + [b[|b| - 1]];
    }
  }

  function Be32(v: nat): (b: seq<byte>)
    ensures |b| == 4
  {
    Big(v, 4)
  }

  function Be64(v: nat): (b: seq<byte>)
    ensures |b| == 8
  {
    Big(v, 8)
  }

  function Word(b: seq<byte>): (v: nat)
    requires |b| == 4
    ensures v < U32_LIMIT
  {
    Powers();
    Read(b)
  }

  function Quad(b: seq<byte>): (v: nat)
    requires |b| == 8
    ensures v < U64_LIMIT
  {
    Powers();
    Read(b)
  }

  lemma WordIs(b: seq<byte>)
    requires |b| == 4
    ensures Be32(Word(b)) == b
  {
    BigRead(b);
  }

  lemma WordOf(v: nat)
    requires v < U32_LIMIT
    ensures Word(Be32(v)) == v
  {
    Powers();
    ReadBig(v, 4);
  }

  lemma QuadOf(v: nat)
    requires v < U64_LIMIT
    ensures Quad(Be64(v)) == v
  {
    Powers();
    ReadBig(v, 8);
  }

  /** A number of one or two cells. */
  function Number(v: nat, cells: nat): (b: seq<byte>)
    requires cells in {1, 2}
    ensures |b| == 4 * cells
  {
    if cells == 1 then Be32(v) else Be64(v)
  }

  function Value(b: seq<byte>, cells: nat): (v: nat)
    requires cells in {1, 2} && |b| == 4 * cells
    ensures v < Limit(cells)
  {
    if cells == 1 then Word(b) else Quad(b)
  }

  function Limit(cells: nat): nat { if cells == 1 then U32_LIMIT else U64_LIMIT }

  lemma ValueOf(v: nat, cells: nat)
    requires cells in {1, 2} && v < Limit(cells)
    ensures Value(Number(v, cells), cells) == v
  {
    if cells == 1 { WordOf(v); } else { QuadOf(v); }
  }

  // ---- Banks -----------------------------------------------------------------------------------

  datatype Bank = Bank(start: nat, size: nat)

  /** A nonempty region that does not wrap. */
  datatype Region = Region(start: nat, end: nat) {
    predicate Valid() { start < end < U64_LIMIT }

    predicate Holds(a: nat) { start <= a < end }
  }

  datatype Cells = Cells(address: nat, size: nat) {
    predicate Valid() { address in {1, 2} && size in {1, 2} }

    function Stride(): nat { 4 * (address + size) }
  }

  function DecodeBank(b: seq<byte>, c: Cells): Bank
    requires c.Valid() && |b| == c.Stride()
  {
    Bank(Value(b[..4 * c.address], c.address), Value(b[4 * c.address..], c.size))
  }

  function EncodeBank(k: Bank, c: Cells): (b: seq<byte>)
    requires c.Valid()
    ensures |b| == c.Stride()
  {
    Number(k.start, c.address) + Number(k.size, c.size)
  }

  lemma StrideSplits(n: nat, c: Cells)
    requires c.Valid() && n % c.Stride() == 0 && n > 0
    ensures n >= c.Stride() && (n - c.Stride()) % c.Stride() == 0
  {
    if c.Stride() == 8 { assert (n - 8) % 8 == 0; }
    else if c.Stride() == 12 { assert (n - 12) % 12 == 0; }
    else { assert (n - 16) % 16 == 0; }
  }

  function DecodeBanks(data: seq<byte>, c: Cells): (bs: seq<Bank>)
    requires c.Valid() && |data| % c.Stride() == 0
  {
    if data == [] then []
    else
      StrideSplits(|data|, c);
      [DecodeBank(data[..c.Stride()], c)] + DecodeBanks(data[c.Stride()..], c)
  }

  /** The first bank of a nonempty property and the rest. */
  lemma {:induction false} Peel(data: seq<byte>, c: Cells)
    requires c.Valid() && |data| % c.Stride() == 0 && data != []
    ensures |data| >= c.Stride() && |data[c.Stride()..]| % c.Stride() == 0
    ensures DecodeBanks(data, c) == [DecodeBank(data[..c.Stride()], c)] + DecodeBanks(data[c.Stride()..], c)
  {
    StrideSplits(|data|, c);
    assert |data[c.Stride()..]| == |data| - c.Stride();
  }

  function EncodeBanks(bs: seq<Bank>, c: Cells): (data: seq<byte>)
    requires c.Valid()
    ensures |data| == |bs| * c.Stride()
  {
    if bs == [] then [] else EncodeBank(bs[0], c) + EncodeBanks(bs[1..], c)
  }

  predicate Fits(k: Bank, c: Cells) { k.start < Limit(c.address) && k.size < Limit(c.size) }

  lemma BankRoundTrip(k: Bank, c: Cells)
    requires c.Valid() && Fits(k, c)
    ensures DecodeBank(EncodeBank(k, c), c) == k
  {
    var b := EncodeBank(k, c);
    assert b[..4 * c.address] == Number(k.start, c.address) && b[4 * c.address..] == Number(k.size, c.size);
    ValueOf(k.start, c.address);
    ValueOf(k.size, c.size);
  }

  lemma StrideAdds(n: nat, c: Cells)
    requires c.Valid() && n % c.Stride() == 0
    ensures (c.Stride() + n) % c.Stride() == 0
  {
    if c.Stride() == 8 { assert (8 + n) % 8 == 0; }
    else if c.Stride() == 12 { assert (12 + n) % 12 == 0; }
    else { assert (16 + n) % 16 == 0; }
  }

  lemma {:induction false} DecodeCons(first: seq<byte>, rest: seq<byte>, c: Cells)
    requires c.Valid() && |first| == c.Stride() && |rest| % c.Stride() == 0
    ensures |first + rest| % c.Stride() == 0
    ensures DecodeBanks(first + rest, c) == [DecodeBank(first, c)] + DecodeBanks(rest, c)
  {
    StrideAdds(|rest|, c);
    var data := first + rest;
    assert data[..c.Stride()] == first && data[c.Stride()..] == rest;
    Peel(data, c);
  }

  lemma {:induction false} BanksRoundTrip(bs: seq<Bank>, c: Cells)
    requires c.Valid() && forall i: nat :: i < |bs| ==> Fits(bs[i], c)
    ensures |EncodeBanks(bs, c)| % c.Stride() == 0
    ensures DecodeBanks(EncodeBanks(bs, c), c) == bs
  {
    if bs != [] {
      var first, rest := EncodeBank(bs[0], c), EncodeBanks(bs[1..], c);
      BanksRoundTrip(bs[1..], c);
      DecodeCons(first, rest, c);
      assert EncodeBanks(bs, c) == first + rest;
      assert DecodeBank(first, c) == bs[0] by { BankRoundTrip(bs[0], c); }
      assert [bs[0]] + bs[1..] == bs;
    }
  }

  // ---- Subtraction -------------------------------------------------------------------------------

  predicate Outside(k: Bank, r: Region) { k.start >= r.end || k.start + k.size <= r.start }

  /** What is left of one bank: all of it, the part below, the part above, both or nothing. */
  function Rest(k: Bank, r: Region): seq<Bank> {
    if k.size == 0 then []
    else if Outside(k, r) then [k]
    else
      (if k.start < r.start then [Bank(k.start, r.start - k.start)] else [])
      + (if k.start + k.size > r.end then [Bank(r.end, k.start + k.size - r.end)] else [])
  }

  function RestAll(bs: seq<Bank>, r: Region): seq<Bank> {
    if bs == [] then [] else Rest(bs[0], r) + RestAll(bs[1..], r)
  }

  ghost predicate Covers(bs: seq<Bank>, a: nat) {
    exists i: nat :: i < |bs| && bs[i].start <= a < bs[i].start + bs[i].size
  }

  lemma CoversConcat(x: seq<Bank>, y: seq<Bank>, a: nat)
    ensures Covers(x + y, a) <==> Covers(x, a) || Covers(y, a)
  {
    if Covers(x, a) {
      var i: nat :| i < |x| && x[i].start <= a < x[i].start + x[i].size;
      assert (x + y)[i] == x[i];
    }
    if Covers(y, a) {
      var i: nat :| i < |y| && y[i].start <= a < y[i].start + y[i].size;
      assert (x + y)[|x| + i] == y[i];
    }
  }

  lemma CoversOne(k: Bank, a: nat)
    ensures Covers([k], a) <==> k.start <= a < k.start + k.size
  {
    assert [k][0] == k;
  }

  lemma RestCovers(k: Bank, r: Region, a: nat)
    requires r.Valid()
    ensures Covers(Rest(k, r), a) <==> k.start <= a < k.start + k.size && !r.Holds(a)
  {
    CoversOne(k, a);
    if k.size != 0 && !Outside(k, r) {
      var low := if k.start < r.start then [Bank(k.start, r.start - k.start)] else [];
      var high := if k.start + k.size > r.end then [Bank(r.end, k.start + k.size - r.end)] else [];
      assert Covers(low, a) <==> k.start <= a < r.start by {
        if k.start < r.start { CoversOne(low[0], a); }
      }
      assert Covers(high, a) <==> r.end <= a < k.start + k.size by {
        if k.start + k.size > r.end { CoversOne(high[0], a); }
      }
      CoversConcat(low, high, a);
    }
  }

  /** The addresses left are the addresses there were, minus the region. */
  lemma {:induction false} SubtractsExactly(bs: seq<Bank>, r: Region, a: nat)
    requires r.Valid()
    ensures Covers(RestAll(bs, r), a) <==> Covers(bs, a) && !r.Holds(a)
  {
    if bs != [] {
      SubtractsExactly(bs[1..], r, a);
      RestCovers(bs[0], r, a);
      CoversConcat(Rest(bs[0], r), RestAll(bs[1..], r), a);
      CoversConcat([bs[0]], bs[1..], a);
      CoversOne(bs[0], a);
      assert bs == [bs[0]] + bs[1..];
    }
  }

  /** Nonempty banks outside the region and without wrap-around. */
  predicate Settled(bs: seq<Bank>, r: Region) {
    forall i: nat :: i < |bs| ==> bs[i].size > 0 && Outside(bs[i], r) && bs[i].start + bs[i].size < U64_LIMIT
  }

  lemma {:induction false} RestSettles(bs: seq<Bank>, r: Region)
    requires r.Valid() && forall i: nat :: i < |bs| ==> bs[i].start + bs[i].size < U64_LIMIT
    ensures Settled(RestAll(bs, r), r)
  {
    if bs != [] { RestSettles(bs[1..], r); }
  }

  lemma {:induction false} SettledStays(bs: seq<Bank>, r: Region)
    requires Settled(bs, r)
    ensures RestAll(bs, r) == bs
  {
    if bs != [] {
      SettledStays(bs[1..], r);
      assert bs == [bs[0]] + bs[1..];
    }
  }

  // ---- A property's data ----------------------------------------------------------------------------

  /** The banks of `reg` data that divides evenly and never wraps. */
  function Banks(data: seq<byte>, c: Cells): Option<seq<Bank>>
    requires c.Valid()
  {
    if |data| % c.Stride() != 0 then None
    else
      var bs := DecodeBanks(data, c);
      if exists i: nat :: i < |bs| && bs[i].start + bs[i].size >= U64_LIMIT then None else Some(bs)
  }

  /** The new data, if what is left can be written in the same cells. */
  function Subtract(data: seq<byte>, c: Cells, r: Region): Option<seq<byte>>
    requires c.Valid()
  {
    var bs := Banks(data, c);
    if bs.None? then None
    else
      var left := RestAll(bs.value, r);
      if exists i: nat :: i < |left| && !Fits(left[i], c) then None else Some(EncodeBanks(left, c))
  }

  /** Subtracted data covers the right addresses, and subtracting again changes nothing. */
  lemma SubtractSettles(data: seq<byte>, c: Cells, r: Region)
    requires c.Valid() && r.Valid() && Subtract(data, c, r).Some?
    ensures
      var out := Subtract(data, c, r).value;
      && Banks(data, c).Some? && Banks(out, c) == Some(RestAll(Banks(data, c).value, r))
      && Subtract(out, c, r) == Some(out)
  {
    var bs := Banks(data, c).value;
    var left := RestAll(bs, r);
    RestSettles(bs, r);
    SettledStays(left, r);
    BanksRoundTrip(left, c);
  }

  lemma SubtractCovers(data: seq<byte>, c: Cells, r: Region, a: nat)
    requires c.Valid() && r.Valid() && Subtract(data, c, r).Some?
    ensures
      var out := Subtract(data, c, r).value;
      && Banks(data, c).Some? && Banks(out, c).Some?
      && (Covers(Banks(out, c).value, a) <==> Covers(Banks(data, c).value, a) && !r.Holds(a))
  {
    SubtractSettles(data, c, r);
    SubtractsExactly(Banks(data, c).value, r, a);
  }
}
