/**
 The NTB16 block format (sections 3.2 and 3.3 of USB CDC NCM 1.0, no CRC): what a decoder
 accepts, what the encoders lay out, and that decoding inverts encoding.
 */
module Ncm {
  import opened Types

  const NTB_SIZE := 16384
  const MAX_DATAGRAMS := 16
  const FRAME_OFFSET := 30

  datatype Error = Header | Pointer | Length | Overlap | TooMany

  datatype Datagram = Datagram(offset: nat, length: nat)

  predicate Overlaps(a: Datagram, b: Datagram) {
    a.offset < b.offset + b.length && b.offset < a.offset + a.length
  }

  predicate OverlapsAny(ds: seq<Datagram>, d: Datagram) {
    exists i: nat :: i < |ds| && Overlaps(ds[i], d)
  }

  function U16(bytes: seq<byte>, at: nat): nat
    requires at + 2 <= |bytes|
  {
    bytes[at] as nat + 256 * bytes[at + 1] as nat
  }

  const NCMH: seq<byte> := [78, 67, 77, 72]
  const NCM0: seq<byte> := [78, 67, 77, 48]

  predicate HeaderOk(bytes: seq<byte>) {
    && 12 <= |bytes| <= NTB_SIZE && bytes[..4] == NCMH
    && U16(bytes, 4) == 12 && U16(bytes, 8) == |bytes|
  }

  predicate PointerOk(bytes: seq<byte>, next: nat) {
    12 <= next && next % 4 == 0 && next + 4 <= |bytes| && bytes[next..next + 4] == NCM0
  }

  predicate SizeOk(bytes: seq<byte>, next: nat) {
    && next + 6 <= |bytes|
    && var size := U16(bytes, next + 4);
       size >= 12 && size % 4 == 0 && next + size <= |bytes|
  }

  predicate EntryOk(bytes: seq<byte>, d: Datagram) {
    && 12 <= d.offset && (d.offset + 14) % 4 == 0
    && 14 <= d.length <= FRAME_SIZE && d.offset + d.length <= |bytes|
  }

  function EntryAt(bytes: seq<byte>, at: nat): Datagram
    requires at + 4 <= |bytes|
  {
    Datagram(U16(bytes, at), U16(bytes, at + 2))
  }

  // ---- Decoding, step by step -----------------------------------------------------------

  function Entries(bytes: seq<byte>, at: nat, end: nat, found: seq<Datagram>): Result<seq<Datagram>, Error>
    requires end <= |bytes| && at <= end && (end - at) % 4 == 0
    decreases end - at
  {
    if at == end then Err(Pointer)
    else
      var d := EntryAt(bytes, at);
      if d == Datagram(0, 0) then Ok(found)
      else if !EntryOk(bytes, d) then Err(Length)
      else if |found| == MAX_DATAGRAMS then Err(TooMany)
      else if OverlapsAny(found, d) then Err(Overlap)
      else Entries(bytes, at + 4, end, found + [d])
  }

  predicate MeetsTable(tables: seq<Datagram>, found: seq<Datagram>) {
    exists i: nat :: i < |found| && OverlapsAny(tables, found[i])
  }

  function Walk(bytes: seq<byte>, next: nat, tables: seq<Datagram>, found: seq<Datagram>)
    : Result<seq<Datagram>, Error>
    requires |tables| <= MAX_DATAGRAMS
    decreases MAX_DATAGRAMS - |tables|
  {
    if next == 0 then if MeetsTable(tables, found) then Err(Overlap) else Ok(found)
    else if |tables| == MAX_DATAGRAMS then Err(TooMany)
    else if !PointerOk(bytes, next) then Err(Pointer)
    else if !SizeOk(bytes, next) then Err(Length)
    else
      var table := Datagram(next, U16(bytes, next + 4));
      if OverlapsAny(tables, table) then Err(Overlap)
      else
        match Entries(bytes, next + 8, next + table.length, found)
        case Err(e) => Err(e)
        case Ok(more) => Walk(bytes, U16(bytes, next + 6), tables + [table], more)
  }

  function Decode(bytes: seq<byte>): Result<seq<Datagram>, Error> {
    if !HeaderOk(bytes) then Err(Header)
    else if U16(bytes, 10) == 0 then Err(Pointer)
    else Walk(bytes, U16(bytes, 10), [], [])
  }

  // ---- What an acceptable block is --------------------------------------------------------

  predicate Apart(ds: seq<Datagram>) {
    forall i: nat, j: nat :: i < j < |ds| ==> !Overlaps(ds[i], ds[j])
  }

  /** The pointer table at `t` lists exactly `ds`, then a zero entry, inside its length. */
  ghost predicate Lists(bytes: seq<byte>, t: Datagram, ds: seq<Datagram>) {
    && t.offset + t.length <= |bytes| && 8 + 4 * |ds| + 4 <= t.length && t.length % 4 == 0
    && (forall i: nat :: i < |ds| ==> EntryAt(bytes, t.offset + 8 + 4 * i) == ds[i] && EntryOk(bytes, ds[i]))
    && EntryAt(bytes, t.offset + 8 + 4 * |ds|) == Datagram(0, 0)
  }

  /** Following links from `next` visits the tables `ts`, which list `parts`, and ends. */
  ghost predicate Linked(bytes: seq<byte>, next: nat, ts: seq<Datagram>, parts: seq<seq<Datagram>>)
    decreases |ts|
  {
    |parts| == |ts| &&
    if ts == [] then next == 0
    else
      && next != 0 && PointerOk(bytes, next) && SizeOk(bytes, next)
      && ts[0] == Datagram(next, U16(bytes, next + 4))
      && Lists(bytes, ts[0], parts[0])
      && Linked(bytes, U16(bytes, next + 6), ts[1..], parts[1..])
  }

  function Flat(parts: seq<seq<Datagram>>): seq<Datagram> {
    if parts == [] then [] else parts[0] + Flat(parts[1..])
  }

  /** Few enough tables and datagrams, none of which overlaps another of either kind. */
  ghost predicate Disjoint(ts: seq<Datagram>, ds: seq<Datagram>) {
    && |ts| <= MAX_DATAGRAMS && |ds| <= MAX_DATAGRAMS && Apart(ts) && Apart(ds)
    && forall i: nat, j: nat :: i < |ts| && j < |ds| ==> !Overlaps(ts[i], ds[j])
  }

  /** Independent reading of the format. */
  ghost predicate WellFormed(bytes: seq<byte>, ds: seq<Datagram>) {
    && HeaderOk(bytes)
    && exists ts: seq<Datagram>, parts: seq<seq<Datagram>> ::
         ts != [] && Linked(bytes, U16(bytes, 10), ts, parts) && ds == Flat(parts) && Disjoint(ts, ds)
  }

  lemma {:induction false} EntriesMeaning(bytes: seq<byte>, t: Datagram, k: nat, found: seq<Datagram>)
    requires t.offset + t.length <= |bytes| && 8 + 4 * k <= t.length && t.length % 4 == 0
    requires Apart(found) && |found| <= MAX_DATAGRAMS
    ensures Entries(bytes, t.offset + 8 + 4 * k, t.offset + t.length, found).Ok? ==>
      var all := Entries(bytes, t.offset + 8 + 4 * k, t.offset + t.length, found).value;
      && found <= all && Apart(all) && |all| <= MAX_DATAGRAMS
      && 8 + 4 * (k + |all| - |found|) + 4 <= t.length
      && (forall i: nat :: |found| <= i < |all| ==>
            EntryAt(bytes, t.offset + 8 + 4 * (k + i - |found|)) == all[i] && EntryOk(bytes, all[i]))
      && EntryAt(bytes, t.offset + 8 + 4 * (k + |all| - |found|)) == Datagram(0, 0)
    decreases t.length - 4 * k
  {
    var at := t.offset + 8 + 4 * k;
    if at < t.offset + t.length {
      var d := EntryAt(bytes, at);
      if d != Datagram(0, 0) && EntryOk(bytes, d) && |found| < MAX_DATAGRAMS && !OverlapsAny(found, d) {
        assert at + 4 == t.offset + 8 + 4 * (k + 1);
        EntriesMeaning(bytes, t, k + 1, found + [d]);
      }
    }
  }

  lemma {:induction false} EntriesAccept(bytes: seq<byte>, t: Datagram, ds: seq<Datagram>, k: nat, found: seq<Datagram>)
    requires Lists(bytes, t, ds) && k <= |ds|
    requires Apart(found + ds[k..]) && |found| + |ds| - k <= MAX_DATAGRAMS
    ensures Entries(bytes, t.offset + 8 + 4 * k, t.offset + t.length, found) == Ok(found + ds[k..])
    decreases |ds| - k
  {
    if k < |ds| {
      var whole := found + ds[k..];
      assert whole[|found|] == ds[k];
      assert forall i: nat :: i < |found| ==> whole[i] == found[i];
      assert EntryOk(bytes, ds[k]);
      assert (found + [ds[k]]) + ds[k + 1..] == whole;
      EntriesAccept(bytes, t, ds, k + 1, found + [ds[k]]);
    } else {
      assert found + ds[k..] == found;
    }
  }

  lemma EntriesListed(bytes: seq<byte>, t: Datagram, found: seq<Datagram>) returns (part: seq<Datagram>)
    requires t.offset + t.length <= |bytes| && 8 <= t.length && t.length % 4 == 0
    requires Apart(found) && |found| <= MAX_DATAGRAMS
    requires Entries(bytes, t.offset + 8, t.offset + t.length, found).Ok?
    ensures Entries(bytes, t.offset + 8, t.offset + t.length, found) == Ok(found + part)
    ensures Lists(bytes, t, part) && Apart(found + part) && |found + part| <= MAX_DATAGRAMS
  {
    EntriesMeaning(bytes, t, 0, found);
    var all := Entries(bytes, t.offset + 8, t.offset + t.length, found).value;
    part := all[|found|..];
    assert found + part == all;
    forall i: nat | i < |part|
      ensures EntryAt(bytes, t.offset + 8 + 4 * i) == part[i] && EntryOk(bytes, part[i]) {
      assert part[i] == all[|found| + i];
    }
  }

  lemma ClearTables(tables: seq<Datagram>, found: seq<Datagram>)
    requires !MeetsTable(tables, found)
    ensures forall i: nat, j: nat :: i < |tables| && j < |found| ==> !Overlaps(tables[i], found[j])
  {
    forall i: nat, j: nat | i < |tables| && j < |found| ensures !Overlaps(tables[i], found[j]) {
      assert !OverlapsAny(tables, found[j]);
    }
  }

  lemma FlatCons(found: seq<Datagram>, part: seq<Datagram>, rest: seq<seq<Datagram>>)
    ensures found + Flat([part] + rest) == found + part + Flat(rest)
  {
    assert ([part] + rest)[1..] == rest;
    Associative(found, part, Flat(rest));
  }

  /** Whatever `Walk` accepts is linked, listed and disjoint. */
  lemma {:induction false} WalkSound(bytes: seq<byte>, next: nat, tables: seq<Datagram>, found: seq<Datagram>)
    returns (ts: seq<Datagram>, parts: seq<seq<Datagram>>)
    requires |tables| <= MAX_DATAGRAMS && Apart(tables) && Apart(found) && |found| <= MAX_DATAGRAMS
    requires Walk(bytes, next, tables, found).Ok?
    ensures Linked(bytes, next, ts, parts)
    ensures Walk(bytes, next, tables, found) == Ok(found + Flat(parts))
    ensures Disjoint(tables + ts, found + Flat(parts))
    decreases MAX_DATAGRAMS - |tables|
  {
    if next == 0 {
      ts, parts := [], [];
      assert tables + ts == tables && found + Flat(parts) == found;
      ClearTables(tables, found);
    } else {
      var table := Datagram(next, U16(bytes, next + 4));
      var part := EntriesListed(bytes, table, found);
      var ts', parts' := WalkSound(bytes, U16(bytes, next + 6), tables + [table], found + part);
      ts, parts := [table] + ts', [part] + parts';
      assert parts[1..] == parts' && ts[1..] == ts';
      Associative(tables, [table], ts');
      FlatCons(found, part, parts');
    }
  }

  lemma {:induction false} WalkAccepts(bytes: seq<byte>, next: nat, tables: seq<Datagram>, found: seq<Datagram>,
                                      ts: seq<Datagram>, parts: seq<seq<Datagram>>)
    requires |tables| <= MAX_DATAGRAMS && Linked(bytes, next, ts, parts)
    requires Disjoint(tables + ts, found + Flat(parts))
    ensures Walk(bytes, next, tables, found) == Ok(found + Flat(parts))
    decreases |ts|
  {
    if ts == [] {
      assert tables + ts == tables && found + Flat(parts) == found;
    } else {
      assert (tables + ts)[|tables|] == ts[0];
      assert forall i: nat :: i < |tables| ==> (tables + ts)[i] == tables[i];
      assert found + Flat(parts) == (found + parts[0]) + Flat(parts[1..]);
      ApartPrefix(found + parts[0], Flat(parts[1..]));
      assert parts[0][0..] == parts[0];
      EntriesAccept(bytes, ts[0], parts[0], 0, found);
      assert tables + ts == (tables + [ts[0]]) + ts[1..];
      WalkAccepts(bytes, U16(bytes, next + 6), tables + [ts[0]], found + parts[0], ts[1..], parts[1..]);
    }
  }

  lemma ApartPrefix(a: seq<Datagram>, b: seq<Datagram>)
    requires Apart(a + b)
    ensures Apart(a)
  {
    assert forall i: nat :: i < |a| ==> (a + b)[i] == a[i];
  }

  /** The decoder accepts exactly the well-formed blocks, with exactly their datagrams. */
  lemma DecodeExact(bytes: seq<byte>, ds: seq<Datagram>)
    ensures Decode(bytes) == Ok(ds) <==> WellFormed(bytes, ds)
  {
    if Decode(bytes) == Ok(ds) {
      var ts, parts := WalkSound(bytes, U16(bytes, 10), [], []);
      assert [] + ts == ts && [] + Flat(parts) == Flat(parts);
    }
    if WellFormed(bytes, ds) {
      var ts: seq<Datagram>, parts: seq<seq<Datagram>> :|
        ts != [] && Linked(bytes, U16(bytes, 10), ts, parts) && ds == Flat(parts) && Disjoint(ts, ds);
      assert [] + ts == ts && [] + Flat(parts) == Flat(parts);
      WalkAccepts(bytes, U16(bytes, 10), [], [], ts, parts);
    }
  }

  /** On any bytes at all: what is exposed lies in the block, past its header, apart. */
  lemma DecodeSafe(bytes: seq<byte>)
    requires Decode(bytes).Ok?
    ensures var ds := Decode(bytes).value;
      && |ds| <= MAX_DATAGRAMS && Apart(ds)
      && forall i: nat :: i < |ds| ==> EntryOk(bytes, ds[i])
  {
    var ts, parts := WalkSound(bytes, U16(bytes, 10), [], []);
    assert [] + Flat(parts) == Flat(parts);
    FlatOk(bytes, U16(bytes, 10), ts, parts);
  }

  lemma {:induction false} FlatOk(bytes: seq<byte>, next: nat, ts: seq<Datagram>, parts: seq<seq<Datagram>>)
    requires Linked(bytes, next, ts, parts)
    ensures forall i: nat :: i < |Flat(parts)| ==> EntryOk(bytes, Flat(parts)[i])
    decreases |ts|
  {
    if ts != [] { FlatOk(bytes, U16(bytes, next + 6), ts[1..], parts[1..]); }
  }

  // ---- Encoding ---------------------------------------------------------------------------

  function AlignUp4(n: nat): (r: nat)
    ensures r % 4 == 0 && n <= r < n + 4
  {
    (n + 3) / 4 * 4
  }

  /** Where the next frame starts after byte `end`: its Ethernet payload is aligned. */
  function OffsetAfter(end: nat): (r: nat)
    ensures end <= r < end + 4 && (r + 14) % 4 == 0
  {
    AlignUp4(end + 14) - 14
  }

  type Frames = seq<seq<byte>>

  /** Bytes 12 onward: each frame after the zero bytes that align it. */
  function Body(fs: Frames): seq<byte> {
    if fs == [] then []
    else
      var b := Body(fs[..|fs| - 1]);
      b + Zeros(OffsetAfter(12 + |b|) - (12 + |b|)) + fs[|fs| - 1]
  }

  function Table(fs: Frames): (t: seq<Datagram>)
    ensures |t| == |fs|
  {
    if fs == [] then []
    else
      var front := fs[..|fs| - 1];
      Table(front) + [Datagram(OffsetAfter(12 + |Body(front)|), |fs[|fs| - 1]|)]
  }

  function NdpAt(fs: Frames): nat { AlignUp4(12 + |Body(fs)|) }

  function NdpSize(count: nat): nat { 8 + (count + 1) * 4 }

  function Total(fs: Frames): nat { NdpAt(fs) + NdpSize(|fs|) }

  function Pointers(ds: seq<Datagram>): (p: seq<byte>)
    ensures |p| == 4 * |ds|
  {
    if ds == [] then []
    else var last := ds[|ds| - 1]; Pointers(ds[..|ds| - 1]) + Le16(last.offset) + Le16(last.length)
  }

  function Ndp(ds: seq<Datagram>): (p: seq<byte>)
    ensures |p| == NdpSize(|ds|)
  {
    NCM0 + Le16(NdpSize(|ds|)) + [0, 0] + Pointers(ds) + [0, 0, 0, 0]
  }

  function HeaderBytes(length: nat, ndp: nat, sequence: nat): (h: seq<byte>)
    ensures |h| == 12
  {
    NCMH + Le16(12) + Le16(sequence) + Le16(length) + Le16(ndp)
  }

  function Ntb(fs: Frames, sequence: nat): (b: seq<byte>)
    ensures |b| == Total(fs)
  {
    HeaderBytes(Total(fs), NdpAt(fs), sequence) + Body(fs) + Zeros(NdpAt(fs) - 12 - |Body(fs)|) + Ndp(Table(fs))
  }

  predicate Fits(fs: Frames, capacity: nat) {
    && |fs| <= MAX_DATAGRAMS && (forall i: nat :: i < |fs| ==> FrameOk(fs[i]))
    && (fs != [] ==> Total(fs) <= capacity && Total(fs) <= NTB_SIZE)
  }

  // ---- Decoding inverts encoding --------------------------------------------------------------

  /** Datagram `d` holds `frame` in a block whose bytes from 12 on are `body`. */
  predicate Placed(body: seq<byte>, d: Datagram, frame: seq<byte>) {
    && 12 <= d.offset && (d.offset + 14) % 4 == 0 && d.length == |frame|
    && d.offset + d.length <= 12 + |body|
    && body[d.offset - 12..d.offset - 12 + d.length] == frame
  }

  lemma PlacedExtends(body: seq<byte>, more: seq<byte>, d: Datagram, frame: seq<byte>)
    requires Placed(body, d, frame)
    ensures Placed(body + more, d, frame)
  {
    assert (body + more)[d.offset - 12..d.offset - 12 + d.length] == body[d.offset - 12..d.offset - 12 + d.length];
  }

  lemma {:induction false} TablePlaced(fs: Frames, i: nat)
    requires i < |fs|
    ensures Placed(Body(fs), Table(fs)[i], fs[i])
  {
    var front, last := fs[..|fs| - 1], fs[|fs| - 1];
    var b := Body(front);
    var pad := Zeros(OffsetAfter(12 + |b|) - (12 + |b|));
    if i < |front| {
      TablePlaced(front, i);
      PlacedExtends(b, pad, Table(front)[i], fs[i]);
      PlacedExtends(b + pad, last, Table(front)[i], fs[i]);
    } else {
      assert (b + pad + last)[|b + pad|..|b + pad| + |last|] == last;
    }
  }

  lemma {:induction false} TableOrdered(fs: Frames, i: nat, j: nat)
    requires i < j < |fs|
    ensures Table(fs)[i].offset + Table(fs)[i].length <= Table(fs)[j].offset
  {
    var front := fs[..|fs| - 1];
    if j < |front| { TableOrdered(front, i, j); } else { TablePlaced(front, i); }
  }

  lemma {:induction false} PointersAt(ds: seq<Datagram>, i: nat)
    requires i < |ds| && forall j: nat :: j < |ds| ==> ds[j].offset < 65536 && ds[j].length < 65536
    ensures EntryAt(Pointers(ds), 4 * i) == ds[i]
  {
    var front := ds[..|ds| - 1];
    if i < |front| { PointersAt(front, i); }
  }

  lemma U16Le(v: nat)
    requires v < 65536
    ensures U16(Le16(v), 0) == v
  {
  }

  lemma U16Slice(bytes: seq<byte>, at: nat, part: seq<byte>, k: nat)
    requires at + |part| <= |bytes| && bytes[at..at + |part|] == part && k + 2 <= |part|
    ensures U16(bytes, at + k) == U16(part, k)
  {
    assert bytes[at + k] == part[k] && bytes[at + k + 1] == part[k + 1];
  }

  lemma HeaderLayout(b: seq<byte>, length: nat, ndp: nat, sequence: nat)
    requires 12 <= |b| == length <= NTB_SIZE && b[..12] == HeaderBytes(length, ndp, sequence) && ndp < 65536
    ensures HeaderOk(b) && U16(b, 10) == ndp
  {
    var h := HeaderBytes(length, ndp, sequence);
    assert b[0..0 + |h|] == h;
    assert h[..4] == NCMH && b[..4] == h[..4];
    U16Slice(b, 0, h, 4);
    U16Slice(b, 0, h, 8);
    U16Slice(b, 0, h, 10);
    U16Le(length);
    U16Le(ndp);
  }

  /** Where four pieces lie end to end. */
  lemma PiecesAt(h: seq<byte>, body: seq<byte>, gap: seq<byte>, tail: seq<byte>)
    ensures
      var b := h + body + gap + tail;
      var at := |h| + |body| + |gap|;
      b[..|h|] == h && b[|h|..|h| + |body|] == body && b[at..at + |tail|] == tail
  {
  }

  lemma {:induction false} NtbLayout(fs: Frames, sequence: nat)
    requires Fits(fs, NTB_SIZE) && fs != []
    ensures var b := Ntb(fs, sequence); var ndp := NdpAt(fs);
      && HeaderOk(b) && U16(b, 10) == ndp
      && b[12..12 + |Body(fs)|] == Body(fs)
      && b[ndp..ndp + |Ndp(Table(fs))|] == Ndp(Table(fs))
  {
    var h, body, table := HeaderBytes(Total(fs), NdpAt(fs), sequence), Body(fs), Ndp(Table(fs));
    PiecesAt(h, body, Zeros(NdpAt(fs) - 12 - |body|), table);
    HeaderLayout(Ntb(fs, sequence), Total(fs), NdpAt(fs), sequence);
  }

  lemma NdpBytes(ds: seq<Datagram>)
    requires |ds| <= MAX_DATAGRAMS
    requires forall i: nat :: i < |ds| ==> ds[i].offset < 65536 && ds[i].length < 65536
    ensures var p := Ndp(ds);
      && p[..4] == NCM0 && U16(p, 4) == NdpSize(|ds|) && U16(p, 6) == 0
      && (forall i: nat :: i < |ds| ==> EntryAt(p, 8 + 4 * i) == ds[i])
      && EntryAt(p, 8 + 4 * |ds|) == Datagram(0, 0)
  {
    var p := Ndp(ds);
    U16Le(NdpSize(|ds|));
    assert p[4..6] == Le16(NdpSize(|ds|));
    U16Slice(p, 4, Le16(NdpSize(|ds|)), 0);
    assert p[8..8 + |Pointers(ds)|] == Pointers(ds);
    forall i: nat | i < |ds| ensures EntryAt(p, 8 + 4 * i) == ds[i] {
      PointersAt(ds, i);
      U16Slice(p, 8, Pointers(ds), 4 * i);
      U16Slice(p, 8, Pointers(ds), 4 * i + 2);
    }
  }

  lemma {:induction false} NdpListed(bytes: seq<byte>, at: nat, ds: seq<Datagram>)
    requires at + |Ndp(ds)| <= |bytes| && bytes[at..at + |Ndp(ds)|] == Ndp(ds)
    requires 12 <= at && at % 4 == 0 && |ds| <= MAX_DATAGRAMS
    requires forall i: nat :: i < |ds| ==> EntryOk(bytes, ds[i]) && ds[i].offset < 65536
    ensures PointerOk(bytes, at) && SizeOk(bytes, at) && U16(bytes, at + 4) == NdpSize(|ds|)
    ensures U16(bytes, at + 6) == 0
    ensures Lists(bytes, Datagram(at, NdpSize(|ds|)), ds)
  {
    NdpBytes(ds);
    TableListed(bytes, at, Ndp(ds), ds);
  }

  lemma TableListed(bytes: seq<byte>, at: nat, p: seq<byte>, ds: seq<Datagram>)
    requires |p| == NdpSize(|ds|) && at + |p| <= |bytes| && bytes[at..at + |p|] == p
    requires p[..4] == NCM0 && U16(p, 4) == |p| && U16(p, 6) == 0 && 12 <= at && at % 4 == 0
    requires forall i: nat :: i < |ds| ==> EntryAt(p, 8 + 4 * i) == ds[i] && EntryOk(bytes, ds[i])
    requires EntryAt(p, 8 + 4 * |ds|) == Datagram(0, 0)
    ensures PointerOk(bytes, at) && SizeOk(bytes, at) && U16(bytes, at + 4) == |p| && U16(bytes, at + 6) == 0
    ensures Lists(bytes, Datagram(at, |p|), ds)
  {
    var n := |ds|;
    TableRead(bytes, at, p, n);
    assert EntryAt(bytes, at + 8 + 4 * n) == EntryAt(p, 8 + 4 * n);
  }

  /** A table's bytes, read where they lie in a block. */
  lemma TableRead(bytes: seq<byte>, at: nat, p: seq<byte>, n: nat)
    requires |p| == 8 + 4 * n + 4 && at + |p| <= |bytes| && bytes[at..at + |p|] == p
    ensures bytes[at..at + 4] == p[..4] && U16(bytes, at + 4) == U16(p, 4) && U16(bytes, at + 6) == U16(p, 6)
    ensures forall i: nat :: i <= n ==> EntryAt(bytes, at + 8 + 4 * i) == EntryAt(p, 8 + 4 * i)
  {
    assert bytes[at..at + 4] == p[..4];
    U16Slice(bytes, at, p, 4);
    U16Slice(bytes, at, p, 6);
    forall i: nat | i <= n ensures EntryAt(bytes, at + 8 + 4 * i) == EntryAt(p, 8 + 4 * i) {
      U16Slice(bytes, at, p, 8 + 4 * i);
      U16Slice(bytes, at, p, 8 + 4 * i + 2);
    }
  }

  /** A block with one table, listing `ds`, decodes to `ds`. */
  lemma OneTable(b: seq<byte>, ndp: nat, ds: seq<Datagram>)
    requires HeaderOk(b) && U16(b, 10) == ndp && 12 <= ndp && ndp % 4 == 0 && |ds| <= MAX_DATAGRAMS
    requires ndp + |Ndp(ds)| <= |b| && b[ndp..ndp + |Ndp(ds)|] == Ndp(ds)
    requires forall i: nat :: i < |ds| ==> EntryOk(b, ds[i])
    requires Disjoint([Datagram(ndp, NdpSize(|ds|))], ds)
    ensures Decode(b) == Ok(ds)
  {
    NdpListed(b, ndp, ds);
    var ts := [Datagram(ndp, NdpSize(|ds|))];
    var parts := [ds];
    assert Linked(b, 0, ts[1..], parts[1..]);
    assert Flat(parts) == ds by { assert parts[1..] == []; assert ds + [] == ds; }
    DecodeExact(b, ds);
  }

  lemma BatchApart(fs: Frames)
    requires Fits(fs, NTB_SIZE) && fs != []
    ensures Disjoint([Datagram(NdpAt(fs), NdpSize(|fs|))], Table(fs))
    ensures forall i: nat, b: seq<byte> :: i < |fs| && |b| == Total(fs) ==> EntryOk(b, Table(fs)[i])
  {
    var ds := Table(fs);
    forall i: nat | i < |fs| ensures ds[i].offset + ds[i].length <= NdpAt(fs)
      ensures forall b: seq<byte> :: |b| == Total(fs) ==> EntryOk(b, ds[i])
    {
      TablePlaced(fs, i);
      assert FrameOk(fs[i]);
    }
    forall i: nat, j: nat | i < j < |fs| ensures !Overlaps(ds[i], ds[j]) { TableOrdered(fs, i, j); }
  }

  lemma PlacedSlice(b: seq<byte>, body: seq<byte>, d: Datagram, frame: seq<byte>)
    requires 12 + |body| <= |b| && b[12..12 + |body|] == body && Placed(body, d, frame)
    ensures b[d.offset..d.offset + d.length] == frame
  {
    assert b[d.offset..d.offset + d.length] == b[12..12 + |body|][d.offset - 12..d.offset - 12 + d.length];
  }

  lemma BodyAt(fs: Frames, sequence: nat)
    requires Fits(fs, NTB_SIZE) && fs != []
    ensures 12 + |Body(fs)| <= |Ntb(fs, sequence)| && Ntb(fs, sequence)[12..12 + |Body(fs)|] == Body(fs)
  {
    NtbLayout(fs, sequence);
  }

  /** Exactly-once transport: decoding a batch yields one datagram per frame, in order... */
  lemma DecodeBatch(fs: Frames, sequence: nat)
    requires Fits(fs, NTB_SIZE) && fs != []
    ensures Decode(Ntb(fs, sequence)) == Ok(Table(fs)) && |Table(fs)| == |fs|
  {
    NtbLayout(fs, sequence);
    BatchApart(fs);
    OneTable(Ntb(fs, sequence), NdpAt(fs), Table(fs));
  }

  /** ... and datagram `i` is exactly frame `i`. */
  lemma {:induction false} DecodedFrame(fs: Frames, sequence: nat, i: nat)
    requires Fits(fs, NTB_SIZE) && i < |fs|
    ensures var b, d := Ntb(fs, sequence), Table(fs)[i];
      d.offset + d.length <= |b| && b[d.offset..d.offset + d.length] == fs[i]
  {
    BodyAt(fs, sequence);
    TablePlaced(fs, i);
    PlacedSlice(Ntb(fs, sequence), Body(fs), Table(fs)[i], fs[i]);
  }

  /** The single-frame layout: table first, frame at a fixed offset. */
  function Single(frame: seq<byte>, sequence: nat): (b: seq<byte>)
    ensures |b| == FRAME_OFFSET + |frame|
  {
    HeaderBytes(FRAME_OFFSET + |frame|, 12, sequence)
    + (NCM0 + Le16(16)) + Zeros(2) + (Le16(FRAME_OFFSET) + Le16(|frame|)) + Zeros(6) + frame
  }

  lemma DecodeSingle(frame: seq<byte>, sequence: nat)
    requires FrameOk(frame)
    ensures Decode(Single(frame, sequence)) == Ok([Datagram(FRAME_OFFSET, |frame|)])
    ensures Single(frame, sequence)[FRAME_OFFSET..] == frame
  {
    var b := Single(frame, sequence);
    var ds := [Datagram(FRAME_OFFSET, |frame|)];
    HeaderLayout(b, |b|, 12, sequence);
    assert Pointers(ds) == Le16(FRAME_OFFSET) + Le16(|frame|) by { assert ds[..0] == []; }
    assert b[12..12 + |Ndp(ds)|] == Ndp(ds);
    OneTable(b, 12, ds);
  }
}
