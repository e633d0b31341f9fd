/** The NTB16 format byte by byte (sections 3.2 and 3.3 of the NCM specification), read and written. */
module NcmFormat {
  import opened Types
  import opened Ncm

  // ---- What is accepted -------------------------------------------------------------------------

  /** A little-endian word of two bytes. */
  function Pair(b: seq<byte>, at: nat): nat
    requires at + 2 <= |b|
  {
    b[at] as nat + 0x100 * b[at + 1] as nat
  }

  predicate Headed(b: seq<byte>) {
    && 12 <= |b| <= 16384 && b[..4] == Ascii("NCMH") && Pair(b, 4) == 12 && Pair(b, 8) == |b|
  }

  /** A pointer table: aligned, signed, of a length in whole words that lies within the block. */
  predicate Tabled(b: seq<byte>, t: Datagram) {
    && 12 <= t.offset && t.offset % 4 == 0 && 12 <= t.length && t.length % 4 == 0 && t.offset + t.length <= |b|
    && b[t.offset..t.offset + 4] == Ascii("NCM0") && Pair(b, t.offset + 4) == t.length
  }

  /** A frame behind the header whose payload, after fourteen bytes, is aligned. */
  predicate Framed(b: seq<byte>, d: Datagram) {
    12 <= d.offset && d.offset % 4 == 2 && 14 <= d.length <= 1514 && d.offset + d.length <= |b|
  }

  predicate Entry(b: seq<byte>, t: Datagram, i: nat, d: Datagram) {
    && t.offset + 8 + 4 * i + 4 <= |b|
    && Pair(b, t.offset + 8 + 4 * i) == d.offset && Pair(b, t.offset + 8 + 4 * i + 2) == d.length
  }

  /** The entries from byte 8 on are frames, up to a zero entry before the table's end. */
  ghost predicate Entered(b: seq<byte>, t: Datagram, ds: seq<Datagram>) {
    && 8 + 4 * |ds| + 4 <= t.length
    && (forall i: nat :: i < |ds| ==> Entry(b, t, i, ds[i]) && Framed(b, ds[i]))
    && Entry(b, t, |ds|, Datagram(0, 0))
  }

  ghost predicate Chained(b: seq<byte>, next: nat, ts: seq<Datagram>, parts: seq<seq<Datagram>>)
    decreases |ts|
  {
    |parts| == |ts| &&
    if ts == [] then next == 0
    else
      && next == ts[0].offset && Tabled(b, ts[0]) && Entered(b, ts[0], parts[0])
      && Chained(b, Pair(b, next + 6), ts[1..], parts[1..])
  }

  predicate Beside(a: Datagram, b: Datagram) { a.offset + a.length <= b.offset || b.offset + b.length <= a.offset }

  ghost predicate Acceptable(b: seq<byte>, ds: seq<Datagram>) {
    && Headed(b) && |ds| <= 16
    && (forall i: nat, j: nat :: i < j < |ds| ==> Beside(ds[i], ds[j]))
    && exists ts: seq<Datagram>, parts: seq<seq<Datagram>> ::
         && ts != [] && Chained(b, Pair(b, 10), ts, parts) && ds == Flat(parts) && |ts| <= 16
         && (forall i: nat, j: nat :: i < j < |ts| ==> Beside(ts[i], ts[j]))
         && forall i: nat, j: nat :: i < |ts| && j < |ds| ==> Beside(ts[i], ds[j])
  }

  lemma HeadedIs(b: seq<byte>)
    ensures Headed(b) <==> HeaderOk(b)
    ensures Decode(b) == Err(Header) ==> !Headed(b)
    ensures !Headed(b) ==> Decode(b) == Err(Header)
  {
    assert Ascii("NCMH") == NCMH;
    if HeaderOk(b) { WalkNotHeader(b, U16(b, 10), [], []); }
  }

  lemma {:induction false} EntriesNotHeader(b: seq<byte>, at: nat, end: nat, found: seq<Datagram>)
    requires end <= |b| && at <= end && (end - at) % 4 == 0
    ensures Entries(b, at, end, found) != Err(Header)
    decreases end - at
  {
    if at != end { EntriesNotHeader(b, at + 4, end, found + [EntryAt(b, at)]); }
  }

  lemma {:induction false} WalkNotHeader(b: seq<byte>, next: nat, tables: seq<Datagram>, found: seq<Datagram>)
    requires |tables| <= MAX_DATAGRAMS
    ensures Walk(b, next, tables, found) != Err(Header)
    decreases MAX_DATAGRAMS - |tables|
  {
    if next != 0 && |tables| != MAX_DATAGRAMS && PointerOk(b, next) && SizeOk(b, next) {
      var table := Datagram(next, U16(b, next + 4));
      EntriesNotHeader(b, next + 8, next + table.length, found);
      match Entries(b, next + 8, next + table.length, found)
      case Err(_) =>
      case Ok(more) => WalkNotHeader(b, U16(b, next + 6), tables + [table], more);
    }
  }

  lemma FramedIs(b: seq<byte>, d: Datagram)
    ensures Framed(b, d) <==> EntryOk(b, d)
  {
  }

  lemma EnteredIs(b: seq<byte>, t: Datagram, ds: seq<Datagram>)
    requires Tabled(b, t)
    ensures Entered(b, t, ds) <==> Lists(b, t, ds)
  {
    if 8 + 4 * |ds| + 4 <= t.length {
      forall i: nat | i < |ds|
        ensures Entry(b, t, i, ds[i]) && Framed(b, ds[i])
           <==> EntryAt(b, t.offset + 8 + 4 * i) == ds[i] && EntryOk(b, ds[i]) {
        EntryIs(b, t, i, ds[i]);
      }
      EntryIs(b, t, |ds|, Datagram(0, 0));
    }
  }

  lemma EntryIs(b: seq<byte>, t: Datagram, i: nat, d: Datagram)
    requires t.offset + 8 + 4 * i + 4 <= |b|
    ensures Entry(b, t, i, d) <==> EntryAt(b, t.offset + 8 + 4 * i) == d
  {
  }

  lemma TabledIs(b: seq<byte>, next: nat, t: Datagram)
    ensures
      next == t.offset && Tabled(b, t) <==>
        next != 0 && PointerOk(b, next) && SizeOk(b, next) && t == Datagram(next, U16(b, next + 4))
  {
    assert Ascii("NCM0") == NCM0;
  }

  lemma {:induction false} ChainedIs(b: seq<byte>, next: nat, ts: seq<Datagram>, parts: seq<seq<Datagram>>)
    ensures Chained(b, next, ts, parts) <==> Linked(b, next, ts, parts)
    decreases |ts|
  {
    if ts != [] && |parts| == |ts| {
      TabledIs(b, next, ts[0]);
      if next == ts[0].offset && Tabled(b, ts[0]) {
        EnteredIs(b, ts[0], parts[0]);
        ChainedIs(b, Pair(b, next + 6), ts[1..], parts[1..]);
      }
    }
  }

  lemma BesideIs(a: Datagram, b: Datagram)
    ensures Beside(a, b) <==> !Overlaps(a, b)
  {
  }

  /** A block is accepted exactly if the format allows it, and then with the datagrams its tables list in order. */
  lemma AcceptedExact(b: seq<byte>, ds: seq<Datagram>)
    ensures Decode(b) == Ok(ds) <==> Acceptable(b, ds)
  {
    DecodeExact(b, ds);
    HeadedIs(b);
    forall i: nat, j: nat | i < j < |ds| ensures Beside(ds[i], ds[j]) <==> !Overlaps(ds[i], ds[j]) {
      BesideIs(ds[i], ds[j]);
    }
    if Headed(b) {
      forall ts: seq<Datagram>, parts: seq<seq<Datagram>>
        ensures Chained(b, Pair(b, 10), ts, parts) <==> Linked(b, U16(b, 10), ts, parts) {
        ChainedIs(b, Pair(b, 10), ts, parts);
      }
    }
  }

  // ---- What is written ------------------------------------------------------------------------------

  lemma PairIs(b: seq<byte>, at: nat)
    requires at + 2 <= |b|
    ensures Pair(b, at) == U16(b, at)
  {
  }

  /** The first multiple of four from `end` on. */
  predicate FirstAligned(end: nat, at: nat) { at % 4 == 0 && end <= at < end + 4 }

  /** A frame placed at the first offset from `end` on at which its payload is aligned. */
  predicate Next(end: nat, d: Datagram, frame: seq<byte>) {
    d.length == |frame| && d.offset % 4 == 2 && end <= d.offset < end + 4
  }

  /** Each frame starts at the first such place after the one before it. */
  lemma {:induction false} TableExact(fs: Frames, i: nat)
    requires i < |fs|
    ensures
      var t := Table(fs);
      Next(if i == 0 then 12 else t[i - 1].offset + t[i - 1].length, t[i], fs[i])
  {
    var front := fs[..|fs| - 1];
    TableGrows(fs);
    if i < |front| {
      TableExact(front, i);
    } else {
      LastNext(fs);
      if front != [] { BodyEnds(front); }
    }
  }

  lemma {:induction false} TableGrows(fs: Frames)
    requires fs != []
    ensures forall j: nat :: j < |fs| - 1 ==> Table(fs)[j] == Table(fs[..|fs| - 1])[j]
  {
  }

  lemma {:induction false} LastNext(fs: Frames)
    requires fs != []
    ensures Next(12 + |Body(fs[..|fs| - 1])|, Table(fs)[|fs| - 1], fs[|fs| - 1])
  {
  }

  lemma {:induction false} BodyEnds(fs: Frames)
    requires fs != []
    ensures 12 + |Body(fs)| == Table(fs)[|fs| - 1].offset + Table(fs)[|fs| - 1].length
  {
  }

  /** The table of `n` entries at the first aligned place after the last frame, up to the block's end. */
  predicate Trailed(b: seq<byte>, ndp: nat, last: Datagram, n: nat) {
    && FirstAligned(last.offset + last.length, ndp) && |b| == ndp + 12 + 4 * n
    && b[ndp..ndp + 4] == Ascii("NCM0") && Pair(b, ndp + 4) == 12 + 4 * n && Pair(b, ndp + 6) == 0
    && Pair(b, |b| - 4) == 0 && Pair(b, |b| - 2) == 0
  }

  /** A batch: header, frames, and behind them one table with an entry for each frame. */
  lemma {:induction false} BatchLayout(fs: Frames, sequence: nat)
    requires Fits(fs, NTB_SIZE) && fs != []
    ensures
      var b := Ntb(fs, sequence);
      && b[..4] == Ascii("NCMH") && Pair(b, 4) == 12 && Pair(b, 6) == sequence % 65536 && Pair(b, 8) == |b|
      && Trailed(b, Pair(b, 10), Table(fs)[|fs| - 1], |fs|)
  {
    BatchHeaded(fs, sequence, NdpAt(fs));
    BatchTrailed(fs, Ntb(fs, sequence), NdpAt(fs), sequence);
  }

  lemma {:induction false} BatchHeaded(fs: Frames, sequence: nat, ndp: nat)
    requires Fits(fs, NTB_SIZE) && fs != [] && ndp == NdpAt(fs)
    ensures
      var b := Ntb(fs, sequence);
      && b[..4] == Ascii("NCMH") && Pair(b, 4) == 12 && Pair(b, 6) == sequence % 65536 && Pair(b, 8) == |b|
      && Pair(b, 10) == ndp
  {
    assert Ascii("NCMH") == NCMH;
    var b := Ntb(fs, sequence);
    assert b[..12] == HeaderBytes(Total(fs), ndp, sequence);
    HeaderWords(b, |b|, ndp, sequence);
  }

  lemma {:induction false} BatchTrailed(fs: Frames, b: seq<byte>, ndp: nat, sequence: nat)
    requires Fits(fs, NTB_SIZE) && fs != [] && ndp == NdpAt(fs) && b == Ntb(fs, sequence)
    ensures Trailed(b, ndp, Table(fs)[|fs| - 1], |fs|)
  {
    assert Ascii("NCM0") == NCM0;
    NtbLayout(fs, sequence);
    BodyEnds(fs);
    assert FirstAligned(12 + |Body(fs)|, ndp);
    NdpWords(b, ndp, Table(fs));
  }

  lemma HeaderWords(b: seq<byte>, length: nat, ndp: nat, sequence: nat)
    requires 12 <= |b| == length <= NTB_SIZE && b[..12] == HeaderBytes(length, ndp, sequence) && ndp < 65536
    ensures b[..4] == NCMH && Pair(b, 4) == 12 && Pair(b, 6) == sequence % 65536 && Pair(b, 8) == |b|
    ensures Pair(b, 10) == ndp
  {
    HeaderLayout(b, length, ndp, sequence);
    var h := HeaderBytes(length, ndp, sequence);
    assert b[6] == b[..12][6] == h[6] && b[7] == b[..12][7] == h[7];
    Sequence(sequence);
  }

  lemma Sequence(v: nat)
    ensures v % 256 + 0x100 * (v / 256 % 256) == v % 65536
  {
    var q, r := v / 65536, v % 65536;
    assert v == 256 * (256 * q + r / 256) + r % 256;
    assert v / 256 == 256 * q + r / 256 && v % 256 == r % 256;
  }

  lemma NdpWords(b: seq<byte>, at: nat, ds: seq<Datagram>)
    requires |ds| <= 16 && at + 12 + 4 * |ds| == |b| && b[at..at + |Ndp(ds)|] == Ndp(ds)
    ensures b[at..at + 4] == NCM0 && Pair(b, at + 4) == 12 + 4 * |ds| && Pair(b, at + 6) == 0
    ensures Pair(b, |b| - 4) == 0 && Pair(b, |b| - 2) == 0
  {
    var p := Ndp(ds);
    NdpEnds(ds);
    assert b[at..at + 4] == p[..4];
    assert forall i: nat :: i < |p| ==> b[at + i] == p[i] by {
      forall i: nat | i < |p| ensures b[at + i] == p[i] { assert b[at..at + |p|][i] == p[i]; }
    }
    assert b[at + 4] == p[4] && b[at + 5] == p[5] && b[at + 6] == p[6] && b[at + 7] == p[7];
    var k := |p| - 4;
    assert b[at + k] == p[k] && b[at + (k + 1)] == p[k + 1] && b[at + (k + 2)] == p[k + 2];
    assert b[at + (k + 3)] == p[k + 3];
  }

  lemma NdpEnds(ds: seq<Datagram>)
    requires |ds| <= 16
    ensures var p := Ndp(ds);
      && |p| == 12 + 4 * |ds| && p[..4] == NCM0 && Pair(p, 4) == |p| && Pair(p, 6) == 0
      && Pair(p, |p| - 4) == 0 && Pair(p, |p| - 2) == 0
  {
    var p := Ndp(ds);
    assert p[..8] == NCM0 + Le16(NdpSize(|ds|)) + [0, 0];
    assert p[4] == p[..8][4] && p[5] == p[..8][5] && p[6] == p[..8][6] && p[7] == p[..8][7];
    assert p[|p| - 4..] == [0, 0, 0, 0];
  }

  /** A frame alone: the table right behind the header, the frame at byte thirty. */
  lemma SingleLayout(frame: seq<byte>, sequence: nat)
    requires FrameOk(frame)
    ensures
      var b := Single(frame, sequence);
      && |b| == 30 + |frame| && b[30..] == frame
      && b[..4] == Ascii("NCMH") && Pair(b, 4) == 12 && Pair(b, 6) == sequence % 65536 && Pair(b, 8) == |b|
      && Pair(b, 10) == 12 && b[12..16] == Ascii("NCM0") && Pair(b, 16) == 16 && Pair(b, 18) == 0
      && Pair(b, 20) == 30 && Pair(b, 22) == |frame| && b[24..30] == [0, 0, 0, 0, 0, 0]
  {
    var b := Single(frame, sequence);
    assert Ascii("NCMH") == NCMH && Ascii("NCM0") == NCM0;
    HeaderWords(b, |b|, 12, sequence);
    assert b[12..20] == NCM0 + Le16(16) + Zeros(2);
    assert b[20..30] == Le16(30) + Le16(|frame|) + Zeros(6);
  }
}
