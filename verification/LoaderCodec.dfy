/** The wire codec of the loader accepts exactly what it encodes, headers and descriptors alike. */
module LoaderCodec {
  import opened Types
  import opened Loader

  lemma Reads16(b: seq<byte>, at: nat, v: nat)
    requires at + 2 <= |b| && v < 65536
    ensures b[at..at + 2] == Le16(v) <==> U16(b, at) == v
  {
    var part := b[at..at + 2];
    assert part[0] == b[at] && part[1] == b[at + 1];
    var lo, hi := b[at] as nat, b[at + 1] as nat;
    if U16(b, at) == v {
      assert v % 256 == lo && v / 256 == hi;
      assert part == [lo as byte, hi as byte];
    }
  }

  lemma Halves32(lo: nat, hi: nat, v: nat)
    requires lo < 65536 && v < 0x1_0000_0000
    ensures lo + 65536 * hi == v <==> lo == v % 65536 && hi == v / 65536
    ensures v / 65536 % 65536 == v / 65536
  {
  }

  lemma Halves64(lo: nat, hi: nat, v: nat)
    requires lo < 0x1_0000_0000 && v < U64_LIMIT
    ensures lo + 0x1_0000_0000 * hi == v <==> lo == v % 0x1_0000_0000 && hi == v / 0x1_0000_0000
    ensures v / 0x1_0000_0000 % 0x1_0000_0000 == v / 0x1_0000_0000
  {
  }

  lemma SplitIs(s: seq<byte>, n: nat, x: seq<byte>, y: seq<byte>)
    requires n == |x| && |s| == |x| + |y|
    ensures s == x + y <==> s[..n] == x && s[n..] == y
  {
    assert s == s[..n] + s[n..];
  }

  lemma Joined(b: seq<byte>, at: nat, n: nat, x: seq<byte>, y: seq<byte>)
    requires at + 2 * n <= |b| && |x| == n && |y| == n
    ensures b[at..at + 2 * n] == x + y <==> b[at..at + n] == x && b[at + n..at + 2 * n] == y
  {
    var s := b[at..at + 2 * n];
    assert s[..n] == b[at..at + n] && s[n..] == b[at + n..at + 2 * n];
    SplitIs(s, n, x, y);
  }

  lemma Reads32(b: seq<byte>, at: nat, v: nat)
    requires at + 4 <= |b| && v < 0x1_0000_0000
    ensures b[at..at + 4] == Le32(v) <==> U32(b, at) == v
  {
    var lo, hi := v % 65536, v / 65536;
    Joined(b, at, 2, Le16(lo), Le16(hi));
    Halves32(U16(b, at), U16(b, at + 2), v);
    Reads16(b, at, lo);
    Reads16(b, at + 2, hi);
  }

  lemma Reads64(b: seq<byte>, at: nat, v: nat)
    requires at + 8 <= |b| && v < U64_LIMIT
    ensures b[at..at + 8] == Le64(v) <==> U64(b, at) == v
  {
    var lo, hi := v % 0x1_0000_0000, v / 0x1_0000_0000;
    Joined(b, at, 4, Le32(lo), Le32(hi));
    Halves64(U32(b, at), U32(b, at + 4), v);
    Reads32(b, at, lo);
    Reads32(b, at + 4, hi);
  }

  // ---- Headers ------------------------------------------------------------------------------

  lemma HeaderParts(h: Header, body: seq<byte>)
    ensures
      var b := EncodeHeader(h) + body;
      && b[..4] == MAGIC && b[4..6] == Le16(VERSION) && b[6..8] == Le16(h.opcode) && b[8..12] == Le32(h.requestId)
      && b[12..16] == Le32(h.length) && b[16..24] == Le64(h.arg0) && b[24..32] == Le64(h.arg1)
      && b[HEADER_SIZE..] == body
  {
  }

  lemma HeaderRoundTrip(h: Header, body: seq<byte>)
    requires h.Fits() && h.length == |body| <= MAX_BODY_SIZE
    ensures DecodeHeader(EncodeHeader(h) + body) == Ok(h)
    ensures (EncodeHeader(h) + body)[HEADER_SIZE..] == body
  {
    var b := EncodeHeader(h) + body;
    HeaderParts(h, body);
    Reads16(b, 4, VERSION);
    Reads16(b, 6, h.opcode);
    Reads32(b, 8, h.requestId);
    Reads32(b, 12, h.length);
    Reads64(b, 16, h.arg0);
    Reads64(b, 24, h.arg1);
  }

  lemma HeaderPieces(b: seq<byte>)
    requires |b| >= HEADER_SIZE
    ensures b == b[..4] + b[4..6] + b[6..8] + b[8..12] + b[12..16] + b[16..24] + b[24..32] + b[32..]
  {
  }

  /** No message is accepted except an encoded header followed by the body length it announces. */
  lemma HeaderIsEncoded(b: seq<byte>)
    requires DecodeHeader(b).Ok?
    ensures b == EncodeHeader(DecodeHeader(b).value) + b[HEADER_SIZE..]
  {
    var h := DecodeHeader(b).value;
    Reads16(b, 4, VERSION);
    Reads16(b, 6, h.opcode);
    Reads32(b, 8, h.requestId);
    Reads32(b, 12, h.length);
    Reads64(b, 16, h.arg0);
    Reads64(b, 24, h.arg1);
    HeaderPieces(b);
  }

  // ---- Descriptors -----------------------------------------------------------------------------

  lemma ImageRoundTrip(d: ImageDescriptor)
    requires d.Fits()
    ensures DecodeImage(EncodeImage(d)) == if d.Valid() then Some(d) else None
  {
    var b := EncodeImage(d);
    assert b[0..8] == Le64(d.address) && b[8..16] == Le64(d.fileSize) && b[16..24] == Le64(d.runtimeSize)
        && b[24..28] == Le32(d.crc32) && b[28..32] == Le32(d.flags);
    Reads64(b, 0, d.address);
    Reads64(b, 8, d.fileSize);
    Reads64(b, 16, d.runtimeSize);
    Reads32(b, 24, d.crc32);
    Reads32(b, 28, d.flags);
  }

  lemma {:induction false} Le64sAt(vs: seq<nat>, i: nat)
    requires i < |vs|
    ensures Le64s(vs)[8 * i..8 * i + 8] == Le64(vs[i])
  {
    if i < |vs| - 1 {
      Le64sAt(vs[..|vs| - 1], i);
      assert Le64s(vs)[8 * i..8 * i + 8] == Le64s(vs[..|vs| - 1])[8 * i..8 * i + 8];
    }
  }

  lemma RegisterReads(d: BundleDescriptor, i: nat)
    requires d.Fits() && i < 8
    ensures U64(EncodeBundle(d), 16 + 8 * i) == d.registers[i]
  {
    var b, head, tail := EncodeBundle(d), Le64(d.entry) + Le32(d.imageCount) + Le32(d.flags), Le64s(d.registers);
    assert b == head + tail;
    Le64sAt(d.registers, i);
    assert b[16 + 8 * i..24 + 8 * i] == tail[8 * i..8 * i + 8];
    Reads64(b, 16 + 8 * i, d.registers[i]);
  }

  lemma BundleHeadReads(d: BundleDescriptor)
    requires d.Fits()
    ensures
      var b := EncodeBundle(d);
      U64(b, 0) == d.entry && U32(b, 8) == d.imageCount && U32(b, 12) == d.flags
  {
    var b := EncodeBundle(d);
    assert b[0..8] == Le64(d.entry) && b[8..12] == Le32(d.imageCount) && b[12..16] == Le32(d.flags);
    Reads64(b, 0, d.entry);
    Reads32(b, 8, d.imageCount);
    Reads32(b, 12, d.flags);
  }

  lemma BundleRoundTrip(d: BundleDescriptor)
    requires d.Fits()
    ensures DecodeBundle(EncodeBundle(d)) == if d.Valid() then Some(d) else None
  {
    var b := EncodeBundle(d);
    BundleHeadReads(d);
    forall i: nat | i < 8 ensures U64(b, 16 + 8 * i) == d.registers[i] { RegisterReads(d, i); }
    var read := seq(8, i requires 0 <= i < 8 => U64(b, 16 + 8 * i));
    assert |read| == |d.registers| && forall i: nat :: i < 8 ==> read[i] == d.registers[i];
    assert read == d.registers;
  }
}
