/**
 The descriptor of a packaged EL1 payload: its limits, its 256-byte encoding under a checksum of its own,
 and the payload bytes it vouches for.
 */
module Payload {
  import opened Types
  import opened L = Loader
  import opened LoaderCodec
  import Crc

  const CONFIG_OFFSET := 4096
  const CONFIG_SIZE := 256
  const CRC_OFFSET := 132
  const MAX_PACKAGE_SIZE := 0x400_0000
  const MAX_RUNTIME_SIZE := 0x400_0000
  const TAG: seq<byte> := [83, 86, 82, 65, 87, 48, 48, 49]

  datatype Error = Truncated | Header | Checksum | PackageRange | RuntimeRange | Entry

  datatype Config = Config(
    packageSize: nat, bootstrapSize: nat, offset: nat, fileSize: nat, runtimeSize: nat, entryOffset: nat,
    registers: seq<nat>, preserve: bool, uart: bool, control: bool, net: bool, upload: bool, crc32: nat)
  {
    function Sizes(): seq<nat> { [packageSize, bootstrapSize, offset, fileSize, runtimeSize, entryOffset] }

    predicate Fits() {
      && (forall i: nat :: i < 6 ==> Sizes()[i] < U64_LIMIT)
      && |registers| == 8 && (forall i: nat :: i < 8 ==> registers[i] < U64_LIMIT) && crc32 < 0x1_0000_0000
    }

    /** What is wrong with the descriptor, if anything. */
    function Fault(): Option<Error> {
      if bootstrapSize < CONFIG_OFFSET + CONFIG_SIZE || bootstrapSize % 16 != 0 || offset < bootstrapSize
         || offset % 16 != 0 || offset + fileSize != packageSize || packageSize > MAX_PACKAGE_SIZE
      then Some(PackageRange)
      else if fileSize == 0 || runtimeSize < fileSize || runtimeSize > MAX_RUNTIME_SIZE then Some(RuntimeRange)
      else if entryOffset % 4 != 0 || entryOffset + 4 > fileSize then Some(Entry)
      else if preserve && exists i: nat :: i < |registers| && registers[i] != 0 then Some(Error.Header)
      else if upload && !(uart || control || net) then Some(Error.Header)
      else None
    }

    function Flags(): (f: nat)
      ensures f < 32
    {
      Bit(preserve, 1) + Bit(uart, 2) + Bit(control, 4) + Bit(upload, 8) + Bit(net, 16)
    }
  }

  function Bit(b: bool, weight: nat): nat { if b then weight else 0 }

  // ---- The encoding -----------------------------------------------------------------------------------

  /** The checksum of a descriptor, its own four bytes taken as zero. */
  function ConfigCrc(b: seq<byte>): nat
    requires |b| == CONFIG_SIZE
  {
    ChecksumOf(Covered(b))
  }

  /** The bytes that checksum covers. */
  function Covered(b: seq<byte>): seq<byte>
    requires |b| == CONFIG_SIZE
  {
    b[..CRC_OFFSET] + [0, 0, 0, 0] + b[CRC_OFFSET + 4..]
  }

  function Head(p: Config): (b: seq<byte>)
    requires |p.registers| == 8
    ensures |b| == CRC_OFFSET
  {
    (TAG + Le32(1) + Le32(p.Flags())) + Le64s(p.Sizes()) + Le64s(p.registers) + Le32(p.crc32)
  }

  function Sealed(head: seq<byte>, crc: nat): (b: seq<byte>)
    requires |head| == CRC_OFFSET
    ensures |b| == CONFIG_SIZE
  {
    head + Le32(crc) + Zeros(CONFIG_SIZE - CRC_OFFSET - 4)
  }

  function Bytes(p: Config): (b: seq<byte>)
    requires |p.registers| == 8
    ensures |b| == CONFIG_SIZE
  {
    Sealed(Head(p), ConfigCrc(Sealed(Head(p), 0)))
  }

  function Encode(p: Config): Result<seq<byte>, Error>
    requires p.Fits()
  {
    if p.Fault().Some? then Err(p.Fault().value) else Ok(Bytes(p))
  }

  predicate Has(flags: nat, weight: nat)
    requires weight > 0
  {
    flags / weight % 2 == 1
  }

  function Words(b: seq<byte>, at: nat, n: nat): (w: seq<nat>)
    requires at + 8 * n <= |b|
    ensures |w| == n && forall i: nat :: i < n ==> w[i] < U64_LIMIT
  {
    seq(n, i requires 0 <= i < n => U64(b, at + 8 * i))
  }

  /** The fields of a descriptor, whatever they are. */
  function Fields(b: seq<byte>): (p: Config)
    requires |b| == CONFIG_SIZE
    ensures p.Fits()
  {
    var s, f := Words(b, 16, 6), U32(b, 12);
    Config(s[0], s[1], s[2], s[3], s[4], s[5], Words(b, 64, 8),
           Has(f, 1), Has(f, 2), Has(f, 4), Has(f, 16), Has(f, 8), U32(b, 128))
  }

  /** An all-zero descriptor stands for no payload. */
  function Decode(b: seq<byte>): Result<Option<Config>, Error> {
    if |b| != CONFIG_SIZE then Err(Error.Truncated)
    else if b == Zeros(CONFIG_SIZE) then Ok(None)
    else if b[..8] != TAG || U32(b, 8) != 1 || U32(b, 12) >= 32 then Err(Error.Header)
    else if ConfigCrc(b) != U32(b, CRC_OFFSET) then Err(Error.Checksum)
    else
      var p := Fields(b);
      if p.Fault().Some? then Err(p.Fault().value)
      else if Bytes(p) != b then Err(Error.Header)
      else Ok(Some(p))
  }

  /** The payload inside a package, when the package is the one described. */
  function Source(p: Config, package: seq<byte>): (r: Result<seq<byte>, Error>)
    ensures r.Ok? ==> |package| == p.offset + p.fileSize && r.value == package[p.offset..]
  {
    if p.Fault().Some? then Err(p.Fault().value)
    else if |package| != p.packageSize then Err(PackageRange)
    else if ChecksumOf(package[p.offset..]) != p.crc32 then Err(Error.Checksum)
    else Ok(package[p.offset..])
  }

  // ---- Round trips ----------------------------------------------------------------------------------------

  lemma FlagsRead(p: Config)
    ensures var f := p.Flags();
      && Has(f, 1) == p.preserve && Has(f, 2) == p.uart && Has(f, 4) == p.control && Has(f, 8) == p.upload
      && Has(f, 16) == p.net
  {
  }

  lemma PartOf<T>(b: seq<T>, at: nat, m: nat, part: seq<T>, from: nat, k: nat, word: seq<T>)
    requires at + m <= |b| && part == b[at..at + m] && from + |word| <= m && k == at + from
    requires part[from..from + |word|] == word
    ensures b[k..k + |word|] == word
  {
    forall j: nat | j < |word| ensures b[k..k + |word|][j] == word[j] {
      assert word[j] == part[from..from + |word|][j] == part[from + j] == b[at + (from + j)];
    }
  }

  lemma {:induction false} WordSlice(b: seq<byte>, at: nat, vs: seq<nat>, i: nat, k: nat)
    requires i < |vs| && at + 8 * |vs| <= |b| && b[at..at + 8 * |vs|] == Le64s(vs) && k == at + 8 * i
    ensures b[k..k + 8] == Le64(vs[i])
  {
    assert Le64s(vs)[8 * i..8 * i + 8] == Le64(vs[i]) by { Le64sAt(vs, i); }
    PartOf(b, at, 8 * |vs|, Le64s(vs), 8 * i, k, Le64(vs[i]));
  }

  lemma WordIs(b: seq<byte>, at: nat, n: nat, i: nat, k: nat)
    requires at + 8 * n <= |b| && i < n && k == at + 8 * i
    ensures Words(b, at, n)[i] == U64(b, k)
  {
  }

  lemma {:induction false} WordRead(b: seq<byte>, at: nat, vs: seq<nat>, i: nat)
    requires i < |vs| && vs[i] < U64_LIMIT && at + 8 * |vs| <= |b| && b[at..at + 8 * |vs|] == Le64s(vs)
    ensures Words(b, at, |vs|)[i] == vs[i]
  {
    var k := at + 8 * i;
    WordIs(b, at, |vs|, i, k);
    WordSlice(b, at, vs, i, k);
    Reads64(b, k, vs[i]);
  }

  lemma {:induction false} WordsRead(b: seq<byte>, at: nat, vs: seq<nat>)
    requires at + 8 * |vs| <= |b| && b[at..at + 8 * |vs|] == Le64s(vs)
    requires forall i: nat :: i < |vs| ==> vs[i] < U64_LIMIT
    ensures Words(b, at, |vs|) == vs
  {
    forall i: nat | i < |vs| ensures Words(b, at, |vs|)[i] == vs[i] { WordRead(b, at, vs, i); }
  }

  lemma {:induction false} HeadParts(p: Config, b: seq<byte>)
    requires |p.registers| == 8 && |b| == CONFIG_SIZE && b[..CRC_OFFSET] == Head(p)
    ensures b[..8] == TAG && b[8..12] == Le32(1) && b[12..16] == Le32(p.Flags())
    ensures b[16..64] == Le64s(p.Sizes()) && b[64..128] == Le64s(p.registers) && b[128..132] == Le32(p.crc32)
  {
    var h := Head(p);
    assert h[..8] == TAG && h[8..12] == Le32(1) && h[12..16] == Le32(p.Flags());
    assert h[16..64] == Le64s(p.Sizes()) && h[64..128] == Le64s(p.registers) && h[128..132] == Le32(p.crc32);
    assert b[..8] == h[..8] && b[8..12] == h[8..12] && b[12..16] == h[12..16];
    assert b[16..64] == h[16..64] && b[64..128] == h[64..128] && b[128..132] == h[128..132];
  }

  lemma SealedParts(head: seq<byte>, crc: nat)
    requires |head| == CRC_OFFSET && crc < 0x1_0000_0000
    ensures Sealed(head, crc)[..CRC_OFFSET] == head && U32(Sealed(head, crc), CRC_OFFSET) == crc
    ensures ConfigCrc(Sealed(head, crc)) == ConfigCrc(Sealed(head, 0))
  {
    var b, z := Sealed(head, crc), Sealed(head, 0);
    assert b[..CRC_OFFSET] == head && z[..CRC_OFFSET] == head;
    assert b[CRC_OFFSET + 4..] == Zeros(CONFIG_SIZE - CRC_OFFSET - 4) == z[CRC_OFFSET + 4..];
    assert b[CRC_OFFSET..CRC_OFFSET + 4] == Le32(crc);
    Reads32(b, CRC_OFFSET, crc);
  }

  lemma FieldsRead(p: Config, b: seq<byte>)
    requires p.Fits() && |b| == CONFIG_SIZE && b[..CRC_OFFSET] == Head(p)
    ensures Fields(b) == p && b[..8] == TAG && U32(b, 8) == 1 && U32(b, 12) == p.Flags()
  {
    HeadParts(p, b);
    Reads32(b, 8, 1);
    Reads32(b, 12, p.Flags());
    Reads32(b, 128, p.crc32);
    WordsRead(b, 16, p.Sizes());
    WordsRead(b, 64, p.registers);
    FlagsRead(p);
  }

  /** Every descriptor that may be encoded is read back as it was. */
  lemma RoundTrip(p: Config)
    requires p.Fits() && p.Fault().None?
    ensures Encode(p).Ok? && Decode(Encode(p).value) == Ok(Some(p))
  {
    var b, crc := Bytes(p), ConfigCrc(Sealed(Head(p), 0));
    SealedParts(Head(p), crc);
    FieldsRead(p, b);
    assert b[..8][0] == 83 && Zeros(CONFIG_SIZE)[0] == 0;
  }

  /** Only an encoded descriptor is read as one. */
  lemma ReadIsEncoded(b: seq<byte>, p: Config)
    ensures Decode(b) == Ok(Some(p)) <==> p.Fits() && Encode(p) == Ok(b)
  {
    if p.Fits() && Encode(p) == Ok(b) { RoundTrip(p); }
  }

  // ---- Damage ------------------------------------------------------------------------------------------------

  lemma OneByteChecked(b: seq<byte>, i: nat, x: byte)
    requires i < |b| && b[i] != x
    ensures ChecksumOf(b[i := x]) != ChecksumOf(b)
  {
    Crc.OctetSeparates(b[i], x);
    assert Octets(b[i := x]) == Octets(b)[i := x as bv8];
    Crc.OneByteDetected(Octets(b), i, x as bv8);
    Crc.NumberSeparates(Crc.Crc32(Octets(b[i := x])), Crc.Crc32(Octets(b)), ChecksumOf(b[i := x]), ChecksumOf(b));
  }

  lemma CoveredDamage(b: seq<byte>, i: nat, x: byte)
    requires |b| == CONFIG_SIZE && i < CONFIG_SIZE && b[i] != x
    ensures Covered(b[i := x]) == if CRC_OFFSET <= i < CRC_OFFSET + 4 then Covered(b) else Covered(b)[i := x]
    ensures !(CRC_OFFSET <= i < CRC_OFFSET + 4) ==> Covered(b)[i] == b[i]
  {
  }

  lemma FieldDamage(b: seq<byte>, i: nat, x: byte)
    requires |b| == CONFIG_SIZE && i < CONFIG_SIZE && b[i] != x
    ensures U32(b[i := x], CRC_OFFSET) == U32(b, CRC_OFFSET) <==> !(CRC_OFFSET <= i < CRC_OFFSET + 4)
  {
  }

  /** One changed byte breaks the seal, wherever it is. */
  lemma SealBroken(b: seq<byte>, i: nat, x: byte)
    requires |b| == CONFIG_SIZE && i < CONFIG_SIZE && b[i] != x && ConfigCrc(b) == U32(b, CRC_OFFSET)
    ensures ConfigCrc(b[i := x]) != U32(b[i := x], CRC_OFFSET)
  {
    FieldDamage(b, i, x);
    CoveredDamage(b, i, x);
    if !(CRC_OFFSET <= i < CRC_OFFSET + 4) { OneByteChecked(Covered(b), i, x); }
  }

  lemma BrokenRefused(b: seq<byte>)
    requires |b| == CONFIG_SIZE && ConfigCrc(b) != U32(b, CRC_OFFSET) && b != Zeros(CONFIG_SIZE)
    ensures Decode(b).Err?
  {
  }

  lemma TagShows(b: seq<byte>, i: nat, x: byte)
    requires |b| == CONFIG_SIZE && b[..8] == TAG && i < CONFIG_SIZE
    ensures b[i := x] != Zeros(CONFIG_SIZE)
  {
    assert b[0] == b[..8][0] == 83 && b[1] == b[..8][1] == 86;
    var k := if i == 0 then 1 else 0;
    assert b[i := x][k] != Zeros(CONFIG_SIZE)[k];
  }

  /** A descriptor with any one byte changed is refused. */
  lemma DamageRefused(p: Config, i: nat, x: byte)
    requires p.Fits() && p.Fault().None? && i < CONFIG_SIZE && Bytes(p)[i] != x
    ensures Decode(Bytes(p)[i := x]).Err?
  {
    var b := Bytes(p);
    SealedParts(Head(p), ConfigCrc(Sealed(Head(p), 0)));
    HeadParts(p, b);
    SealBroken(b, i, x);
    TagShows(b, i, x);
    BrokenRefused(b[i := x]);
  }

  /** A package with one byte changed is refused if the byte is the payload's, and serves as before if not. */
  lemma PackageDamage(p: Config, package: seq<byte>, i: nat, x: byte)
    requires Source(p, package).Ok? && i < |package| && package[i] != x
    ensures Source(p, package[i := x]) == if i < p.offset then Source(p, package) else Err(Error.Checksum)
  {
    var d := package[i := x];
    if i < p.offset {
      assert d[p.offset..] == package[p.offset..];
    } else {
      assert d[p.offset..] == package[p.offset..][i - p.offset := x];
      OneByteChecked(package[p.offset..], i - p.offset, x);
    }
  }

  // ---- Filling the buffer ---------------------------------------------------------------------------------------

  ghost predicate Filled(b: seq<byte>, done: seq<byte>) {
    |b| == CONFIG_SIZE && |done| <= CONFIG_SIZE && b == done + Zeros(CONFIG_SIZE - |done|)
  }

  lemma FillMore(b: seq<byte>, done: seq<byte>, part: seq<byte>)
    requires Filled(b, done) && |done| + |part| <= CONFIG_SIZE
    ensures Filled(b[..|done|] + part + b[|done| + |part|..], done + part)
  {
    assert b[..|done|] == done;
    assert b[|done| + |part|..] == Zeros(CONFIG_SIZE - |done| - |part|);
  }

  method Put(a: array<byte>, at: nat, part: seq<byte>)
    requires at + |part| <= a.Length
    modifies a
    ensures a[..] == old(a[..])[..at] + part + old(a[..])[at + |part|..]
  {
    ghost var was := a[..];
    for i := 0 to |part|
      invariant a[..] == was[..at] + part[..i] + was[at + i..]
    {
      a[at + i] := part[i];
    }
  }

  method Extend(a: array<byte>, ghost done: seq<byte>, at: nat, part: seq<byte>)
    requires a.Length == CONFIG_SIZE && Filled(a[..], done) && at == |done| && at + |part| <= CONFIG_SIZE
    modifies a
    ensures Filled(a[..], done + part)
  {
    FillMore(a[..], done, part);
    Put(a, at, part);
  }

  method ExtendWords(a: array<byte>, ghost done: seq<byte>, at: nat, values: seq<nat>)
    requires a.Length == CONFIG_SIZE && Filled(a[..], done) && at == |done| && at + 8 * |values| <= CONFIG_SIZE
    modifies a
    ensures Filled(a[..], done + Le64s(values))
  {
    assert done + Le64s([]) == done;
    for i := 0 to |values|
      invariant Filled(a[..], done + Le64s(values[..i]))
    {
      Extend(a, done + Le64s(values[..i]), at + 8 * i, Le64(values[i]));
      NextWord(done, values, i);
    }
    assert values[..|values|] == values;
  }

  lemma NextWord(done: seq<byte>, values: seq<nat>, i: nat)
    requires i < |values|
    ensures (done + Le64s(values[..i])) + Le64(values[i]) == done + Le64s(values[..i + 1])
  {
    assert values[..i + 1][..i] == values[..i];
  }

  method Write(p: Config) returns (r: Result<array<byte>, Error>)
    requires p.Fits()
    ensures r.Err? ==> Encode(p) == Err(r.error)
    ensures r.Ok? ==> fresh(r.value) && Encode(p) == Ok(r.value[..])
  {
    if p.Fault().Some? { return Err(p.Fault().value); }
    var a := new byte[CONFIG_SIZE](_ => 0);
    assert Filled(a[..], []);
    ghost var start := TAG + Le32(1) + Le32(p.Flags());
    Extend(a, [], 0, TAG + Le32(1) + Le32(p.Flags()));
    assert [] + start == start;
    ExtendWords(a, start, 16, p.Sizes());
    ghost var sized := start + Le64s(p.Sizes());
    ExtendWords(a, sized, 64, p.registers);
    ghost var named := sized + Le64s(p.registers);
    Extend(a, named, 128, Le32(p.crc32));
    assert named + Le32(p.crc32) == Head(p);
    SealStarts(a[..], Head(p));
    var crc := ConfigCrc(a[..]);
    Extend(a, Head(p), CRC_OFFSET, Le32(crc));
    r := Ok(a);
  }

  lemma SealStarts(b: seq<byte>, head: seq<byte>)
    requires |head| == CRC_OFFSET && Filled(b, head)
    ensures b == Sealed(head, 0)
  {
    assert Le32(0) == [0, 0, 0, 0];
  }
}
