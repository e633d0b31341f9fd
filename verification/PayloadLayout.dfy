/** The limits of a payload descriptor and where its fields lie, in numbers. */
module PayloadLayout {
  import opened Types
  import opened Payload
  import opened LoaderCodec
  import L = Loader

  // ---- Limits ---------------------------------------------------------------------------------

  /** The bootstrap and its descriptor come first, then the payload, up to the end of at most 64 MiB. */
  predicate Ranged(p: Config) {
    && 4352 <= p.bootstrapSize <= p.offset && p.bootstrapSize % 16 == 0 && p.offset % 16 == 0
    && p.offset + p.fileSize == p.packageSize <= 0x400_0000
  }

  predicate Runnable(p: Config) { 0 < p.fileSize <= p.runtimeSize <= 0x400_0000 }

  /** The entry is a whole aligned word of the file. */
  predicate Entered(p: Config) { p.entryOffset % 4 == 0 && p.entryOffset + 3 < p.fileSize }

  /** Boot arguments are either kept or given, and an upload needs some USB function to come through. */
  predicate Consistent(p: Config)
    requires |p.registers| == 8
  {
    && (p.preserve ==> p.registers == [0, 0, 0, 0, 0, 0, 0, 0])
    && (p.upload ==> p.uart || p.control || p.net)
  }

  /** A descriptor is valid when all four hold, and is refused for the first that does not. */
  lemma FaultExact(p: Config)
    requires |p.registers| == 8
    ensures
      p.Fault()
      == if !Ranged(p) then Some(PackageRange)
         else if !Runnable(p) then Some(RuntimeRange)
         else if !Entered(p) then Some(Entry)
         else if !Consistent(p) then Some(Error.Header) else None
  {
    var r := p.registers;
    assert r == [r[0], r[1], r[2], r[3], r[4], r[5], r[6], r[7]];
    assert (exists i: nat :: i < 8 && r[i] != 0) <==> r != [0, 0, 0, 0, 0, 0, 0, 0];
  }

  /** A package serves exactly if it is the one described, and then its payload is what follows the offset. */
  lemma SourceExact(p: Config, package: seq<byte>)
    requires |p.registers| == 8
    ensures
      Source(p, package).Ok? <==>
        && Ranged(p) && Runnable(p) && Entered(p) && Consistent(p) && |package| == p.packageSize
        && L.ChecksumOf(package[p.offset..]) == p.crc32
    ensures Source(p, package).Ok? ==> Source(p, package).value == package[p.offset..p.offset + p.fileSize]
  {
    FaultExact(p);
  }

  // ---- Layout ------------------------------------------------------------------------------------

  lemma SizeRead(p: Config, b: seq<byte>, i: nat)
    requires p.Fits() && |b| == 256 && b[16..64] == L.Le64s(p.Sizes()) && i < 6
    ensures L.U64(b, 16 + 8 * i) == p.Sizes()[i]
  {
    WordRead(b, 16, p.Sizes(), i);
    Payload.WordIs(b, 16, 6, i, 16 + 8 * i);
  }

  /** Where an encoded descriptor keeps its fields: the flags in one word, sizes and registers in eight bytes each. */
  lemma LayoutExact(p: Config, i: nat)
    requires p.Fits() && p.Fault().None? && i < 8
    ensures
      var b := Encode(p).value;
      && Encode(p).Ok? && |b| == 256 && b[..8] == Ascii("SVRAW001") && L.U32(b, 8) == 1
      && L.U32(b, 12) == (if p.preserve then 1 else 0) + (if p.uart then 2 else 0) + (if p.control then 4 else 0)
                         + (if p.upload then 8 else 0) + (if p.net then 16 else 0)
      && L.U64(b, 16) == p.packageSize && L.U64(b, 24) == p.bootstrapSize && L.U64(b, 32) == p.offset
      && L.U64(b, 40) == p.fileSize && L.U64(b, 48) == p.runtimeSize && L.U64(b, 56) == p.entryOffset
      && L.U64(b, 64 + 8 * i) == p.registers[i] && L.U32(b, 128) == p.crc32
      && b[136..] == Zeros(120)
  {
    var b, crc := Payload.Bytes(p), ConfigCrc(Sealed(Head(p), 0));
    SealedParts(Head(p), crc);
    FieldsRead(p, b);
    HeadParts(p, b);
    assert TAG == Ascii("SVRAW001");
    SizesRead(p, b);
    WordRead(b, 64, p.registers, i);
    Payload.WordIs(b, 64, 8, i, 64 + 8 * i);
    Reads32(b, 128, p.crc32);
    assert b[136..] == Zeros(120);
  }

  lemma SizesRead(p: Config, b: seq<byte>)
    requires p.Fits() && |b| == 256 && b[16..64] == L.Le64s(p.Sizes())
    ensures L.U64(b, 16) == p.packageSize && L.U64(b, 24) == p.bootstrapSize && L.U64(b, 32) == p.offset
    ensures L.U64(b, 40) == p.fileSize && L.U64(b, 48) == p.runtimeSize && L.U64(b, 56) == p.entryOffset
  {
    SizeRead(p, b, 0);
    SizeRead(p, b, 1);
    SizeRead(p, b, 2);
    SizeRead(p, b, 3);
    SizeRead(p, b, 4);
    SizeRead(p, b, 5);
  }

  /** The seal at byte 132 is the checksum of the descriptor with those four bytes zero. */
  lemma SealExact(b: seq<byte>)
    requires Decode(b).Ok? && Decode(b).value.Some?
    ensures |b| == 256 && L.U32(b, 132) == L.ChecksumOf(b[132 := 0][133 := 0][134 := 0][135 := 0])
  {
    assert Covered(b) == b[132 := 0][133 := 0][134 := 0][135 := 0];
  }

  /** What is refused as no descriptor at all, before its seal is looked at. */
  lemma HeaderExact(b: seq<byte>)
    requires |b| == 256 && exists i: nat :: i < 256 && b[i] != 0
    ensures
      b[..8] != Ascii("SVRAW001") || L.U32(b, 8) != 1 || L.U32(b, 12) > 31 ==> Decode(b) == Err(Error.Header)
    ensures
      b[..8] == Ascii("SVRAW001") && L.U32(b, 8) == 1 && L.U32(b, 12) <= 31
      && L.U32(b, 132) != L.ChecksumOf(b[132 := 0][133 := 0][134 := 0][135 := 0])
      ==> Decode(b) == Err(Error.Checksum)
  {
    assert TAG == Ascii("SVRAW001");
    var i: nat :| i < 256 && b[i] != 0;
    assert Zeros(256)[i] == 0;
    assert Covered(b) == b[132 := 0][133 := 0][134 := 0][135 := 0];
  }

  /** No descriptor at all stands for no payload, and nothing of another length is read. */
  lemma BlankExact(b: seq<byte>)
    ensures Decode(b) == Ok(None) <==> |b| == 256 && forall i: nat :: i < 256 ==> b[i] == 0
    ensures Decode(b) == Err(Error.Truncated) <==> |b| != 256
  {
    if |b| == 256 && forall i: nat :: i < 256 ==> b[i] == 0 { assert b == Zeros(256); }
    if |b| == 256 && b != Zeros(256) && b[..8] == TAG { FaultNotTruncated(Fields(b)); }
  }

  lemma FaultNotTruncated(p: Config)
    ensures p.Fault() != Some(Error.Truncated)
  {
  }
}
