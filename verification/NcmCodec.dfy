/** The NTB16 decoder and encoders as they run: bounded tables, cursors and an output buffer. */
module NcmCodec {
  import opened Types
  import opened Ncm

  /** Append the datagrams one table lists, up to its zero entry. */
  method ReadEntries(bytes: seq<byte>, table: Datagram, datagrams: array<Datagram>, start: nat)
    returns (r: Result<nat, Error>)
    requires datagrams.Length == MAX_DATAGRAMS && start <= MAX_DATAGRAMS
    requires 12 <= table.length && table.length % 4 == 0 && table.offset + table.length <= |bytes|
    modifies datagrams
    ensures match Entries(bytes, table.offset + 8, table.offset + table.length, old(datagrams[..start]))
      case Err(e) => r == Err(e)
      case Ok(ds) => r == Ok(|ds|) && |ds| <= MAX_DATAGRAMS && datagrams[..|ds|] == ds
  {
    var count: nat := start;
    var entry, end := table.offset + 8, table.offset + table.length;
    ghost var left: nat := (table.length - 8) / 4;
    ghost var all := Entries(bytes, entry, end, datagrams[..start]);
    while entry < end
      invariant end == entry + 4 * left && count <= MAX_DATAGRAMS
      invariant Entries(bytes, entry, end, datagrams[..count]) == all
    {
      var d := EntryAt(bytes, entry);
      if d == Datagram(0, 0) {
        return Ok(count);
      }
      if !EntryOk(bytes, d) {
        return Err(Length);
      }
      if count == MAX_DATAGRAMS {
        return Err(TooMany);
      }
      if OverlapsAny(datagrams[..count], d) {
        return Err(Overlap);
      }
      datagrams[count] := d;
      count := count + 1;
      assert datagrams[..count] == datagrams[..count - 1] + [d];
      entry := entry + 4;
      left := left - 1;
    }
    return Err(Pointer);
  }

  method DecodeBlock(bytes: seq<byte>) returns (r: Result<seq<Datagram>, Error>)
    ensures r == Decode(bytes)
  {
    if !HeaderOk(bytes) {
      return Err(Header);
    }
    var datagrams := new Datagram[MAX_DATAGRAMS](_ => Datagram(0, 0));
    var tables := new Datagram[MAX_DATAGRAMS](_ => Datagram(0, 0));
    var next: nat := U16(bytes, 10);
    if next == 0 {
      return Err(Pointer);
    }
    r := FollowTables(bytes, next, tables, datagrams);
  }

  /** The tables from `first` on, linked one to the next, and then the tables against the datagrams. */
  method FollowTables(bytes: seq<byte>, first: nat, tables: array<Datagram>, datagrams: array<Datagram>)
    returns (r: Result<seq<Datagram>, Error>)
    requires tables.Length == datagrams.Length == MAX_DATAGRAMS && tables != datagrams
    modifies tables, datagrams
    ensures r == Walk(bytes, first, [], [])
  {
    var next, count, tableCount := first, 0, 0;
    ghost var whole := Walk(bytes, first, [], []);
    while next != 0
      invariant tableCount <= MAX_DATAGRAMS && count <= MAX_DATAGRAMS
      invariant Walk(bytes, next, tables[..tableCount], datagrams[..count]) == whole
      decreases MAX_DATAGRAMS - tableCount
    {
      if tableCount == MAX_DATAGRAMS {
        return Err(TooMany);
      }
      if !PointerOk(bytes, next) {
        return Err(Pointer);
      }
      if !SizeOk(bytes, next) {
        return Err(Length);
      }
      var table := Datagram(next, U16(bytes, next + 4));
      if OverlapsAny(tables[..tableCount], table) {
        return Err(Overlap);
      }
      tables[tableCount] := table;
      tableCount := tableCount + 1;
      assert tables[..tableCount] == tables[..tableCount - 1] + [table];
      var read := ReadEntries(bytes, table, datagrams, count);
      match read {
        case Err(e) => return Err(e);
        case Ok(n) => count := n;
      }
      next := U16(bytes, next + 6);
    }
    var meets := CheckTables(tables[..tableCount], datagrams, count);
    r := if meets then Err(Overlap) else Ok(datagrams[..count]);
  }

  /** Whether a datagram overlaps a table. */
  method CheckTables(tables: seq<Datagram>, datagrams: array<Datagram>, count: nat) returns (meets: bool)
    requires count <= datagrams.Length
    ensures meets == MeetsTable(tables, datagrams[..count])
  {
    for i := 0 to count
      invariant forall j: nat :: j < i ==> !OverlapsAny(tables, datagrams[..count][j])
    {
      if OverlapsAny(tables, datagrams[i]) {
        assert datagrams[..count][i] == datagrams[i];
        return true;
      }
    }
    return false;
  }

  /** Copy a slice into the buffer, between what `before` and `after` describe. */
  method Put(output: array<byte>, part: seq<byte>, at: nat,
             ghost before: seq<byte>, ghost old0: seq<byte>, ghost after: seq<byte>)
    requires output[..] == before + old0 + after && |before| == at && |old0| == |part|
    modifies output
    ensures output[..] == before + part + after
  {
    forall i | 0 <= i < |part| {
      output[at + i] := part[i];
    }
  }

  method Fill(output: array<byte>, from: nat, to: nat,
              ghost before: seq<byte>, ghost old0: seq<byte>, ghost after: seq<byte>)
    requires output[..] == before + old0 + after && |before| == from <= to && |old0| == to - from
    modifies output
    ensures output[..] == before + Zeros(to - from) + after
  {
    forall i | from <= i < to {
      output[i] := 0;
    }
  }

  /** One frame in one block; `limit` is the length of the output slice. */
  method EncodeSingle(frame: seq<byte>, sequence: nat, output: array<byte>, limit: nat)
    returns (r: Result<nat, Error>)
    requires limit <= output.Length && sequence < 65536
    modifies output
    ensures r.Ok? <==> FrameOk(frame) && FRAME_OFFSET + |frame| <= limit
    ensures r.Ok? ==> r.value == FRAME_OFFSET + |frame|
    ensures r.Ok? ==> output[..] == Single(frame, sequence) + old(output[r.value..])
    ensures r.Err? ==> r.error == Length && output[..] == old(output[..])
  {
    var length := FRAME_OFFSET + |frame|;
    if !FrameOk(frame) || limit < length {
      return Err(Length);
    }
    var header, table := HeaderBytes(length, 12, sequence), NCM0 + Le16(16);
    var entry := Le16(FRAME_OFFSET) + Le16(|frame|);
    ghost var front, tail := header + table + Zeros(2) + entry + Zeros(6), output[FRAME_OFFSET..];
    ghost var room, rest := tail[..|frame|], tail[|frame|..];
    PutFront(header, table, entry, output, tail);
    Associative(front, room, rest);
    assert tail == room + rest;
    Put(output, frame, FRAME_OFFSET, front, room, rest);
    assert front + frame == Single(frame, sequence);
    return Ok(length);
  }

  /** Zero the front of the block, then the header, the table and its one entry. */
  method PutFront(header: seq<byte>, table: seq<byte>, entry: seq<byte>, output: array<byte>, ghost tail: seq<byte>)
    requires |header| == 12 && |table| == 6 && |entry| == 4
    requires output.Length >= FRAME_OFFSET && tail == output[FRAME_OFFSET..]
    modifies output
    ensures output[..] == (header + table + Zeros(2) + entry + Zeros(6)) + tail
  {
    Fill(output, 0, FRAME_OFFSET, [], output[..FRAME_OFFSET], tail);
    Split(12, 18, tail);
    Put(output, header, 0, [], Zeros(12), Zeros(18) + tail);
    HeaderThenTable(header, tail);
    Put(output, table, 12, header, Zeros(6), Zeros(12) + tail);
    TableThenEntry(header, table, tail);
    Put(output, entry, 20, header + table + Zeros(2), Zeros(4), Zeros(6) + tail);
    Associative(header + table + Zeros(2) + entry, Zeros(6), tail);
  }

  lemma Split(n: nat, m: nat, tail: seq<byte>)
    ensures [] + Zeros(n + m) + tail == [] + Zeros(n) + (Zeros(m) + tail)
  {
    assert Zeros(n + m) == Zeros(n) + Zeros(m);
  }

  lemma HeaderThenTable(header: seq<byte>, tail: seq<byte>)
    ensures [] + header + (Zeros(18) + tail) == header + Zeros(6) + (Zeros(12) + tail)
  {
    assert Zeros(18) == Zeros(6) + Zeros(12);
  }

  lemma TableThenEntry(header: seq<byte>, table: seq<byte>, tail: seq<byte>)
    ensures header + table + (Zeros(12) + tail) == (header + table + Zeros(2)) + Zeros(4) + (Zeros(6) + tail)
  {
    assert Zeros(12) == Zeros(2) + Zeros(4) + Zeros(6);
  }

  /** Zero the gap up to `offset` and copy the frame there. */
  method Append(frame: seq<byte>, output: array<byte>, end: nat, offset: nat)
    requires 12 <= end <= offset && offset + |frame| <= output.Length
    modifies output
    ensures output[12..offset + |frame|] == old(output[12..end]) + Zeros(offset - end) + frame
    ensures forall k :: offset + |frame| <= k < output.Length ==> output[k] == old(output[k])
  {
    ghost var front, gap := output[..end], output[end..offset];
    ghost var room, rest := output[offset..offset + |frame|], output[offset + |frame|..];
    Fill(output, end, offset, front, gap, room + rest);
    Associative(front + Zeros(offset - end), room, rest);
    Put(output, frame, offset, front + Zeros(offset - end), room, rest);
    Tail12(front, Zeros(offset - end), frame, rest);
  }

  lemma Tail12(front: seq<byte>, gap: seq<byte>, frame: seq<byte>, rest: seq<byte>)
    requires |front| >= 12
    ensures var all := (front + gap) + frame + rest;
      all[12..|front| + |gap| + |frame|] == front[12..] + gap + frame
  {
  }

  /** The pointer entries of a table whose bytes were zeroed before. */
  method WritePointers(ds: array<Datagram>, count: nat, output: array<byte>, at: nat,
                       ghost front: seq<byte>, ghost rest: seq<byte>)
    requires count <= ds.Length && |front| == at && output[..] == front + Zeros(4 * count + 4) + rest
    modifies output
    ensures output[..] == front + Pointers(ds[..count]) + (Zeros(4) + rest)
  {
    assert output[..] == front + Pointers(ds[..0]) + (Zeros(4 * count + 4) + rest);
    for index := 0 to count
      invariant output[..] == front + Pointers(ds[..index]) + (Zeros(4 * (count - index) + 4) + rest)
    {
      var entry := Le16(ds[index].offset) + Le16(ds[index].length);
      ghost var before, left := front + Pointers(ds[..index]), 4 * (count - index);
      SplitZeros(before, 4, left, rest);
      Put(output, entry, at + index * 4, before, Zeros(4), Zeros(left) + rest);
      OnePointer(front, ds[..], index);
    }
  }

  lemma SplitZeros(before: seq<byte>, n: nat, m: nat, after: seq<byte>)
    ensures before + (Zeros(m + n) + after) == before + Zeros(n) + (Zeros(m) + after)
  {
    assert Zeros(m + n) == Zeros(n) + Zeros(m);
  }

  lemma {:induction false} OnePointer(front: seq<byte>, ds: seq<Datagram>, i: nat)
    requires i < |ds|
    ensures front + Pointers(ds[..i]) + (Le16(ds[i].offset) + Le16(ds[i].length)) == front + Pointers(ds[..i + 1])
  {
    assert ds[..i + 1][..i] == ds[..i];
  }

  /** The block header, and zeros from the last frame to the end of the block. */
  method WriteHead(header: seq<byte>, output: array<byte>, end: nat, length: nat,
                   ghost body: seq<byte>, ghost rest: seq<byte>)
    requires |header| == 12 && end == 12 + |body| <= length <= output.Length
    requires output[12..end] == body && output[length..] == rest
    modifies output
    ensures output[..] == header + body + Zeros(length - end) + rest
  {
    ghost var head, old0 := output[..12], output[end..length];
    assert output[..] == [] + head + (body + old0 + rest);
    Put(output, header, 0, [], head, body + old0 + rest);
    assert [] + header == header;
    Associative4(header, body, old0, rest);
    Fill(output, end, length, header + body, old0, rest);
  }

  /** The pointer table, over zeroed bytes. */
  method WriteTable(ds: array<Datagram>, count: nat, output: array<byte>, ndp: nat,
                    ghost data: seq<byte>, ghost rest: seq<byte>)
    requires count <= ds.Length && |data| == ndp && output[..] == data + Zeros(NdpSize(count)) + rest
    modifies output
    ensures output[..] == data + Ndp(ds[..count]) + rest
  {
    var size := NdpSize(count);
    assert output[..] == data + Zeros(4) + (Zeros(size - 4) + rest);
    Put(output, NCM0, ndp, data, Zeros(4), Zeros(size - 4) + rest);
    assert output[..] == (data + NCM0) + Zeros(2) + (Zeros(size - 6) + rest);
    Put(output, Le16(size), ndp + 4, data + NCM0, Zeros(2), Zeros(size - 6) + rest);
    ghost var front := data + NCM0 + Le16(size) + [0, 0];
    assert output[..] == front + Zeros(4 * count + 4) + rest;
    WritePointers(ds, count, output, ndp + 8, front, rest);
    Regroup(data, NCM0, Le16(size), [0, 0], Pointers(ds[..count]), rest);
  }

  lemma Regroup(a: seq<byte>, b: seq<byte>, c: seq<byte>, d: seq<byte>, e: seq<byte>, g: seq<byte>)
    ensures a + (b + c + d + e + [0, 0, 0, 0]) + g == (a + b + c + d) + e + (Zeros(4) + g)
  {
    assert Zeros(4) == [0, 0, 0, 0];
  }

  class Encoder {
    const datagrams: array<Datagram>
    var count: nat
    var end: nat
    ghost var frames: Frames

    /** What has been pushed lies, laid out, in the first `limit` bytes of `output`. */
    ghost predicate Valid(output: array<byte>, limit: nat)
      reads this, datagrams, output
    {
      && limit <= output.Length && datagrams.Length == MAX_DATAGRAMS
      && count == |frames| && Fits(frames, limit)
      && datagrams[..count] == Table(frames) && end == 12 + |Body(frames)|
      && (end <= output.Length ==> output[12..end] == Body(frames))
    }

    constructor (ghost output: array<byte>, ghost limit: nat)
      requires limit <= output.Length
      ensures Valid(output, limit) && frames == [] && fresh(datagrams)
    {
      datagrams := new Datagram[MAX_DATAGRAMS](_ => Datagram(0, 0));
      count, end, frames := 0, 12, [];
    }

    method Push(frame: seq<byte>, output: array<byte>, limit: nat) returns (r: Result<(), Error>)
      requires Valid(output, limit)
      modifies this, datagrams, output
      ensures Valid(output, limit)
      ensures r.Ok? <==> Fits(old(frames) + [frame], limit)
      ensures r.Ok? ==> frames == old(frames) + [frame]
      ensures r.Err? ==> frames == old(frames) && count == old(count) && end == old(end)
      ensures r.Err? ==> datagrams[..] == old(datagrams[..]) && output[..] == old(output[..])
      ensures r.Err? ==> r.error == if old(count) == MAX_DATAGRAMS then TooMany else Length
      ensures forall k :: limit <= k < output.Length ==> output[k] == old(output[k])
    {
      var plan := Place(frame, output, limit);
      if plan.Err? {
        return Err(plan.error);
      }
      Add(frame, output, limit, plan.value);
      return Ok(());
    }

    /** A frame that fits joins the batch at its place. */
    method Add(frame: seq<byte>, output: array<byte>, limit: nat, offset: nat)
      requires Valid(output, limit) && Fits(frames + [frame], limit) && count < MAX_DATAGRAMS
      requires offset == OffsetAfter(end) && offset + |frame| <= limit
      modifies this, datagrams, output
      ensures Valid(output, limit) && frames == old(frames) + [frame]
      ensures forall k :: limit <= k < output.Length ==> output[k] == old(output[k])
    {
      ghost var more := frames + [frame];
      BodyPush(frames, frame);
      Store(frame, output, offset);
      assert datagrams[..count] == Table(more);
      assert output[12..end] == Body(more);
      frames := more;
    }

    method Store(frame: seq<byte>, output: array<byte>, offset: nat)
      requires datagrams.Length == MAX_DATAGRAMS && count < MAX_DATAGRAMS
      requires 12 <= end <= offset && offset + |frame| <= output.Length
      modifies this`count, this`end, datagrams, output
      ensures count == old(count) + 1 && end == offset + |frame|
      ensures datagrams[..count] == old(datagrams[..count]) + [Datagram(offset, |frame|)]
      ensures output[12..end] == old(output[12..end]) + Zeros(offset - old(end)) + frame
      ensures forall k :: end <= k < output.Length ==> output[k] == old(output[k])
    {
      Append(frame, output, end, offset);
      datagrams[count] := Datagram(offset, |frame|);
      count := count + 1;
      end := offset + |frame|;
      assert datagrams[..count] == datagrams[..count - 1] + [datagrams[count - 1]];
    }

    /** Where the frame goes if it, and the table it makes necessary, still fit. */
    method Place(frame: seq<byte>, ghost output: array<byte>, limit: nat) returns (r: Result<nat, Error>)
      requires Valid(output, limit)
      ensures r.Ok? <==> Fits(frames + [frame], limit)
      ensures r.Ok? ==> r.value == OffsetAfter(end) && count < MAX_DATAGRAMS && r.value + |frame| <= limit
      ensures r.Ok? ==> r.value + |frame| == 12 + |Body(frames + [frame])|
      ensures r.Err? ==> r.error == if count == MAX_DATAGRAMS then TooMany else Length
    {
      FitsPush(frames, frame, limit);
      if count == MAX_DATAGRAMS {
        return Err(TooMany);
      }
      if !FrameOk(frame) {
        return Err(Length);
      }
      var offset := OffsetAfter(end);
      var ndp := AlignUp4(offset + |frame|);
      var total := ndp + 8 + (count + 2) * 4;
      if total > limit || total > NTB_SIZE {
        return Err(Length);
      }
      return Ok(offset);
    }

    method Finish(sequence: nat, output: array<byte>, limit: nat) returns (r: Result<nat, Error>)
      requires Valid(output, limit) && sequence < 65536
      modifies output
      ensures r.Ok? <==> frames != []
      ensures r.Ok? ==> r.value == Total(frames) <= limit
      ensures r.Ok? ==> output[..] == Ntb(frames, sequence) + old(output[r.value..])
      ensures r.Err? ==> r.error == Length && output[..] == old(output[..])
    {
      var ndp := AlignUp4(end);
      var size := NdpSize(count);
      var length := ndp + size;
      if count == 0 || length > limit || length > NTB_SIZE {
        return Err(Length);
      }
      assert ndp == NdpAt(frames) && length == Total(frames);
      var header := HeaderBytes(length, ndp, sequence);
      ghost var body, table, rest := Body(frames), Table(frames), output[length..];
      ghost var data := header + body + Zeros(ndp - end);
      assert Ntb(frames, sequence) == data + Ndp(table);
      WriteHead(header, output, end, length, body, rest);
      assert output[..] == data + Zeros(size) + rest;
      WriteTable(datagrams, count, output, ndp, data, rest);
      return Ok(length);
    }
  }

  lemma {:induction false} BodyPush(frames: Frames, frame: seq<byte>)
    ensures var end := 12 + |Body(frames)|;
      Body(frames + [frame]) == Body(frames) + Zeros(OffsetAfter(end) - end) + frame
    ensures Table(frames + [frame]) == Table(frames) + [Datagram(OffsetAfter(12 + |Body(frames)|), |frame|)]
  {
    assert (frames + [frame])[..|frames|] == frames;
  }

  lemma PushLayout(frames: Frames, frame: seq<byte>)
    ensures 12 + |Body(frames + [frame])| == OffsetAfter(12 + |Body(frames)|) + |frame|
    ensures Total(frames + [frame]) ==
            AlignUp4(OffsetAfter(12 + |Body(frames)|) + |frame|) + 8 + (|frames| + 2) * 4
  {
    BodyPush(frames, frame);
    LengthPush(Body(frames + [frame]), Body(frames), frame);
    var more := frames + [frame];
    assert NdpAt(more) == AlignUp4(12 + |Body(more)|);
    assert |more| == |frames| + 1;
  }

  lemma LengthPush(more: seq<byte>, body: seq<byte>, frame: seq<byte>)
    requires more == body + Zeros(OffsetAfter(12 + |body|) - (12 + |body|)) + frame
    ensures 12 + |more| == OffsetAfter(12 + |body|) + |frame|
  {
  }

  lemma FitsPush(frames: Frames, frame: seq<byte>, limit: nat)
    requires Fits(frames, limit)
    ensures var total := AlignUp4(OffsetAfter(12 + |Body(frames)|) + |frame|) + 8 + (|frames| + 2) * 4;
      Fits(frames + [frame], limit) <==>
      |frames| < MAX_DATAGRAMS && FrameOk(frame) && total <= limit && total <= NTB_SIZE
    ensures 12 + |Body(frames + [frame])| == OffsetAfter(12 + |Body(frames)|) + |frame|
  {
    PushLayout(frames, frame);
    assert (frames + [frame])[|frames|] == frame;
  }
}
