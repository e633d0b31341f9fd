/** Sending queued frames to the host in one NTB, under the host's packet filter. */
module Transmit {
  import opened Types
  import opened Ncm
  import opened NcmCodec
  import opened FrameRing
  import NcmFormat

  const HOST_MAC: seq<byte> := [0x02, 0x53, 0x56, 0, 0, 1]
  const BROADCAST: seq<byte> := [255, 255, 255, 255, 255, 255]

  /** Packet filter bits: 0 promiscuous, 1 multicast, 2 directed, 3 broadcast. */
  predicate Accepts(frame: seq<byte>, filter: nat) {
    || filter % 2 == 1
    || (|frame| >= 6 && (
        || (frame[..6] == BROADCAST && filter / 8 % 2 == 1)
        || (frame[0] % 2 == 1 && filter / 2 % 2 == 1)
        || (frame[..6] == HOST_MAC && filter / 4 % 2 == 1)))
  }

  /**
   The SET_ETHERNET_PACKET_FILTER bits, as weights: everything passes a promiscuous host; else broadcasts
   pass with broadcast or multicast, other group addresses with multicast, the host's own with directed.
   */
  lemma FilterExact(frame: seq<byte>, promiscuous: bool, multicast: bool, directed: bool, broadcast: bool, rest: nat)
    requires |frame| >= 6
    ensures
      var filter :=
        (if promiscuous then 1 else 0) + (if multicast then 2 else 0) + (if directed then 4 else 0)
        + (if broadcast then 8 else 0) + 16 * rest;
      Accepts(frame, filter) <==>
        if promiscuous then true
        else if frame[..6] == [0xff, 0xff, 0xff, 0xff, 0xff, 0xff] then broadcast || multicast
        else if frame[0] % 2 == 1 then multicast
        else directed && frame[..6] == [0x02, 0x53, 0x56, 0, 0, 1]
  {
    FilterBits(promiscuous, multicast, directed, broadcast, rest);
    assert frame[..6][0] == frame[0];
  }

  lemma FilterBits(promiscuous: bool, multicast: bool, directed: bool, broadcast: bool, rest: nat)
    ensures
      var filter :=
        (if promiscuous then 1 else 0) + (if multicast then 2 else 0) + (if directed then 4 else 0)
        + (if broadcast then 8 else 0) + 16 * rest;
      && (filter % 2 == 1 <==> promiscuous) && (filter / 2 % 2 == 1 <==> multicast)
      && (filter / 4 % 2 == 1 <==> directed) && (filter / 8 % 2 == 1 <==> broadcast)
  {
    var x8 := (if broadcast then 1 else 0) + 2 * rest;
    var x4 := (if directed then 1 else 0) + 2 * x8;
    var x2 := (if multicast then 1 else 0) + 2 * x4;
    Halved((if promiscuous then 1 else 0) + 2 * x2, x2, promiscuous);
    Halved(x2, x4, multicast);
    Halved(x4, x8, directed);
    Halved(x8, rest, broadcast);
  }

  lemma Halved(v: nat, half: nat, odd: bool)
    requires v == (if odd then 1 else 0) + 2 * half
    ensures v / 2 == half && (v % 2 == 1 <==> odd)
    ensures v / 4 == half / 2 && v / 8 == half / 4
  {
  }

  /** A runt passes only a promiscuous host. */
  lemma RuntFiltered(frame: seq<byte>, filter: nat)
    requires |frame| < 6
    ensures Accepts(frame, filter) <==> exists k: nat :: filter == 2 * k + 1
  {
    if filter % 2 == 1 { assert filter == 2 * (filter / 2) + 1; }
  }

  ghost function Accepted(fs: Frames, filter: nat): Frames {
    if fs == [] then []
    else
      var front := Accepted(fs[..|fs| - 1], filter);
      if Accepts(fs[|fs| - 1], filter) then front + [fs[|fs| - 1]] else front
  }

  /** A receiver that decodes `ntb` gets exactly the frames `fs`, in order. */
  ghost predicate Delivers(ntb: seq<byte>, fs: Frames) {
    match Decode(ntb)
    case Err(_) => false
    case Ok(ds) =>
      |ds| == |fs| && forall i: nat :: i < |fs| ==> Shows(ntb, ds[i], fs[i])
  }

  predicate Shows(ntb: seq<byte>, d: Datagram, frame: seq<byte>) {
    d.offset + d.length <= |ntb| && ntb[d.offset..d.offset + d.length] == frame
  }

  lemma BatchDelivers(fs: Frames, sequence: nat)
    requires Fits(fs, NTB_SIZE) && fs != []
    ensures Delivers(Ntb(fs, sequence), fs)
  {
    DecodeBatch(fs, sequence);
    forall i: nat | i < |fs| ensures Shows(Ntb(fs, sequence), Table(fs)[i], fs[i]) {
      DecodedFrame(fs, sequence, i);
    }
  }

  lemma SingleDelivers(frame: seq<byte>, sequence: nat)
    requires FrameOk(frame)
    ensures Delivers(Single(frame, sequence), [frame])
  {
    DecodeSingle(frame, sequence);
  }

  lemma {:induction false} AcceptedFirst(fs: Frames, filter: nat)
    requires fs != [] && Accepts(fs[0], filter)
    ensures Accepted(fs[..1], filter) == [fs[0]]
  {
    AcceptedPush(fs, 0, filter);
    assert fs[..0] == [];
  }

  lemma {:induction false} AcceptedPush(fs: Frames, k: nat, filter: nat)
    requires k < |fs|
    ensures Accepted(fs[..k + 1], filter) ==
      if Accepts(fs[k], filter) then Accepted(fs[..k], filter) + [fs[k]] else Accepted(fs[..k], filter)
  {
    assert fs[..k + 1][..k] == fs[..k];
  }

  /** What was handed to the hardware, if anything, carries exactly `fs`. */
  ghost predicate Carries(sent: Option<seq<byte>>, fs: Frames, capacity: nat) {
    match sent
    case None => fs == []
    case Some(ntb) => |ntb| <= capacity && Delivers(ntb, fs)
  }

  // ---- What one call takes and sends ---------------------------------------------------------------

  /**
   The packet filter, and what the hardware answers: its free transmit capacity (0 when there is none),
   whether the endpoint is halted, whether it takes the block, and the block's sequence number.
   */
  datatype Offer = Offer(filter: nat, linkUp: bool, capacity: nat, halted: bool, submits: bool, sequence: nat)

  datatype Sending = Sending(consumed: nat, ntb: Option<seq<byte>>)

  /** How many frames at the front the filter keeps back. */
  ghost function Skipped(fs: Frames, filter: nat): (n: nat)
    ensures n <= |fs|
  {
    if fs == [] || Accepts(fs[0], filter) then 0 else 1 + Skipped(fs[1..], filter)
  }

  /** Where a batch that has taken `k` frames ends: before the first accepted one that does not fit. */
  ghost function Filled(fs: Frames, filter: nat, capacity: nat, k: nat): (n: nat)
    requires k <= |fs|
    ensures k <= n <= |fs|
    decreases |fs| - k
  {
    if k == |fs| || (Accepts(fs[k], filter) && !Fits(Accepted(fs[..k], filter) + [fs[k]], capacity)) then k
    else Filled(fs, filter, capacity, k + 1)
  }

  ghost function Batched(fs: Frames, o: Offer): Sending {
    var n := Filled(fs, o.filter, o.capacity, 0);
    var batch := Accepted(fs[..n], o.filter);
    if batch == [] || !o.submits then Sending(0, None) else Sending(n, Some(Ntb(batch, o.sequence)))
  }

  ghost function Alone(frame: seq<byte>, o: Offer): Sending {
    if o.capacity < |frame| + FRAME_OFFSET || o.halted || !o.submits then Sending(0, None)
    else Sending(1, Some(Single(frame, o.sequence)))
  }

  ghost function Queued(fs: Frames, o: Offer): Sending {
    if |fs| == 1 then Alone(fs[0], o)
    else if fs != [] && o.capacity != 0 && !o.halted then Batched(fs, o)
    else Sending(0, None)
  }

  /** The frames taken from the front of a queue, and the block they leave in, if any. */
  ghost function Sent(fs: Frames, o: Offer): Sending {
    if !o.linkUp then Sending(0, None)
    else
      var k := Skipped(fs, o.filter);
      var t := Queued(fs[k..], o);
      Sending(k + t.consumed, t.ntb)
  }

  ghost predicate AllOk(fs: Frames) { forall i: nat :: i < |fs| ==> FrameOk(fs[i]) }

  lemma OneFits(frame: seq<byte>, capacity: nat)
    requires FrameOk(frame) && capacity >= 2048
    ensures Fits([frame], capacity)
  {
    PushLayout([], frame);
    assert [] + [frame] == [frame];
  }

  lemma {:induction false} SkippedFirst(fs: Frames, filter: nat)
    ensures
      var n := Skipped(fs, filter);
      && Accepted(fs[..n], filter) == [] && (n < |fs| ==> Accepts(fs[n], filter))
    decreases |fs|
  {
    if fs != [] && !Accepts(fs[0], filter) {
      var n := Skipped(fs[1..], filter);
      SkippedFirst(fs[1..], filter);
      AcceptedRest(fs, n, filter);
    }
  }

  /** A frame kept back at the front changes nothing of what is accepted behind it. */
  lemma {:induction false} AcceptedRest(fs: Frames, n: nat, filter: nat)
    requires n < |fs| && !Accepts(fs[0], filter)
    ensures Accepted(fs[..n + 1], filter) == Accepted(fs[1..][..n], filter)
  {
    AcceptedPush(fs, n, filter);
    if n == 0 {
      assert fs[..0] == [];
    } else {
      AcceptedRest(fs, n - 1, filter);
      AcceptedPush(fs[1..], n - 1, filter);
    }
  }

  lemma {:induction false} FilledFits(fs: Frames, filter: nat, capacity: nat, k: nat)
    requires k <= |fs| && AllOk(fs) && Fits(Accepted(fs[..k], filter), capacity)
    ensures Fits(Accepted(fs[..Filled(fs, filter, capacity, k)], filter), capacity)
    decreases |fs| - k
  {
    if k < |fs| {
      AcceptedPush(fs, k, filter);
      if Filled(fs, filter, capacity, k) != k { FilledFits(fs, filter, capacity, k + 1); }
    }
  }

  lemma {:induction false} FilledStarts(fs: Frames, filter: nat, capacity: nat)
    requires fs != [] && AllOk(fs) && Accepts(fs[0], filter) && capacity >= 2048
    ensures
      var n := Filled(fs, filter, capacity, 0);
      n > 0 && Accepted(fs[..n], filter) != []
  {
    OneFits(fs[0], capacity);
    assert fs[..0] == [] && Accepted(fs[..0], filter) + [fs[0]] == [fs[0]];
    AcceptedFirst(fs, filter);
    AcceptedGrows(fs, 1, Filled(fs, filter, capacity, 0), filter);
  }

  lemma {:induction false} AcceptedGrows(fs: Frames, k: nat, n: nat, filter: nat)
    requires k <= n <= |fs|
    ensures Accepted(fs[..k], filter) <= Accepted(fs[..n], filter)
  {
    if k < n {
      AcceptedGrows(fs, k, n - 1, filter);
      AcceptedPush(fs, n - 1, filter);
    }
  }

  /** Frames filtered out before the batch do not show in what the batch delivers. */
  lemma {:induction false} AcceptedConcat(fs: Frames, left: Frames, skipped: nat, count: nat, filter: nat)
    requires skipped + count <= |fs| && left == fs[skipped..]
    requires Accepted(fs[..skipped], filter) == []
    ensures Accepted(fs[..skipped + count], filter) == Accepted(left[..count], filter)
  {
    if count > 0 {
      var k := count - 1;
      AcceptedConcat(fs, left, skipped, k, filter);
      AcceptedPush(fs, skipped + k, filter);
      AcceptedPush(left, k, filter);
      assert left[k] == fs[skipped + k];
    }
  }

  lemma {:induction false} BatchCarries(fs: Frames, o: Offer) returns (kept: Frames)
    requires AllOk(fs)
    ensures
      var t := Batched(fs, o);
      && t.consumed <= |fs| && kept == Accepted(fs[..t.consumed], o.filter) && Carries(t.ntb, kept, o.capacity)
      && (t.ntb.Some? ==> |t.ntb.value| <= NTB_SIZE)
  {
    assert fs[..0] == [];
    kept := Accepted(fs[..Filled(fs, o.filter, o.capacity, 0)], o.filter);
    FilledFits(fs, o.filter, o.capacity, 0);
    if kept == [] || !o.submits { kept := []; } else { BatchDelivers(kept, o.sequence); }
  }

  lemma {:induction false} QueuedCarries(fs: Frames, o: Offer) returns (kept: Frames)
    requires AllOk(fs) && (fs != [] ==> Accepts(fs[0], o.filter))
    ensures
      var t := Queued(fs, o);
      && t.consumed <= |fs| && kept == Accepted(fs[..t.consumed], o.filter) && Carries(t.ntb, kept, o.capacity)
      && (t.ntb.Some? ==> |t.ntb.value| <= NTB_SIZE)
  {
    assert fs[..0] == [];
    if |fs| == 1 {
      AcceptedFirst(fs, o.filter);
      SingleDelivers(fs[0], o.sequence);
      kept := if Alone(fs[0], o).consumed == 1 then [fs[0]] else [];
    } else if fs != [] && o.capacity != 0 && !o.halted {
      kept := BatchCarries(fs, o);
    } else {
      kept := [];
    }
  }

  lemma AllOkRest(fs: Frames, k: nat)
    requires AllOk(fs) && k <= |fs|
    ensures AllOk(fs[k..])
  {
  }

  /** The block carries exactly the accepted frames of the prefix taken; filtered ones leave silently. */
  lemma {:induction false} SentCarries(fs: Frames, o: Offer) returns (kept: Frames)
    requires AllOk(fs)
    ensures
      var t := Sent(fs, o);
      && t.consumed <= |fs| && kept == Accepted(fs[..t.consumed], o.filter) && Carries(t.ntb, kept, o.capacity)
      && (t.ntb.Some? ==> |t.ntb.value| <= NTB_SIZE)
  {
    assert fs[..0] == [];
    kept := [];
    if o.linkUp {
      var k := Skipped(fs, o.filter);
      SkippedFirst(fs, o.filter);
      AllOkRest(fs, k);
      kept := QueuedCarries(fs[k..], o);
      var t := Queued(fs[k..], o);
      AcceptedConcat(fs, fs[k..], k, t.consumed, o.filter);
      SentIs(fs, o, k, t);
    }
  }

  lemma {:induction false} SentIs(fs: Frames, o: Offer, k: nat, t: Sending)
    requires o.linkUp && k == Skipped(fs, o.filter) && t == Queued(fs[k..], o)
    ensures Sent(fs, o) == Sending(k + t.consumed, t.ntb)
  {
  }

  lemma {:induction false} QueuedProgress(fs: Frames, o: Offer)
    requires AllOk(fs) && fs != [] && !o.halted && o.submits && o.capacity >= 2048 && Accepts(fs[0], o.filter)
    ensures Queued(fs, o).consumed > 0
  {
    FilledStarts(fs, o.filter, o.capacity);
  }

  /** With the link up and hardware that has room for one full frame and takes it, something leaves. */
  lemma {:induction false} SentProgress(fs: Frames, o: Offer)
    requires AllOk(fs) && fs != [] && o.linkUp && !o.halted && o.submits && o.capacity >= 2048
    ensures Sent(fs, o).consumed > 0
  {
    SkippedFirst(fs, o.filter);
    if Skipped(fs, o.filter) == 0 {
      assert fs[0..] == fs;
      QueuedProgress(fs, o);
    }
  }

  lemma {:induction false} FilledStops(fs: Frames, filter: nat, capacity: nat, k: nat)
    requires k <= |fs|
    ensures
      var n := Filled(fs, filter, capacity, k);
      n == |fs| || (Accepts(fs[n], filter) && !Fits(Accepted(fs[..n], filter) + [fs[n]], capacity))
    decreases |fs| - k
  {
    if Filled(fs, filter, capacity, k) != k { FilledStops(fs, filter, capacity, k + 1); }
  }

  /** A batch: at most sixteen frames of legal length whose block fits the capacity and 16 KiB. */
  lemma FitsExact(fs: Frames, capacity: nat, sequence: nat)
    ensures
      Fits(fs, capacity) <==>
        && |fs| <= 16 && (forall i: nat :: i < |fs| ==> 14 <= |fs[i]| <= 1514)
        && (|fs| > 0 ==> |Ntb(fs, sequence)| <= capacity && |Ntb(fs, sequence)| <= 16384)
  {
  }

  /** What stays behind after the first `n` starts with an accepted frame their block has no room for. */
  ghost predicate Stays(fs: Frames, n: nat, o: Offer) {
    && n <= |fs|
    && (n < |fs| ==> Accepts(fs[n], o.filter) && !Fits(Accepted(fs[..n], o.filter) + [fs[n]], o.capacity))
  }

  lemma {:induction false} QueuedMaximal(fs: Frames, o: Offer)
    requires AllOk(fs) && !o.halted && o.submits && o.capacity >= 2048
    requires fs != [] ==> Accepts(fs[0], o.filter)
    ensures Stays(fs, Queued(fs, o).consumed, o)
  {
    if |fs| > 1 {
      FilledStarts(fs, o.filter, o.capacity);
      FilledStops(fs, o.filter, o.capacity, 0);
    }
  }

  lemma {:induction false} LeftMaximal(fs: Frames, k: nat, n: nat, o: Offer)
    requires k <= |fs| && Accepted(fs[..k], o.filter) == [] && Stays(fs[k..], n, o)
    ensures Stays(fs, k + n, o)
  {
    AcceptedConcat(fs, fs[k..], k, n, o.filter);
  }

  /** And as much leaves as can. */
  lemma {:induction false} SentMaximal(fs: Frames, o: Offer)
    requires AllOk(fs) && o.linkUp && !o.halted && o.submits && o.capacity >= 2048
    ensures Stays(fs, Sent(fs, o).consumed, o)
  {
    var k := Skipped(fs, o.filter);
    SkippedFirst(fs, o.filter);
    AllOkRest(fs, k);
    QueuedMaximal(fs[k..], o);
    var t := Queued(fs[k..], o);
    LeftMaximal(fs, k, t.consumed, o);
    SentIs(fs, o, k, t);
  }

  lemma {:induction false} QueuedNothing(fs: Frames, o: Offer)
    requires o.halted || !o.submits
    ensures Queued(fs, o) == Sending(0, None)
  {
  }

  /** Without a link nothing leaves; without a transfer only frames the filter keeps back, up to the first accepted. */
  lemma {:induction false} SentNothing(fs: Frames, o: Offer)
    ensures !o.linkUp ==> Sent(fs, o) == Sending(0, None)
    ensures
      o.linkUp && (o.halted || !o.submits) ==>
        var n := Sent(fs, o).consumed;
        && Sent(fs, o).ntb == None && n <= |fs| && Accepted(fs[..n], o.filter) == []
        && (n < |fs| ==> Accepts(fs[n], o.filter))
  {
    SkippedFirst(fs, o.filter);
    if o.halted || !o.submits { QueuedNothing(fs[Skipped(fs, o.filter)..], o); }
  }

  /** Every block is numbered as it was asked to be. */
  lemma {:induction false} SentNumbered(fs: Frames, o: Offer)
    requires AllOk(fs) && Sent(fs, o).ntb.Some?
    ensures
      var b := Sent(fs, o).ntb.value;
      |b| >= 12 && b[6] as nat + 0x100 * b[7] as nat == o.sequence % 65536
  {
    var left := fs[Skipped(fs, o.filter)..];
    AllOkRest(fs, Skipped(fs, o.filter));
    assert left[..0] == [];
    if |left| == 1 {
      NcmFormat.SingleLayout(left[0], o.sequence);
    } else {
      var n := Filled(left, o.filter, o.capacity, 0);
      FilledFits(left, o.filter, o.capacity, 0);
      NcmFormat.BatchLayout(Accepted(left[..n], o.filter), o.sequence);
    }
  }

  // ---- The loops over the ring ---------------------------------------------------------------------------

  /** Push the accepted frames of the longest prefix of the ring that fits. */
  method PushAll(ring: Ring, filter: nat, encoder: Encoder, output: array<byte>, capacity: nat)
    returns (count: nat)
    requires ring.Valid() && encoder.Valid(output, capacity) && encoder.frames == []
    modifies encoder, encoder.datagrams, output
    ensures count == Filled(ring.Contents(), filter, capacity, 0) && encoder.Valid(output, capacity)
    ensures encoder.frames == Accepted(ring.Contents()[..count], filter)
  {
    ghost var fs := ring.Contents();
    count := 0;
    assert Accepted(fs[..0], filter) == [];
    while count < ring.count
      invariant count <= |fs| && encoder.Valid(output, capacity)
      invariant encoder.frames == Accepted(fs[..count], filter)
      invariant Filled(fs, filter, capacity, count) == Filled(fs, filter, capacity, 0)
    {
      var frame := ring.At(count);
      AcceptedPush(fs, count, filter);
      if Accepts(frame, filter) {
        var pushed := encoder.Push(frame, output, capacity);
        if pushed.Err? {
          break;
        }
      }
      count := count + 1;
    }
  }

  method EncodeBatch(ring: Ring, o: Offer, output: array<byte>) returns (r: Result<nat, Error>, count: nat)
    requires ring.Valid() && o.capacity <= output.Length && o.sequence < 65536
    modifies output
    ensures
      var batch := Accepted(ring.Contents()[..Filled(ring.Contents(), o.filter, o.capacity, 0)], o.filter);
      && count == Filled(ring.Contents(), o.filter, o.capacity, 0) && (r.Ok? <==> batch != [])
      && (r.Ok? ==> r.value <= o.capacity && output[..r.value] == Ntb(batch, o.sequence))
  {
    var encoder := new Encoder(output, o.capacity);
    count := PushAll(ring, o.filter, encoder, output, o.capacity);
    r := encoder.Finish(o.sequence, output, o.capacity);
  }

  method SendBatch(ring: Ring, o: Offer, output: array<byte>) returns (consumed: nat, sent: Option<seq<byte>>)
    requires ring.Valid() && o.capacity <= output.Length && o.sequence < 65536
    modifies ring, output
    ensures Sending(consumed, sent) == Batched(old(ring.Contents()), o)
    ensures ring.Valid() && consumed <= |old(ring.Contents())| && ring.Contents() == old(ring.Contents())[consumed..]
  {
    var r, count := EncodeBatch(ring, o, output);
    if r.Err? || !o.submits {
      return 0, None;
    }
    sent := Some(output[..r.value]);
    PopMany(ring, count);
    consumed := count;
  }

  method PopMany(ring: Ring, count: nat)
    requires ring.Valid() && count <= ring.count
    modifies ring
    ensures ring.Valid() && ring.Contents() == old(ring.Contents())[count..]
  {
    ghost var fs := ring.Contents();
    for i := 0 to count
      invariant ring.Valid() && ring.Contents() == fs[i..]
    {
      ring.Pop();
    }
  }

  method SendOne(ring: Ring, o: Offer, output: array<byte>) returns (consumed: nat, sent: Option<seq<byte>>)
    requires ring.Valid() && o.capacity <= output.Length && o.sequence < 65536 && ring.count > 0
    modifies ring, output
    ensures Sending(consumed, sent) == Alone(old(ring.Contents())[0], o)
    ensures ring.Valid() && consumed <= |old(ring.Contents())| && ring.Contents() == old(ring.Contents())[consumed..]
  {
    var frame := ring.At(0);
    var length := |frame| + FRAME_OFFSET;
    if o.capacity < length || o.halted {
      return 0, None;
    }
    var r := EncodeSingle(frame, o.sequence, output, length);
    if r.Err? || !o.submits {
      return 0, None;
    }
    assert output[..length] == Single(frame, o.sequence);
    sent := Some(output[..length]);
    ring.Pop();
    consumed := 1;
  }

  method SkipFiltered(ring: Ring, filter: nat) returns (skipped: nat)
    requires ring.Valid()
    modifies ring
    ensures ring.Valid() && skipped == Skipped(old(ring.Contents()), filter)
    ensures ring.Contents() == old(ring.Contents())[skipped..]
  {
    ghost var fs := ring.Contents();
    skipped := 0;
    while true
      invariant ring.Valid() && skipped <= |fs| && ring.Contents() == fs[skipped..]
      invariant Skipped(fs, filter) == skipped + Skipped(fs[skipped..], filter)
      decreases |fs| - skipped
    {
      var front := ring.Front();
      if front.None? || Accepts(front.value, filter) {
        break;
      }
      assert fs[skipped..][1..] == fs[skipped + 1..];
      ring.Pop();
      skipped := skipped + 1;
    }
  }

  /** The frames left once the filter has passed over the first ones. */
  method SendQueued(ring: Ring, o: Offer, output: array<byte>) returns (consumed: nat, sent: Option<seq<byte>>)
    requires ring.Valid() && o.capacity <= output.Length && o.sequence < 65536
    modifies ring, output
    ensures Sending(consumed, sent) == Queued(old(ring.Contents()), o)
    ensures ring.Valid() && consumed <= |old(ring.Contents())| && ring.Contents() == old(ring.Contents())[consumed..]
  {
    if ring.count == 1 {
      consumed, sent := SendOne(ring, o, output);
    } else if ring.count != 0 && o.capacity != 0 && !o.halted {
      consumed, sent := SendBatch(ring, o, output);
    } else {
      return 0, None;
    }
  }

  /**
   A prefix of the ring is consumed, and the accepted frames of that prefix are exactly what the block
   handed to the hardware carries.
   */
  method SendFrames(ring: Ring, o: Offer, output: array<byte>) returns (consumed: nat, sent: Option<seq<byte>>)
    requires ring.Valid() && o.capacity <= output.Length && o.sequence < 65536
    modifies ring, output
    ensures Sending(consumed, sent) == Sent(old(ring.Contents()), o)
    ensures ring.Valid() && consumed <= |old(ring.Contents())| && ring.Contents() == old(ring.Contents())[consumed..]
    ensures Carries(sent, Accepted(old(ring.Contents())[..consumed], o.filter), o.capacity)
    ensures o.linkUp && !o.halted && o.submits && o.capacity >= 2048 && old(ring.Contents()) != [] ==> consumed > 0
  {
    ghost var fs := ring.Contents();
    ghost var kept := SentCarries(fs, o);
    if fs != [] && o.linkUp && !o.halted && o.submits && o.capacity >= 2048 { SentProgress(fs, o); }
    if !o.linkUp {
      return 0, None;
    }
    var skipped := SkipFiltered(ring, o.filter);
    var taken: nat;
    taken, sent := SendQueued(ring, o, output);
    consumed := skipped + taken;
  }
}
