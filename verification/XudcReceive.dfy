/**
 The two NCM receive slots over their transfer ring: armed buffers belong to the controller, completed
 ones to the CPU until their last datagram was handed on. The ledger of a run lists the blocks that
 arrived; what was delivered is compared with what they contain.
 */
module XudcReceive {
  import opened Types
  import opened XudcRing
  import XR = XudcRing
  import Ncm

  const SLOT_COUNT := 2

  /** `out` is the ring slot of the descriptor a buffer is armed with, `length` what it completed with. */
  datatype Slot = Slot(out: Option<nat>, length: Option<nat>) {
    predicate Free() { out.None? && length.None? }

    predicate Armed() { out.Some? && length.None? }

    predicate Full() { out.None? && length.Some? }
  }

  const NO_SLOT := Slot(None, None)

  datatype State = State(
    active: bool, failed: bool, slots: seq<Slot>, index: nat, block: seq<Ncm.Datagram>, cursor: nat, ring: Ring,
    buffers: seq<seq<byte>>)

  predicate Shaped(s: State) {
    && |s.slots| == SLOT_COUNT && |s.buffers| == SLOT_COUNT && s.index < SLOT_COUNT && Shape(s.ring)
    && |s.buffers[0]| == |s.buffers[1]| == Ncm.NTB_SIZE
  }

  function Other(i: nat): nat { if i == 0 then 1 else 0 }

  /** The descriptor for buffer `i`: its address, a whole block, short packets allowed, an event when done. */
  function Descriptor(i: nat): Words { Words(i, 0, Ncm.NTB_SIZE, 0x424) }

  // ---- Driver steps -----------------------------------------------------------------------------

  function ArmSlot(s: State, i: nat): (t: State)
    requires Shaped(s) && i < SLOT_COUNT
    ensures Shaped(t) && t.index == s.index
  {
    if !s.slots[i].Free() then s
    else
      var q := Enqueue(s.ring, Descriptor(i));
      if q.None? then s
      else s.(ring := q.value.0, slots := s.slots[i := Slot(Some(q.value.1), s.slots[i].length)])
  }

  /** Refill in the order the slots will be read. */
  function Arm(s: State, halted: bool): State
    requires Shaped(s)
  {
    if !s.active || s.failed || halted then s else ArmSlot(ArmSlot(s, s.index), Other(s.index))
  }

  /** The buffer armed with the descriptor in ring slot `pointer`. */
  function Owner(s: State, pointer: nat): Option<nat>
    requires Shaped(s)
  {
    if s.slots[0].out == Some(pointer) then Some(0) else if s.slots[1].out == Some(pointer) then Some(1) else None
  }

  /**
   The event of ring slot `pointer`, whether its code is success or a short packet, and the bytes left
   unused. An error of an outstanding descriptor stops the controller for good, until the port is reset.
   */
  function Completed(s: State, pointer: nat, fine: bool, remaining: nat): State
    requires Shaped(s)
  {
    var c := Retire(s.ring, pointer);
    var t, i := s.(ring := c.0), Owner(s, pointer);
    if !c.1 then t
    else if !fine then t.(failed := true)
    else if i.None? then t
    else if remaining > Ncm.NTB_SIZE then t.(failed := true)
    else t.(slots := s.slots[i.value := Slot(None, Some(Ncm.NTB_SIZE - remaining))])
  }

  /** The slot being read goes back to the controller. */
  function Released(s: State): State
    requires Shaped(s)
  {
    s.(slots := s.slots[s.index := Slot(s.slots[s.index].out, None)], index := Other(s.index), block := [], cursor := 0)
  }

  function Release(s: State, halted: bool): State
    requires Shaped(s)
  {
    Arm(Released(s), halted)
  }

  function Listing(bytes: seq<byte>): seq<Ncm.Datagram> {
    match Ncm.Decode(bytes) case Ok(ds) => ds case Err(_) => []
  }

  /** The block being read: the one in progress, or the next completed one decoded. */
  function Opened(s: State): Option<State>
    requires Shaped(s)
  {
    if s.cursor != |s.block| then Some(s)
    else
      var length := s.slots[s.index].length;
      if length.None? || length.value > Ncm.NTB_SIZE then None
      else Some(s.(cursor := 0, block := Listing(s.buffers[s.index][..length.value])))
  }

  datatype Received = Received(state: State, frame: Option<seq<byte>>)

  predicate InBuffer(d: Ncm.Datagram) { d.offset + d.length <= Ncm.NTB_SIZE }

  /** The datagram at the cursor. */
  function Due(s: State): (d: seq<byte>)
    requires Shaped(s) && s.cursor < |s.block|
  {
    var d := s.block[s.cursor];
    if InBuffer(d) then s.buffers[s.index][d.offset..d.offset + d.length] else []
  }

  function Drained(t: State, halted: bool): Received
    requires Shaped(t)
  {
    if t.cursor >= |t.block| then Received(Release(t, halted), None)
    else
      var u := t.(cursor := t.cursor + 1);
      Received(if u.cursor == |u.block| then Release(u, halted) else u, Some(Due(t)))
  }

  /** One datagram for the bridge, if one is there. */
  function Receive(s: State, halted: bool): Received
    requires Shaped(s)
  {
    if !s.active || s.failed || Opened(s).None? then Received(s, None) else Drained(Opened(s).value, halted)
  }

  /** A new alternate setting or a cleared halt: the slots start over, and the ring if it is to be used. */
  function Restart(s: State, active: bool): State {
    State(active, s.failed, [NO_SLOT, NO_SLOT], 0, [], 0, if active then FRESH else s.ring, s.buffers)
  }

  /** A port reset stops the function and forgives an error. */
  function PortReset(s: State): State { Restart(s, false).(failed := false) }

  // ---- Runs ---------------------------------------------------------------------------------------------

  datatype Event =
    | ArmEvent(halted: bool)
    | Fetched
    | LinkFollowed
    | BlockArrived(data: seq<byte>)
    | ReadFrame(halted: bool)
    | BlockFailed
    | Stray(pointer: nat, fine: bool, remaining: nat)
    | Restarted(active: bool)
    | PortWasReset

  /** `arrived` lists the blocks the controller completed, `released` how many were handed back to it. */
  datatype World = World(
    state: State, list: List, arrived: seq<seq<byte>>, released: nat, delivered: seq<seq<byte>>)

  function Slices(bytes: seq<byte>, ds: seq<Ncm.Datagram>): (fs: seq<seq<byte>>)
    ensures |fs| == |ds|
  {
    if ds == [] then []
    else
      var d := ds[|ds| - 1];
      Slices(bytes, ds[..|ds| - 1])
      + [if d.offset + d.length <= |bytes| then bytes[d.offset..d.offset + d.length] else []]
  }

  function Frames(bytes: seq<byte>): seq<seq<byte>> { Slices(bytes, Listing(bytes)) }

  /** Every datagram of the blocks, in order. */
  function AllFrames(blocks: seq<seq<byte>>): seq<seq<byte>> {
    if blocks == [] then [] else AllFrames(blocks[..|blocks| - 1]) + Frames(blocks[|blocks| - 1])
  }

  /** The buffer the oldest outstanding descriptor names, with `data` written over its start. */
  function Landed(s: State, i: nat, data: seq<byte>): State
    requires Shaped(s) && i < SLOT_COUNT && |data| <= Ncm.NTB_SIZE
  {
    s.(buffers := s.buffers[i := data + s.buffers[i][|data|..]])
  }

  /** The controller finishes its oldest descriptor: data first, then the event. */
  function Arrive(w: World, data: seq<byte>): World
    requires Shaped(w.state)
  {
    var l := w.list;
    if !w.state.active || l.done >= l.fetched || l.done >= |l.all| then w
    else if l.all[l.done].low >= SLOT_COUNT || |data| > Ncm.NTB_SIZE then w
    else
      var s := Completed(Landed(w.state, l.all[l.done].low, data), l.done % SLOTS, true, Ncm.NTB_SIZE - |data|);
      w.(state := s, list := l.(done := l.done + 1), arrived := w.arrived + [data])
  }

  /** Its oldest descriptor ends in an error instead. */
  function Break(w: World): World
    requires Shaped(w.state)
  {
    var l := w.list;
    if !w.state.active || l.done >= l.fetched then w
    else w.(state := Completed(w.state, l.done % SLOTS, false, 0), list := l.(done := l.done + 1))
  }

  /** An event left over from before the ring was last in use; an active ring only gets them for free slots. */
  function Leftover(w: World, pointer: nat, fine: bool, remaining: nat): World
    requires Shaped(w.state)
  {
    if w.state.active && pointer in w.state.ring.occupied then w
    else w.(state := Completed(w.state, pointer, fine, remaining))
  }

  /** The descriptors queued by arming, as the list records them. */
  function Queued(before: State, after: State, i: nat): seq<Words>
    requires Shaped(before) && Shaped(after) && i < SLOT_COUNT
  {
    if before.slots[i].out.None? && after.slots[i].out.Some? then [Descriptor(i)] else []
  }

  function ArmWorld(w: World, halted: bool): World
    requires Shaped(w.state)
  {
    var s := w.state;
    if !s.active || s.failed || halted then w
    else
      var first := ArmSlot(s, s.index);
      var second := ArmSlot(first, Other(s.index));
      w.(state := second,
         list := w.list.(all := w.list.all + Queued(s, first, s.index) + Queued(first, second, Other(s.index))))
  }

  function ReleaseWorld(w: World, halted: bool): World
    requires Shaped(w.state)
  {
    ArmWorld(w.(state := Released(w.state), released := w.released + 1), halted)
  }

  /** The block at the read index, one datagram further, in the ledger. */
  function DrainWorld(w: World, halted: bool): World
    requires Shaped(w.state)
  {
    var t := w.state;
    if t.cursor >= |t.block| then ReleaseWorld(w, halted)
    else
      var u := w.(state := t.(cursor := t.cursor + 1), delivered := w.delivered + [Due(t)]);
      if t.cursor + 1 == |t.block| then ReleaseWorld(u, halted) else u
  }

  /** One read by the bridge, entered in the ledger. */
  function ReadWorld(w: World, halted: bool): World
    requires Shaped(w.state)
  {
    if !w.state.active || w.state.failed || Opened(w.state).None? then w
    else DrainWorld(w.(state := Opened(w.state).value), halted)
  }

  function Afresh(s: State): World { World(s, List([], 0, 0, false), [], 0, []) }

  function Next(w: World, e: Event): World
    requires Shaped(w.state)
  {
    var l := w.list;
    match e
    case ArmEvent(halted) => ArmWorld(w, halted)
    case Fetched =>
      if l.atLink || l.fetched >= |l.all| then w
      else w.(list := l.(fetched := l.fetched + 1, atLink := (l.fetched + 1) % SLOTS == 0))
    case LinkFollowed => if l.atLink && Sees(w.state.ring, Position(l)) then w.(list := l.(atLink := false)) else w
    case BlockArrived(data) => Arrive(w, data)
    case ReadFrame(halted) => ReadWorld(w, halted)
    case BlockFailed => Break(w)
    case Stray(pointer, fine, remaining) => Leftover(w, pointer, fine, remaining)
    case Restarted(active) => Afresh(Restart(w.state, active))
    case PortWasReset => Afresh(PortReset(w.state))
  }

  // ---- The invariant -----------------------------------------------------------------------------------

  function Here(s: State): Slot
    requires Shaped(s)
  {
    s.slots[s.index]
  }

  function Beyond(s: State): Slot
    requires Shaped(s)
  {
    s.slots[Other(s.index)]
  }

  function Rank(k: Slot): nat { if k.Full() then 2 else if k.Armed() then 1 else 0 }

  function Count(s: State, rank: nat): nat
    requires Shaped(s)
  {
    (if Rank(Here(s)) == rank then 1 else 0) + (if Rank(Beyond(s)) == rank then 1 else 0)
  }

  /** From the read index on: completed slots, then armed ones, then free ones. */
  ghost predicate Ordered(s: State)
    requires Shaped(s)
  {
    && (Here(s).Free() || Here(s).Armed() || Here(s).Full())
    && (Beyond(s).Free() || Beyond(s).Armed() || Beyond(s).Full())
    && Rank(Here(s)) >= Rank(Beyond(s))
  }

  /** The `k`-th outstanding descriptor is the one buffer `i` was armed with. */
  ghost predicate Owns(l: List, k: nat, s: State, i: nat)
    requires Shaped(s) && i < SLOT_COUNT
  {
    l.done + k < |l.all| && l.all[l.done + k] == Descriptor(i) && s.slots[i].out == Some((l.done + k) % SLOTS)
  }

  ghost predicate Owned(s: State, l: List)
    requires Shaped(s)
  {
    && |l.all| == l.done + Count(s, 1)
    && (Here(s).Armed() ==> Owns(l, 0, s, s.index))
    && (Beyond(s).Armed() ==> Owns(l, if Here(s).Armed() then 1 else 0, s, Other(s.index)))
  }

  /** A completed slot's buffer still holds the block that arrived in it. */
  ghost predicate Keeps(s: State, i: nat, block: seq<byte>)
    requires Shaped(s) && i < SLOT_COUNT
  {
    s.slots[i].length == Some(|block|) && |block| <= Ncm.NTB_SIZE && s.buffers[i][..|block|] == block
  }

  ghost predicate Kept(w: World)
    requires Shaped(w.state)
  {
    var s := w.state;
    && |w.arrived| == w.released + Count(s, 2)
    && (Here(s).Full() ==> Keeps(s, s.index, w.arrived[w.released]))
    && (Beyond(s).Full() ==> w.released + 1 < |w.arrived| && Keeps(s, Other(s.index), w.arrived[w.released + 1]))
  }

  /** Everything delivered is what arrived, block by block, up to the datagram now due. */
  ghost predicate Told(w: World)
    requires Shaped(w.state)
  {
    var s := w.state;
    && (s.block != [] ==>
          && Here(s).Full() && w.released < |w.arrived| && s.block == Listing(w.arrived[w.released])
          && s.cursor < |s.block|)
    && (s.block == [] ==> s.cursor == 0)
    && w.released <= |w.arrived|
    && w.delivered
    == AllFrames(w.arrived[..w.released])
       + (if s.block == [] then [] else Slices(w.arrived[w.released], s.block[..s.cursor]))
  }

  /** The function is in use. */
  ghost predicate Live(w: World) {
    && Shaped(w.state) && Inv(w.state.ring, w.list) && Ordered(w.state) && Owned(w.state, w.list) && Kept(w) && Told(w)
    && w.state.active && !w.state.failed
  }

  /** It is not: whatever the ring holds, no slot takes part in it. */
  ghost predicate Idle(w: World) {
    && Shaped(w.state) && w.state.slots == [NO_SLOT, NO_SLOT] && w.state.block == [] && w.state.cursor == 0
    && w.arrived == [] && w.released == 0 && w.delivered == []
  }

  /** After an error what was delivered stays what it was: a beginning of what arrived. */
  ghost predicate Stopped(w: World) {
    Shaped(w.state) && w.released <= |w.arrived| && AllFrames(w.arrived[..w.released]) <= w.delivered
  }

  ghost predicate Good(w: World) {
    Shaped(w.state) && if w.state.failed then Stopped(w) else if !w.state.active then Idle(w) else Live(w)
  }

  // ---- Arming --------------------------------------------------------------------------------------------

  /** Arming a free slot succeeds and appends its descriptor. */
  lemma ArmSlotQueues(s: State, l: List, i: nat)
    requires Shaped(s) && i < SLOT_COUNT && Inv(s.ring, l) && |l.all| <= l.done + 1 && s.slots[i].Free()
    ensures
      var t, m := ArmSlot(s, i), l.(all := l.all + [Descriptor(i)]);
      && Shaped(t) && Inv(t.ring, m) && t.slots == s.slots[i := Slot(Some(|l.all| % SLOTS), None)]
      && t == s.(ring := t.ring, slots := t.slots)
  {
    QueueAppends(s.ring, l, Descriptor(i));
  }

  lemma ArmBoth(w: World)
    requires Live(w) && Here(w.state).Free() && w.state.active
    ensures Live(ArmWorld(w, false))
  {
    var s, l := w.state, w.list;
    ArmSlotQueues(s, l, s.index);
    var t, m := ArmSlot(s, s.index), l.(all := l.all + [Descriptor(s.index)]);
    ArmSlotQueues(t, m, Other(s.index));
    assert l.all + [Descriptor(s.index)] + [Descriptor(Other(s.index))]
        == m.all + [Descriptor(Other(s.index))];
  }

  lemma ArmBeyond(w: World)
    requires Live(w) && !Here(w.state).Free() && Beyond(w.state).Free() && w.state.active
    ensures Live(ArmWorld(w, false))
  {
    var s, l := w.state, w.list;
    ArmSlotQueues(s, l, Other(s.index));
    assert l.all + [] + [Descriptor(Other(s.index))] == l.all + [Descriptor(Other(s.index))];
  }

  lemma ArmKeeps(w: World, halted: bool)
    requires Live(w)
    ensures Live(ArmWorld(w, halted)) && ArmWorld(w, halted).state == Arm(w.state, halted)
  {
    if w.state.active && !halted {
      if Here(w.state).Free() {
        ArmBoth(w);
      } else if Beyond(w.state).Free() {
        ArmBeyond(w);
      } else {
        assert w.list.all + [] + [] == w.list.all;
      }
    }
  }

  // ---- Arrival ---------------------------------------------------------------------------------------

  /** The slot whose descriptor completes next. */
  function Oldest(s: State): nat
    requires Shaped(s)
  {
    if Here(s).Armed() then s.index else Other(s.index)
  }

  lemma OldestOwns(w: World)
    requires Live(w) && w.list.done < w.list.fetched
    ensures
      var s, i := w.state, Oldest(w.state);
      && s.slots[i].Armed() && Owns(w.list, 0, s, i) && s.slots[Other(i)].out != Some(w.list.done % SLOTS)
  {
    var l := w.list;
    assert |l.all| > l.done;
    assert (l.done + 1) % SLOTS != l.done % SLOTS;
  }

  /** The driver's view of an arrival: that slot completed, nothing else touched. */
  lemma ArriveIs(w: World, data: seq<byte>)
    requires Live(w) && w.list.done < w.list.fetched && |data| <= Ncm.NTB_SIZE
    ensures
      var s, i, l, v := w.state, Oldest(w.state), w.list, Arrive(w, data);
      && v == World(s.(slots := s.slots[i := Slot(None, Some(|data|))],
                       buffers := s.buffers[i := data + s.buffers[i][|data|..]], ring := v.state.ring),
                    l.(done := l.done + 1), w.arrived + [data], w.released, w.delivered)
      && Inv(v.state.ring, v.list)
  {
    OldestOwns(w);
    CompleteOldest(w.state.ring, w.list);
    FinishedIs(w.state, Oldest(w.state), w.list.done % SLOTS, data);
  }

  /** Data landing in the buffer of an outstanding descriptor, and its event. */
  lemma FinishedIs(s: State, i: nat, pointer: nat, data: seq<byte>)
    requires Shaped(s) && i < SLOT_COUNT && |data| <= Ncm.NTB_SIZE && pointer < SLOTS && pointer in s.ring.occupied
    requires s.slots[i].out == Some(pointer) && s.slots[Other(i)].out != Some(pointer)
    ensures Completed(Landed(s, i, data), pointer, true, Ncm.NTB_SIZE - |data|)
         == s.(slots := s.slots[i := Slot(None, Some(|data|))], ring := Retire(s.ring, pointer).0,
               buffers := s.buffers[i := data + s.buffers[i][|data|..]])
  {
  }

  lemma ArriveKeeps(w: World, data: seq<byte>)
    requires Live(w)
    ensures Live(Arrive(w, data))
  {
    if w.list.done < w.list.fetched && |data| <= Ncm.NTB_SIZE {
      OldestOwns(w);
      ArriveIs(w, data);
      ArriveOwned(w, data);
      ArriveKept(w, data);
      ArriveTold(w, data);
    }
  }

  lemma ArriveOwned(w: World, data: seq<byte>)
    requires Live(w) && w.list.done < w.list.fetched && |data| <= Ncm.NTB_SIZE
    ensures
      var v := Arrive(w, data);
      Shaped(v.state) && Ordered(v.state) && Owned(v.state, v.list)
  {
    OldestOwns(w);
    ArriveIs(w, data);
  }

  lemma ArriveKept(w: World, data: seq<byte>)
    requires Live(w) && w.list.done < w.list.fetched && |data| <= Ncm.NTB_SIZE
    ensures Shaped(Arrive(w, data).state) && Kept(Arrive(w, data))
  {
    OldestOwns(w);
    ArriveIs(w, data);
    var v, i := Arrive(w, data), Oldest(w.state);
    assert v.state.buffers[i][..|data|] == data;
    assert forall k: nat :: k < |w.arrived| ==> v.arrived[k] == w.arrived[k];
  }

  lemma ArriveTold(w: World, data: seq<byte>)
    requires Live(w) && w.list.done < w.list.fetched && |data| <= Ncm.NTB_SIZE
    ensures Shaped(Arrive(w, data).state) && Told(Arrive(w, data))
  {
    OldestOwns(w);
    ArriveIs(w, data);
    var v := Arrive(w, data);
    assert v.arrived[..w.released] == w.arrived[..w.released];
  }

  // ---- Reading ---------------------------------------------------------------------------------------------

  /** Like `Live`, but the block in progress may be at its end, or empty. */
  ghost predicate Reading(w: World) {
    var s := w.state;
    && Shaped(s) && Inv(s.ring, w.list) && Ordered(s) && Owned(s, w.list) && Kept(w) && s.active && !s.failed
    && Here(s).Full() && w.released < |w.arrived| && s.block == Listing(w.arrived[w.released])
    && s.cursor <= |s.block| && w.delivered == HandedOn(w)
  }

  /** Every frame of the blocks given back, then those of the open one up to the cursor. */
  ghost function HandedOn(w: World): seq<seq<byte>>
    requires w.released < |w.arrived| && w.state.cursor <= |w.state.block|
  {
    AllFrames(w.arrived[..w.released]) + Slices(w.arrived[w.released], w.state.block[..w.state.cursor])
  }

  lemma OpenReads(w: World)
    requires Live(w) && Opened(w.state).Some?
    ensures Reading(w.(state := Opened(w.state).value))
  {
    var s, t := w.state, Opened(w.state).value;
    if s.cursor == |s.block| {
      assert Here(s).Full() && t.block == Listing(w.arrived[w.released]);
      assert t.block[..0] == [];
      assert AllFrames(w.arrived[..w.released]) + [] == AllFrames(w.arrived[..w.released]);
    }
  }

  /** Datagram `c` of a block, cut from a buffer that holds the block. */
  lemma {:induction false} CutDatagram(buffer: seq<byte>, block: seq<byte>, c: nat)
    requires |block| <= |buffer| == Ncm.NTB_SIZE && buffer[..|block|] == block && c < |Listing(block)|
    ensures
      var d := Listing(block)[c];
      InBuffer(d) && d.offset + d.length <= |block|
      && buffer[d.offset..d.offset + d.length] == block[d.offset..d.offset + d.length]
  {
    var d := Listing(block)[c];
    Ncm.DecodeSafe(block);
    assert Ncm.EntryOk(block, d);
    CutPrefix(buffer, |block|, d.offset, d.offset + d.length);
  }

  lemma CutPrefix<T>(b: seq<T>, n: nat, from: nat, to: nat)
    requires from <= to <= n <= |b|
    ensures b[..n][from..to] == b[from..to]
  {
    forall k: nat | k < to - from ensures b[..n][from..to][k] == b[from..to][k] {
      assert b[..n][from + k] == b[from + k];
    }
  }

  lemma {:induction false} SliceNext(block: seq<byte>, ds: seq<Ncm.Datagram>, c: nat)
    requires c < |ds| && ds[c].offset + ds[c].length <= |block|
    ensures Slices(block, ds[..c + 1])
         == Slices(block, ds[..c]) + [block[ds[c].offset..ds[c].offset + ds[c].length]]
  {
    var more, d := ds[..c + 1], ds[c];
    assert more != [] && more[..|more| - 1] == ds[..c] && more[|more| - 1] == d;
    assert Slices(block, more) == Slices(block, ds[..c]) + [block[d.offset..d.offset + d.length]];
  }

  /** The datagram at the cursor, cut from the block that arrived. */
  lemma {:induction false} DueIs(s: State, block: seq<byte>)
    requires Shaped(s) && |block| <= Ncm.NTB_SIZE && s.buffers[s.index][..|block|] == block
    requires s.block == Listing(block) && s.cursor < |s.block|
    ensures
      var d := s.block[s.cursor];
      d.offset + d.length <= |block| && Due(s) == block[d.offset..d.offset + d.length]
  {
    assert |s.buffers[s.index]| == Ncm.NTB_SIZE;
    CutDatagram(s.buffers[s.index], block, s.cursor);
  }

  /** The frame handed on is that datagram. */
  lemma {:induction false} TakeDelivers(w: World)
    requires Reading(w) && w.state.cursor < |w.state.block|
    ensures HandedOn(w.(state := w.state.(cursor := w.state.cursor + 1))) == HandedOn(w) + [Due(w.state)]
  {
    var s, block := w.state, w.arrived[w.released];
    DueIs(s, block);
    SliceNext(block, s.block, s.cursor);
    Associative(AllFrames(w.arrived[..w.released]), Slices(block, s.block[..s.cursor]), [Due(s)]);
  }

  lemma TakeReads(w: World)
    requires Reading(w) && w.state.cursor < |w.state.block|
    ensures
      var s := w.state;
      Reading(w.(state := s.(cursor := s.cursor + 1), delivered := w.delivered + [Due(s)]))
  {
    TakeDelivers(w);
    var s := w.state;
    var v := w.(state := s.(cursor := s.cursor + 1), delivered := w.delivered + [Due(s)]);
    assert v.delivered == HandedOn(v);
  }

  lemma ReleaseKeeps(w: World, halted: bool)
    requires Reading(w) && w.state.cursor == |w.state.block|
    ensures Live(ReleaseWorld(w, halted)) && ReleaseWorld(w, halted).state == Release(w.state, halted)
  {
    var s := w.state;
    var v := w.(state := Released(s), released := w.released + 1);
    var blocks := w.arrived[..w.released + 1];
    assert blocks[..|blocks| - 1] == w.arrived[..w.released] && blocks[|blocks| - 1] == w.arrived[w.released];
    assert s.block[..s.cursor] == s.block;
    assert AllFrames(blocks) + [] == AllFrames(blocks);
    ReleasedOrdered(w);
    ArmKeeps(v, halted);
  }

  lemma ReleasedOrdered(w: World)
    requires Reading(w)
    ensures
      var v := w.(state := Released(w.state), released := w.released + 1);
      && Shaped(v.state) && Ordered(v.state) && Owned(v.state, v.list) && Kept(v)
  {
  }

  lemma DrainKeeps(w: World, halted: bool)
    requires Reading(w)
    ensures
      var v, r := DrainWorld(w, halted), Drained(w.state, halted);
      Live(v) && v.state == r.state && v.delivered == w.delivered + if r.frame.Some? then [r.frame.value] else []
  {
    var t := w.state;
    if t.cursor >= |t.block| {
      assert w.delivered + [] == w.delivered;
      ReleaseKeeps(w, halted);
    } else {
      TakeReads(w);
      var v := w.(state := t.(cursor := t.cursor + 1), delivered := w.delivered + [Due(t)]);
      if t.cursor + 1 == |t.block| {
        ReleaseKeeps(v, halted);
      } else {
        ReadingIsGood(v);
      }
    }
  }

  /** A read keeps everything, is the driver's step, and hands on at most one frame. */
  lemma ReadKeeps(w: World, halted: bool)
    requires Live(w)
    ensures
      var v, r := ReadWorld(w, halted), Receive(w.state, halted);
      Live(v) && v.state == r.state && v.delivered == w.delivered + if r.frame.Some? then [r.frame.value] else []
  {
    if w.state.active && Opened(w.state).Some? {
      var u := w.(state := Opened(w.state).value);
      OpenReads(w);
      DrainKeeps(u, halted);
      assert ReadWorld(w, halted) == DrainWorld(u, halted);
    } else {
      assert w.delivered + [] == w.delivered;
    }
  }

  /** A read at a completed block: its next datagram, or none of a block that lists none, and the slot given back. */
  ghost predicate HandsOn(s: State, block: seq<byte>, r: Received)
    requires s.index < SLOT_COUNT
  {
    var ds := Listing(block);
    if ds == [] then r.frame == None && r.state.index == Other(s.index)
    else
      && s.cursor < |ds| && ds[s.cursor].offset + ds[s.cursor].length <= |block|
      && r.frame == Some(block[ds[s.cursor].offset..ds[s.cursor].offset + ds[s.cursor].length])
      && (r.state.index == s.index <==> s.cursor + 1 < |ds|)
  }

  lemma DrainHandsOn(t: State, halted: bool, block: seq<byte>)
    requires Shaped(t) && |block| <= Ncm.NTB_SIZE && t.buffers[t.index][..|block|] == block
    requires t.block == Listing(block) && (t.block != [] ==> t.cursor < |t.block|)
    ensures HandsOn(t, block, Drained(t, halted))
  {
    if t.block == [] {
      ReleaseMoves(t, halted);
    } else {
      DueIs(t, block);
      ReleaseMoves(t.(cursor := t.cursor + 1), halted);
    }
  }

  /** A read hands on what is due where a block is completed, and does nothing where none is. */
  lemma ReadProgress(w: World, halted: bool)
    requires Live(w)
    ensures
      if Here(w.state).Full()
      then w.released < |w.arrived| && HandsOn(w.state, w.arrived[w.released], Receive(w.state, halted))
      else Receive(w.state, halted) == Received(w.state, None)
  {
    if Here(w.state).Full() {
      OpenReads(w);
      var t := Opened(w.state).value;
      assert t.index == w.state.index && t.cursor == w.state.cursor;
      DrainHandsOn(t, halted, w.arrived[w.released]);
    }
  }

  /** The other two ends of a descriptor: in an error, which counts as its end, and as an event nobody waits for. */
  lemma EndsExact(w: World, pointer: nat, fine: bool, remaining: nat)
    requires Live(w)
    ensures
      w.list.done < w.list.fetched ==>
        var v := Break(w);
        v.state.failed && v.list == w.list.(done := w.list.done + 1) && v.arrived == w.arrived
    ensures
      pointer !in w.state.ring.occupied ==>
        Leftover(w, pointer, fine, remaining) == w.(state := Completed(w.state, pointer, fine, remaining))
  {
    if w.list.done < w.list.fetched { CompleteOldest(w.state.ring, w.list); }
  }

  lemma ReleaseMoves(s: State, halted: bool)
    requires Shaped(s)
    ensures Release(s, halted).index == Other(s.index) != s.index
  {
  }

  /** Arming leaves no slot free while the endpoint is not halted, and touches none that is not. */
  lemma ArmExact(w: World, halted: bool)
    requires Live(w)
    ensures
      var s, t := w.state, Arm(w.state, halted);
      && (!halted ==> !t.slots[0].Free() && !t.slots[1].Free()) && (halted ==> t == s)
      && forall i: nat :: i < 2 && !s.slots[i].Free() ==> t.slots[i] == s.slots[i]
  {
    if !halted {
      var s, l := w.state, w.list;
      if Here(s).Free() { ArmSlotQueues(s, l, s.index); }
      var t := ArmSlot(s, s.index);
      var m := if Here(s).Free() then l.(all := l.all + [Descriptor(s.index)]) else l;
      if t.slots[Other(s.index)].Free() { ArmSlotQueues(t, m, Other(s.index)); }
    }
  }

  /** A receive descriptor: a normal transfer into a whole buffer, with short packets and the end reported. */
  lemma DescriptorExact(i: nat)
    ensures
      Descriptor(i).low == i && Descriptor(i).high == 0 && Descriptor(i).length == 16384
      && Descriptor(i).control == 0x400 * 1 + 0x20 + 0x4
  {
  }

  lemma ReadingIsGood(w: World)
    requires Reading(w) && w.state.cursor < |w.state.block|
    ensures Live(w)
  {
  }

  // ---- Runs -----------------------------------------------------------------------------------------------------

  lemma ArmShaped(w: World, halted: bool)
    requires Shaped(w.state)
    ensures Shaped(ArmWorld(w, halted).state)
  {
  }

  lemma ReadShaped(w: World, halted: bool)
    requires Shaped(w.state)
    ensures Shaped(ReadWorld(w, halted).state)
  {
    if w.state.active && !w.state.failed && Opened(w.state).Some? {
      var v := w.(state := Opened(w.state).value);
      if v.state.cursor < |v.state.block| {
        v := v.(state := v.state.(cursor := v.state.cursor + 1), delivered := v.delivered + [Due(v.state)]);
      }
      ArmShaped(v.(state := Released(v.state), released := v.released + 1), halted);
    }
  }

  lemma NextShaped(w: World, e: Event)
    requires Shaped(w.state)
    ensures Shaped(Next(w, e).state)
  {
    match e
    case ArmEvent(halted) => ArmShaped(w, halted);
    case ReadFrame(halted) => ReadShaped(w, halted);
    case _ =>
  }

  lemma AfreshGood(s: State)
    requires Shaped(s) && s.slots == [NO_SLOT, NO_SLOT] && s.index == 0 && s.block == [] && s.cursor == 0
    requires s.active ==> s.ring == FRESH
    ensures Good(Afresh(s))
  {
    FreshInv();
  }

  /** What the controller does on its own moves nothing of the driver's. */
  lemma ControllerKeeps(w: World, l: List)
    requires Live(w) && Inv(w.state.ring, l) && l.all == w.list.all && l.done == w.list.done
    ensures Live(w.(list := l))
  {
    var s := w.state;
    assert Here(s).Armed() ==> Owns(l, 0, s, s.index);
    assert Beyond(s).Armed() ==> Owns(l, if Here(s).Armed() then 1 else 0, s, Other(s.index));
  }

  lemma FetchKeeps(w: World)
    requires Live(w)
    ensures Live(Next(w, Fetched))
  {
    var l := w.list;
    if !l.atLink && l.fetched < |l.all| {
      FetchAdvances(w.state.ring, l);
      ControllerKeeps(w, l.(fetched := l.fetched + 1, atLink := (l.fetched + 1) % SLOTS == 0));
    }
  }

  lemma LinkKeeps(w: World)
    requires Live(w)
    ensures Live(Next(w, LinkFollowed))
  {
    if w.list.atLink {
      LinkAdvances(w.state.ring, w.list);
      ControllerKeeps(w, w.list.(atLink := false));
    }
  }

  /** An error stops a live function with what it has delivered. */
  lemma BreakKeeps(w: World)
    requires Live(w)
    ensures Good(Break(w))
  {
    var l := w.list;
    if l.done < l.fetched {
      CompleteOldest(w.state.ring, l);
      ToldPrefix(w);
    }
  }

  lemma ToldPrefix(w: World)
    requires Shaped(w.state) && Told(w)
    ensures AllFrames(w.arrived[..w.released]) <= w.delivered
  {
  }

  /** An event for a slot that is not outstanding is ignored. */
  lemma StrayIgnored(w: World, pointer: nat, fine: bool, remaining: nat)
    requires Live(w)
    ensures Leftover(w, pointer, fine, remaining) == w
  {
    if pointer !in w.state.ring.occupied {
      assert w.state.ring.occupied - {pointer} == w.state.ring.occupied;
    }
  }

  lemma LiveKeeps(w: World, e: Event)
    requires Live(w) && !e.Restarted? && !e.PortWasReset?
    ensures Good(Next(w, e))
  {
    match e
    case ArmEvent(halted) => ArmKeeps(w, halted);
    case Fetched => FetchKeeps(w);
    case LinkFollowed => LinkKeeps(w);
    case BlockArrived(data) => ArriveKeeps(w, data);
    case ReadFrame(halted) => ReadKeeps(w, halted);
    case BlockFailed => BreakKeeps(w);
    case Stray(pointer, fine, remaining) => StrayIgnored(w, pointer, fine, remaining);
  }

  lemma IdleKeeps(w: World, e: Event)
    requires Idle(w) && !w.state.active && !w.state.failed && !e.Restarted? && !e.PortWasReset?
    ensures Good(Next(w, e))
  {
    assert w.arrived[..w.released] == [];
  }

  /** A failed function neither arms a buffer nor hands on a frame. */
  lemma FailedIsStill(w: World, e: Event)
    requires Shaped(w.state) && w.state.failed && !e.Restarted? && !e.PortWasReset?
    ensures
      var v := Next(w, e);
      && v.state.failed && v.list.all == w.list.all && v.released == w.released && v.delivered == w.delivered
      && (v.arrived == w.arrived || (e.BlockArrived? && v.arrived == w.arrived + [e.data]))
  {
  }

  lemma StoppedKeeps(w: World, e: Event)
    requires Stopped(w) && w.state.failed && !e.Restarted? && !e.PortWasReset?
    ensures Good(Next(w, e))
  {
    FailedIsStill(w, e);
    NextShaped(w, e);
    if e.BlockArrived? { PrefixStays(w.arrived, e.data, w.released); }
  }

  lemma PrefixStays<T>(a: seq<T>, x: T, n: nat)
    requires n <= |a|
    ensures (a + [x])[..n] == a[..n]
  {
  }

  lemma NextKeeps(w: World, e: Event)
    requires Good(w)
    ensures Good(Next(w, e))
  {
    match e
    case Restarted(active) => AfreshGood(Restart(w.state, active));
    case PortWasReset => AfreshGood(PortReset(w.state));
    case _ =>
      if w.state.failed { StoppedKeeps(w, e); } else if w.state.active { LiveKeeps(w, e); } else { IdleKeeps(w, e); }
  }

  function Start(buffers: seq<seq<byte>>): World {
    Afresh(State(false, false, [NO_SLOT, NO_SLOT], 0, [], 0, FRESH, buffers))
  }

  ghost predicate Buffers(buffers: seq<seq<byte>>) {
    |buffers| == SLOT_COUNT && |buffers[0]| == |buffers[1]| == Ncm.NTB_SIZE
  }

  ghost function Run(buffers: seq<seq<byte>>, events: seq<Event>): (w: World)
    requires Buffers(buffers)
    ensures Shaped(w.state)
  {
    if events == [] then Start(buffers)
    else
      var w := Run(buffers, events[..|events| - 1]);
      NextShaped(w, events[|events| - 1]);
      Next(w, events[|events| - 1])
  }

  lemma {:induction false} RunGood(buffers: seq<seq<byte>>, events: seq<Event>)
    requires Buffers(buffers)
    ensures Good(Run(buffers, events))
  {
    if events == [] {
      AfreshGood(Start(buffers).state);
    } else {
      var front, e := events[..|events| - 1], events[|events| - 1];
      RunGood(buffers, front);
      NextKeeps(Run(buffers, front), e);
    }
  }

  /**
   In every run since the last restart, while no transfer has failed: from the read index the slots are
   completed, then armed, then free; the outstanding descriptors of a function in use are exactly the armed
   slots', oldest first; and what was delivered is the datagrams of the arrived blocks, in order and once
   each, up to the read position. After a failure it stays a beginning of them.
   */
  lemma ArrivalOrder(buffers: seq<seq<byte>>, events: seq<Event>)
    requires Buffers(buffers)
    ensures
      var w := Run(buffers, events);
      && Shaped(w.state) && w.released <= |w.arrived| && AllFrames(w.arrived[..w.released]) <= w.delivered
      && (!w.state.failed ==> Ordered(w.state) && Current(w))
      && (!w.state.failed && w.state.active ==> Owned(w.state, w.list))
  {
    var w := Run(buffers, events);
    RunGood(buffers, events);
    assert AllFrames(w.arrived[..w.released]) + [] == AllFrames(w.arrived[..w.released]);
  }

  /** Nothing that arrived before the read position is missing from what was delivered, and nothing else is in it. */
  ghost predicate Current(w: World)
    requires Shaped(w.state) && w.released <= |w.arrived|
  {
    if w.state.block == [] then w.delivered == AllFrames(w.arrived[..w.released])
    else
      && w.released < |w.arrived| && w.state.cursor <= |Listing(w.arrived[w.released])|
      && w.delivered == AllFrames(w.arrived[..w.released])
                        + Slices(w.arrived[w.released], Listing(w.arrived[w.released])[..w.state.cursor])
  }

  /** Two buffers are too few to overtake the link: a controller that is at it can always follow it. */
  lemma LinkAlwaysFollowed(buffers: seq<seq<byte>>, events: seq<Event>)
    requires Buffers(buffers)
    ensures
      var w := Run(buffers, events);
      w.state.active && !w.state.failed && w.list.atLink ==>
        Inv(w.state.ring, w.list) && Sees(w.state.ring, Position(w.list))
  {
    var w := Run(buffers, events);
    RunGood(buffers, events);
    if w.state.active && !w.state.failed && w.list.atLink {
      XR.LinkFollowed(w.state.ring, w.list);
    }
  }

  /** A buffer is read only while no descriptor names it: the controller cannot be writing it. */
  lemma {:induction false} ReadsOwnBuffer(w: World, halted: bool, k: nat)
    requires Good(w) && Receive(w.state, halted).frame.Some? && w.list.done <= k < |w.list.all|
    ensures w.list.all[k] != Descriptor(w.state.index)
  {
    assert w.state.active && !w.state.failed && Live(w) && Here(w.state).Full();
    OwnSlot(w.state, w.list, k);
  }

  lemma OwnSlot(s: State, l: List, k: nat)
    requires Shaped(s) && Ordered(s) && Owned(s, l) && Here(s).Full() && l.done <= k < |l.all|
    ensures l.all[k] != Descriptor(s.index)
  {
    assert Count(s, 1) <= 1 && Beyond(s).Armed();
  }
}
