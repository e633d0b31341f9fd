/** A ring of eight Ethernet frames whose tail slot can be filled in place before it is committed. */
module FrameRing {
  import opened Types
  import opened Ncm

  const QUEUE_SIZE := 8

  /** The slot of the `k`-th frame when the oldest is in slot `head`. */
  function Slot(head: nat, k: nat): (i: nat)
    ensures i < QUEUE_SIZE
  {
    (head + k) % QUEUE_SIZE
  }

  function View(bytes: seq<seq<byte>>, lengths: seq<nat>, head: nat, count: nat): (fs: Frames)
    requires |bytes| == |lengths| == QUEUE_SIZE
    requires forall k: nat :: k < count ==> lengths[Slot(head, k)] <= |bytes[Slot(head, k)]|
    ensures |fs| == count && forall k: nat :: k < count ==>
      fs[k] == bytes[Slot(head, k)][..lengths[Slot(head, k)]]
  {
    seq(count, k requires 0 <= k < count => bytes[Slot(head, k)][..lengths[Slot(head, k)]])
  }

  lemma SlotsApart(head: nat, k: nat, j: nat)
    requires k < j < QUEUE_SIZE
    ensures Slot(head, k) != Slot(head, j)
  {
  }

  /** Giving the tail slot a length appends it and moves nothing else. */
  lemma Appended(bytes: seq<seq<byte>>, lengths: seq<nat>, head: nat, count: nat, length: nat)
    requires |bytes| == |lengths| == QUEUE_SIZE && count < QUEUE_SIZE && length <= |bytes[Slot(head, count)]|
    requires forall k: nat :: k < count ==> lengths[Slot(head, k)] <= |bytes[Slot(head, k)]|
    ensures var more := lengths[Slot(head, count) := length];
      && (forall k: nat :: k < count ==> more[Slot(head, k)] == lengths[Slot(head, k)])
      && View(bytes, more, head, count + 1) == View(bytes, lengths, head, count) + [bytes[Slot(head, count)][..length]]
  {
    forall k: nat | k < count ensures Slot(head, k) != Slot(head, count) { SlotsApart(head, k, count); }
  }

  class Ring {
    const bytes: array<seq<byte>>
    const lengths: array<nat>
    var head: nat
    var count: nat

    ghost predicate Valid()
      reads this, bytes, lengths
    {
      && bytes.Length == QUEUE_SIZE && lengths.Length == QUEUE_SIZE
      && head < QUEUE_SIZE && count <= QUEUE_SIZE
      && (forall k :: 0 <= k < QUEUE_SIZE ==> |bytes[k]| == FRAME_SIZE)
      && (forall k: nat :: k < count ==> 14 <= lengths[Slot(head, k)] <= FRAME_SIZE)
    }

    /** The committed frames, oldest first. */
    ghost function Contents(): (fs: Frames)
      requires Valid()
      reads this, bytes, lengths
      ensures |fs| == count && forall k: nat :: k < count ==>
        fs[k] == bytes[Slot(head, k)][..lengths[Slot(head, k)]] && FrameOk(fs[k])
    {
      View(bytes[..], lengths[..], head, count)
    }

    constructor ()
      ensures Valid() && Contents() == [] && fresh(bytes) && fresh(lengths)
    {
      bytes := new seq<byte>[QUEUE_SIZE](_ => seq(FRAME_SIZE, _ => 0));
      lengths := new nat[QUEUE_SIZE](_ => 0);
      head, count := 0, 0;
    }

    predicate Full()
      reads this
    {
      count == QUEUE_SIZE
    }

    method Front() returns (frame: Option<seq<byte>>)
      requires Valid()
      ensures frame == if Contents() == [] then None else Some(Contents()[0])
    {
      if count == 0 {
        return None;
      }
      assert Slot(head, 0) == head;
      return Some(bytes[head][..lengths[head]]);
    }

    /** Frame `k` of the iteration from the oldest. */
    method At(k: nat) returns (frame: seq<byte>)
      requires Valid() && k < count
      ensures frame == Contents()[k]
    {
      frame := bytes[Slot(head, k)][..lengths[Slot(head, k)]];
    }

    /** The reserved tail slot: invisible until committed. */
    ghost function Spare(): seq<byte>
      requires Valid() && !Full()
      reads this, bytes, lengths
    {
      bytes[Slot(head, count)]
    }

    method FillSpare(data: seq<byte>)
      requires Valid() && !Full() && |data| == FRAME_SIZE
      modifies bytes
      ensures Valid() && Contents() == old(Contents()) && Spare() == data
    {
      bytes[Slot(head, count)] := data;
    }

    method Commit(length: nat) returns (done: bool)
      requires Valid()
      modifies this`count, lengths
      ensures Valid()
      ensures done == (!old(Full()) && 14 <= length <= FRAME_SIZE)
      ensures done ==> Contents() == old(Contents()) + [old(Spare())[..length]]
      ensures !done ==> Contents() == old(Contents())
    {
      if Full() || !(14 <= length <= FRAME_SIZE) {
        return false;
      }
      Appended(bytes[..], lengths[..], head, count, length);
      ghost var more := lengths[..][Slot(head, count) := length];
      lengths[Slot(head, count)] := length;
      assert lengths[..] == more;
      count := count + 1;
      return true;
    }

    method Push(frame: seq<byte>) returns (done: bool)
      requires Valid()
      modifies this`count, bytes, lengths
      ensures Valid()
      ensures done == (!old(Full()) && FrameOk(frame))
      ensures Contents() == if done then old(Contents()) + [frame] else old(Contents())
    {
      if Full() || !FrameOk(frame) {
        return false;
      }
      FillSpare(frame + bytes[Slot(head, count)][|frame|..]);
      done := Commit(|frame|);
    }

    method Pop()
      requires Valid()
      modifies this
      ensures Valid()
      ensures Contents() == if old(Contents()) == [] then [] else old(Contents())[1..]
    {
      if count != 0 {
        ghost var before, was := Contents(), head;
        head := (head + 1) % QUEUE_SIZE;
        count := count - 1;
        assert forall k: nat :: k < count ==> Slot(head, k) == Slot(was, k + 1);
        assert forall k: nat :: k < count ==> Contents()[k] == before[k + 1];
      }
    }

    method Clear()
      requires Valid()
      modifies this
      ensures Valid() && Contents() == []
    {
      head, count := 0, 0;
    }
  }
}
