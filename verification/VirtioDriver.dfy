/** The device as the program runs it: one descriptor chain at a time, in loops over guest memory. */
module VirtioDriver {
  import opened Types
  import opened Virtqueue
  import opened Scatter

  /** Guest RAM behind the access checks; the log is the device's clock. */
  class GuestMemory {
    const env: Env
    var log: seq<Access>

    constructor (e: Env)
      ensures env == e && log == []
    {
      env, log := e, [];
    }

    function View(): Host
      reads this
    {
      Host(env, log)
    }

    method Read(address: nat, n: nat) returns (bytes: Option<seq<byte>>)
      modifies this
      ensures Fetched(View(), bytes) == Fetch(old(View()), address, n)
    {
      var f := Fetch(View(), address, n);
      log := f.host.log;
      bytes := f.bytes;
    }

    method Write(address: nat, bytes: seq<byte>) returns (done: bool)
      modifies this
      ensures Put(View(), done) == Virtqueue.Write(old(View()), address, bytes)
    {
      var p := Virtqueue.Write(View(), address, bytes);
      log := p.host.log;
      done := p.done;
    }
  }

  lemma {:induction false} TotalAppend(chain: seq<Descriptor>, d: Descriptor)
    ensures Total(chain + [d]) == Total(chain) + d.length
  {
    if chain == [] {
      assert [d][1..] == [];
    } else {
      assert (chain + [d])[1..] == chain[1..] + [d];
      TotalAppend(chain[1..], d);
    }
  }

  lemma {:induction false} RoomLeft(num: nat, seen: set<nat>, index: nat)
    requires index < num && index !in seen && forall i :: i in seen ==> i < num
    ensures |seen| < num && |seen + {index}| == |seen| + 1
  {
    assert seen + {index} <= Upto(num);
    SubsetSize(seen + {index}, Upto(num));
  }

  lemma {:induction false} SubsetSize(a: set<nat>, b: set<nat>)
    requires a <= b
    ensures |a| <= |b|
  {
    if a != {} {
      var x :| x in a;
      SubsetSize(a - {x}, b - {x});
    }
  }

  /** The visited indices, one flag each. */
  ghost predicate Marks(bits: seq<bool>, seen: set<nat>, num: nat) {
    && num <= |bits| == QUEUE_SIZE && (forall i :: i in seen ==> i < num)
    && forall i: nat :: i < num ==> (bits[i] <==> i in seen)
  }

  lemma MarksAdd(bits: seq<bool>, seen: set<nat>, num: nat, index: nat)
    requires Marks(bits, seen, num) && index < num
    ensures Marks(bits[index := true], seen + {index}, num)
  {
  }

  /** The walk from its start, given what it has collected and what it does from here. */
  ghost predicate Continues(whole: Walked, done: seq<Descriptor>, rest: Walked) {
    whole == Walked(rest.host, if rest.chain.None? then None else Some(done + rest.chain.value))
  }

  class Chain {
    const segments: array<Descriptor>
    var count: nat
    var length: nat

    ghost predicate Valid()
      reads this, segments
    {
      segments.Length == QUEUE_SIZE && count <= QUEUE_SIZE && length == Total(View())
    }

    ghost function View(): seq<Descriptor>
      requires count <= segments.Length
      reads this, segments
    {
      segments[..count]
    }

    constructor ()
      ensures Valid() && fresh(segments)
    {
      segments := new Descriptor[QUEUE_SIZE](_ => Descriptor(0, 0, 0, 0));
      count, length := 0, 0;
    }

    method Append(d: Descriptor)
      requires Valid() && count < QUEUE_SIZE
      modifies this, segments
      ensures Valid() && View() == old(View()) + [d]
    {
      TotalAppend(View(), d);
      ghost var before := View();
      segments[count] := d;
      count, length := count + 1, length + d.length;
      assert View() == before + [d];
    }

    /** Read descriptor `index` and keep its buffer, unless it is not one the device may use. */
    method Collect(memory: GuestMemory, desc: nat, num: nat, writable: bool, index: nat,
                   ghost whole: Walked, ghost seen: set<nat>)
      returns (d: Option<Descriptor>)
      requires Valid() && num <= QUEUE_SIZE && count == |seen| && index < num && index !in seen
      requires forall i :: i in seen ==> i < num
      requires Continues(whole, View(), Walk(memory.View(), desc, num, writable, index, seen))
      modifies this, segments, memory
      ensures Valid()
      ensures d.None? ==> whole == Walked(memory.View(), None)
      ensures d.Some? ==> count == |seen + {index}| && count <= num
      ensures d.Some? && !HasNext(d.value) ==> whole == Walked(memory.View(), Some(View()))
      ensures d.Some? && HasNext(d.value) ==>
                Continues(whole, View(), Walk(memory.View(), desc, num, writable, d.value.next, seen + {index}))
    {
      RoomLeft(num, seen, index);
      Onward(whole, View(), memory.View(), desc, num, writable, index, seen);
      var bytes := memory.Read(desc + 16 * index, 16);
      if bytes.None? { return None; }
      var found := Parse(bytes.value);
      if !Usable(memory.env, found, writable) { return None; }
      Append(found);
      return Some(found);
    }

    /** Follow the links from `head`, collecting buffers, until one has none or the walk must stop. */
    method Follow(memory: GuestMemory, desc: nat, num: nat, writable: bool, head: nat) returns (ok: bool)
      requires Valid() && num <= QUEUE_SIZE
      modifies this, segments, memory
      ensures Valid()
      ensures
        var w := Walk(old(memory.View()), desc, num, writable, head, {});
        memory.View() == w.host && ok == w.chain.Some? && (ok ==> View() == w.chain.value)
    {
      ghost var whole := Walk(memory.View(), desc, num, writable, head, {});
      count, length := 0, 0;
      var index: nat := head;
      var bits: seq<bool> := seq(QUEUE_SIZE, _ => false);
      ghost var seen: set<nat> := {};
      if whole.chain.Some? { assert View() + whole.chain.value == whole.chain.value; }
      while true
        invariant Valid() && count == |seen| && Marks(bits, seen, num)
        invariant Continues(whole, View(), Walk(memory.View(), desc, num, writable, index, seen))
        decreases num - count
      {
        if index >= num || bits[index] { return false; }
        var d := Collect(memory, desc, num, writable, index, whole, seen);
        if d.None? { return false; }
        if !HasNext(d.value) { return true; }
        MarksAdd(bits, seen, num, index);
        bits := bits[index := true];
        seen := seen + {index};
        index := d.value.next;
      }
    }

    method Piece(memory: GuestMemory, ghost whole: Fetched, ghost got: seq<byte>, ghost rest: seq<Descriptor>,
                 offset: nat, n: nat, address: nat, size: nat)
      returns (part: Option<seq<byte>>)
      requires rest != [] && offset < rest[0].length
      requires address == rest[0].address && size == Least(rest[0].length - offset, n)
      requires Gathers(whole, got, Gather(memory.View(), rest, offset, n))
      modifies memory
      ensures part.None? ==> whole == Fetched(memory.View(), None)
      ensures part.Some? ==> |part.value| == Least(rest[0].length - offset, n)
      ensures part.Some? && |part.value| == n ==> whole == Fetched(memory.View(), Some(got + part.value))
      ensures part.Some? && |part.value| < n ==>
                Gathers(whole, got + part.value, Gather(memory.View(), rest[1..], 0, n - |part.value|))
    {
      GathersOn(whole, got, memory.View(), rest, offset, n);
      part := memory.Read(address + offset, size);
    }

    method Read(memory: GuestMemory, from: nat, n: nat) returns (bytes: Option<seq<byte>>)
      requires Valid()
      modifies memory
      ensures Fetched(memory.View(), bytes) == Gather(old(memory.View()), View(), from, n)
    {
      ghost var whole := Gather(memory.View(), View(), from, n);
      var offset: nat, i, got: seq<byte> := from, 0, [];
      assert View()[0..] == View();
      if whole.bytes.Some? { assert got + whole.bytes.value == whole.bytes.value; }
      ghost var rest := View();
      var left := n;
      while i < count
        invariant i <= count && |got| + left == n && (n == 0 || left > 0) && rest == View()[i..]
        invariant Gathers(whole, got, Gather(memory.View(), rest, offset, left))
      {
        var d := segments[i];
        ghost var h := memory.View();
        if offset >= d.length {
          GathersPast(whole, got, h, rest, offset, left);
          offset := offset - d.length;
        } else {
          var size := Least(d.length - offset, left);
          assert rest[0] == d;
          var part := Piece(memory, whole, got, rest, offset, left, d.address, size);
          if part.None? { return None; }
          got := got + part.value;
          if size == left { return Some(got); }
          offset, left := 0, left - size;
        }
        i, rest := i + 1, rest[1..];
      }
      bytes := if left == 0 then Some(got) else None;
    }

    method Write(memory: GuestMemory, from: nat, bytes: seq<byte>) returns (done: bool)
      requires Valid()
      modifies memory
      ensures Put(memory.View(), done) == Spread(old(memory.View()), View(), from, bytes)
    {
      ghost var whole, rest := Spread(memory.View(), View(), from, bytes), View();
      var offset: nat, i, left := from, 0, bytes;
      while i < count
        invariant i <= count && (bytes == [] || left != []) && rest == View()[i..]
        invariant whole == Spread(memory.View(), rest, offset, left)
      {
        var d := segments[i];
        SpreadOn(memory.View(), rest, offset, left);
        if offset >= d.length {
          offset := offset - d.length;
        } else {
          var size := Least(d.length - offset, |left|);
          var ok := memory.Write(d.address + offset, left[..size]);
          if !ok { return false; }
          if size == |left| { return true; }
          offset, left := 0, left[size..];
        }
        i, rest := i + 1, rest[1..];
      }
      done := left == [];
    }
  }

  lemma SpreadOn(h: Host, chain: seq<Descriptor>, offset: nat, bytes: seq<byte>)
    requires chain != []
    ensures offset >= chain[0].length ==>
              Spread(h, chain, offset, bytes) == Spread(h, chain[1..], offset - chain[0].length, bytes)
    ensures offset < chain[0].length ==>
              var size := Least(chain[0].length - offset, |bytes|);
              var p := Virtqueue.Write(h, chain[0].address + offset, bytes[..size]);
              Spread(h, chain, offset, bytes)
              == if !p.done || size == |bytes| then p else Spread(p.host, chain[1..], 0, bytes[size..])
  {
  }

  ghost predicate Gathers(whole: Fetched, got: seq<byte>, rest: Fetched) {
    whole == Fetched(rest.host, if rest.bytes.None? then None else Some(got + rest.bytes.value))
  }

  lemma GathersPast(whole: Fetched, got: seq<byte>, h: Host, chain: seq<Descriptor>, offset: nat, n: nat)
    requires chain != [] && offset >= chain[0].length && Gathers(whole, got, Gather(h, chain, offset, n))
    ensures Gathers(whole, got, Gather(h, chain[1..], offset - chain[0].length, n))
  {
  }

  /** One piece read inside the first segment: failed, the last, or with the rest still to come. */
  lemma GathersOn(whole: Fetched, got: seq<byte>, h: Host, chain: seq<Descriptor>, offset: nat, n: nat)
    requires chain != [] && offset < chain[0].length && Gathers(whole, got, Gather(h, chain, offset, n))
    ensures
      var size := Least(chain[0].length - offset, n);
      var f := Fetch(h, chain[0].address + offset, size);
      if f.bytes.None? then whole == f
      else if size == n then whole == Fetched(f.host, Some(got + f.bytes.value))
      else Gathers(whole, got + f.bytes.value, Gather(f.host, chain[1..], 0, n - size))
  {
    var size := Least(chain[0].length - offset, n);
    var f := Fetch(h, chain[0].address + offset, size);
    if f.bytes.Some? && size < n {
      var rest := Gather(f.host, chain[1..], 0, n - size);
      if rest.bytes.Some? {
        assert got + (f.bytes.value + rest.bytes.value) == got + f.bytes.value + rest.bytes.value;
      }
    }
  }

  /** One descriptor read: unusable, the last, or with the rest still to come. */
  lemma Onward(whole: Walked, before: seq<Descriptor>, h: Host, desc: nat, num: nat, writable: bool, index: nat,
               seen: set<nat>)
    requires index < num && index !in seen
    requires Continues(whole, before, Walk(h, desc, num, writable, index, seen))
    ensures
      var f := Fetch(h, desc + 16 * index, 16);
      if f.bytes.None? then whole == Walked(f.host, None)
      else
        var d := Parse(f.bytes.value);
        if !Usable(h.env, d, writable) then whole == Walked(f.host, None)
        else if !HasNext(d) then whole == Walked(f.host, Some(before + [d]))
        else Continues(whole, before + [d], Walk(f.host, desc, num, writable, d.next, seen + {index}))
  {
    var f := Fetch(h, desc + 16 * index, 16);
    if f.bytes.Some? {
      var d := Parse(f.bytes.value);
      if Usable(h.env, d, writable) && HasNext(d) {
        var rest := Walk(f.host, desc, num, writable, d.next, seen + {index});
        if rest.chain.Some? { assert before + ([d] + rest.chain.value) == before + [d] + rest.chain.value; }
      }
    }
  }
}
