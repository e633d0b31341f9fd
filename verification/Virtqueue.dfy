/**
 A split virtqueue (section 2.7 of Virtio 1.2) read from memory that the guest may change between any
 two accesses: the byte read by access number `t` is whatever the guest has there at time `t`.
 */
module Virtqueue {
  import opened Types
  import Loader

  const QUEUE_SIZE := 128
  const U16_LIMIT := 0x1_0000

  // ---- Guest memory -------------------------------------------------------------------------

  /** `guest(t, a)` is the byte at `a` when the device makes its access number `t`. */
  datatype Env = Env(guest: (nat, nat) -> byte, high: nat) {
    /** RAM the guest may name: the low range that excludes EL2's own, or the high range. */
    predicate Valid(address: nat, length: nat) {
      || Loader.GuestRange(address, length)
      || (U32_LIMIT <= address && length != 0 && address + length < U64_LIMIT && address + length <= high)
    }
  }

  datatype Access = Load(address: nat, bytes: seq<byte>) | Store(address: nat, bytes: seq<byte>)

  datatype Host = Host(env: Env, log: seq<Access>)

  function Seen(env: Env, t: nat, address: nat, n: nat): (bytes: seq<byte>)
    ensures |bytes| == n && forall i: nat :: i < n ==> bytes[i] == env.guest(t, address + i)
  {
    seq<byte>(n, i requires 0 <= i < n => env.guest(t, address + i))
  }

  datatype Fetched = Fetched(host: Host, bytes: Option<seq<byte>>)

  function Fetch(h: Host, address: nat, n: nat): (f: Fetched)
    ensures f.bytes.Some? ==> |f.bytes.value| == n
  {
    if h.env.Valid(address, n) then
      var bytes := Seen(h.env, |h.log|, address, n);
      Fetched(h.(log := h.log + [Load(address, bytes)]), Some(bytes))
    else Fetched(h, None)
  }

  datatype Put = Put(host: Host, done: bool)

  function Write(h: Host, address: nat, bytes: seq<byte>): Put {
    if h.env.Valid(address, |bytes|) then Put(h.(log := h.log + [Store(address, bytes)]), true) else Put(h, false)
  }

  lemma SubrangeValid(env: Env, address: nat, length: nat, from: nat, n: nat)
    requires env.Valid(address, length) && n > 0 && address <= from && from + n <= address + length
    ensures env.Valid(from, n)
  {
  }

  // ---- Descriptors ------------------------------------------------------------------------------

  function Word16(b: seq<byte>, at: nat): (v: nat)
    requires at + 2 <= |b|
    ensures v < U16_LIMIT
  {
    Loader.U16(b, at)
  }

  datatype Descriptor = Descriptor(address: nat, length: nat, flags: nat, next: nat)

  function Parse(b: seq<byte>): Descriptor
    requires |b| == 16
  {
    Descriptor(Loader.U64(b, 0), Loader.U32(b, 8), Loader.U16(b, 12), Loader.U16(b, 14))
  }

  /** Only the NEXT and WRITE flags, the wanted direction, and a nonempty range of guest RAM. */
  predicate Usable(env: Env, d: Descriptor, writable: bool) {
    d.flags <= 3 && (d.flags >= 2) == writable && d.length != 0 && env.Valid(d.address, d.length)
  }

  predicate HasNext(d: Descriptor) { d.flags % 2 == 1 }

  function Upto(n: nat): (s: set<nat>)
    ensures |s| == n && forall i: nat :: i in s <==> i < n
  {
    if n == 0 then {} else Upto(n - 1) + {n - 1}
  }

  lemma FewerLeft(num: nat, seen: set<nat>, index: nat)
    requires index < num && index !in seen
    ensures |Upto(num) - (seen + {index})| == |Upto(num) - seen| - 1
  {
    var less := Upto(num) - (seen + {index});
    assert less + {index} == Upto(num) - seen && index !in less;
  }

  datatype Walked = Walked(host: Host, chain: Option<seq<Descriptor>>)

  function Walk(h: Host, desc: nat, num: nat, writable: bool, index: nat, seen: set<nat>): Walked
    decreases |Upto(num) - seen|
  {
    if index >= num || index in seen then Walked(h, None)
    else
      var f := Fetch(h, desc + 16 * index, 16);
      if f.bytes.None? then Walked(f.host, None)
      else
        var d := Parse(f.bytes.value);
        if !Usable(h.env, d, writable) then Walked(f.host, None)
        else if !HasNext(d) then Walked(f.host, Some([d]))
        else
          FewerLeft(num, seen, index);
          var rest := Walk(f.host, desc, num, writable, d.next, seen + {index});
          Walked(rest.host, if rest.chain.None? then None else Some([d] + rest.chain.value))
  }

  // ---- Links followed through a changing table --------------------------------------------------

  /** Descriptor `index` as access `t` finds it. */
  type Table = (nat, nat) -> Descriptor

  /** The index reached after following `k` links, one access each, from access `t` on. */
  function Reached(table: Table, t: nat, head: nat, k: nat): nat {
    if k == 0 then head else table(t + k - 1, Reached(table, t, head, k - 1)).next
  }

  function Met(table: Table, t: nat, head: nat, k: nat): Descriptor { table(t + k, Reached(table, t, head, k)) }

  /** `n` linked descriptors: in range, no index twice, each fit, and only the last without a link. */
  ghost predicate WellFormed(table: Table, fit: Descriptor -> bool, t: nat, num: nat, head: nat, n: nat) {
    && n > 0
    && (forall k: nat :: k < n ==>
          && Reached(table, t, head, k) < num && fit(Met(table, t, head, k))
          && (HasNext(Met(table, t, head, k)) <==> k < n - 1))
    && forall j: nat, k: nat :: j < k < n ==> Reached(table, t, head, j) != Reached(table, t, head, k)
  }

  ghost predicate Avoids(table: Table, t: nat, head: nat, n: nat, seen: set<nat>) {
    forall k: nat :: k < n ==> Reached(table, t, head, k) !in seen
  }

  function Chain(table: Table, t: nat, head: nat, n: nat): (s: seq<Descriptor>)
    ensures |s| == n && forall k: nat :: k < n ==> s[k] == Met(table, t, head, k)
  {
    seq(n, k requires 0 <= k < n => Met(table, t, head, k))
  }

  function Follow(table: Table, fit: Descriptor -> bool, t: nat, num: nat, index: nat, seen: set<nat>)
    : Option<seq<Descriptor>>
    decreases |Upto(num) - seen|
  {
    if index >= num || index in seen then None
    else
      var d := table(t, index);
      if !fit(d) then None
      else if !HasNext(d) then Some([d])
      else
        FewerLeft(num, seen, index);
        var rest := Follow(table, fit, t + 1, num, d.next, seen + {index});
        if rest.None? then None else Some([d] + rest.value)
  }

  lemma {:induction false} ReachedShift(table: Table, t: nat, head: nat, k: nat)
    ensures Reached(table, t, head, k + 1) == Reached(table, t + 1, table(t, head).next, k)
    ensures Met(table, t, head, k + 1) == Met(table, t + 1, table(t, head).next, k)
  {
    if k == 0 {
      assert Reached(table, t, head, 0) == head;
    } else {
      ReachedShift(table, t, head, k - 1);
    }
  }

  /** A chain is the first descriptor and the chain that its link starts one access later. */
  lemma Unlink(table: Table, fit: Descriptor -> bool, t: nat, num: nat, head: nat, n: nat, seen: set<nat>)
    requires WellFormed(table, fit, t, num, head, n) && Avoids(table, t, head, n, seen) && n > 1
    ensures WellFormed(table, fit, t + 1, num, table(t, head).next, n - 1)
    ensures Avoids(table, t + 1, table(t, head).next, n - 1, seen + {head})
  {
    var next, u := table(t, head).next, t + 1;
    forall k: nat | k < n - 1
      ensures Reached(table, u, next, k) == Reached(table, t, head, k + 1)
      ensures Met(table, u, next, k) == Met(table, t, head, k + 1) {
      ReachedShift(table, t, head, k);
    }
    assert Reached(table, t, head, 0) == head;
  }

  lemma Link(table: Table, fit: Descriptor -> bool, t: nat, num: nat, head: nat, n: nat, seen: set<nat>)
    requires head < num && head !in seen && fit(table(t, head)) && HasNext(table(t, head))
    requires WellFormed(table, fit, t + 1, num, table(t, head).next, n)
    requires Avoids(table, t + 1, table(t, head).next, n, seen + {head})
    ensures WellFormed(table, fit, t, num, head, n + 1) && Avoids(table, t, head, n + 1, seen)
  {
    var next := table(t, head).next;
    assert Met(table, t, head, 0) == table(t, head);
    forall k: nat | 0 < k < n + 1
      ensures Reached(table, t, head, k) == Reached(table, t + 1, next, k - 1)
      ensures Met(table, t, head, k) == Met(table, t + 1, next, k - 1) {
      ReachedShift(table, t, head, k - 1);
    }
  }

  lemma ChainUnlink(table: Table, t: nat, head: nat, n: nat)
    requires n > 0
    ensures Chain(table, t, head, n) == [table(t, head)] + Chain(table, t + 1, table(t, head).next, n - 1)
  {
    assert Met(table, t, head, 0) == table(t, head);
    var next, u := table(t, head).next, t + 1;
    forall k: nat | k < n - 1 ensures Met(table, t, head, k + 1) == Met(table, u, next, k) {
      ReachedShift(table, t, head, k);
    }
  }

  lemma {:induction false} FollowAccepted(
    table: Table, fit: Descriptor -> bool, t: nat, num: nat, index: nat, seen: set<nat>) returns (n: nat)
    requires Follow(table, fit, t, num, index, seen).Some?
    ensures WellFormed(table, fit, t, num, index, n) && Avoids(table, t, index, n, seen)
    decreases |Upto(num) - seen|
  {
    var d := table(t, index);
    if HasNext(d) {
      FewerLeft(num, seen, index);
      var m := FollowAccepted(table, fit, t + 1, num, d.next, seen + {index});
      Link(table, fit, t, num, index, m, seen);
      n := m + 1;
    } else {
      n := 1;
      assert Met(table, t, index, 0) == d;
    }
  }

  lemma {:induction false} FollowFinds(
    table: Table, fit: Descriptor -> bool, t: nat, num: nat, index: nat, seen: set<nat>, n: nat)
    requires WellFormed(table, fit, t, num, index, n) && Avoids(table, t, index, n, seen)
    ensures Follow(table, fit, t, num, index, seen) == Some(Chain(table, t, index, n))
    decreases n
  {
    assert Reached(table, t, index, 0) == index && Met(table, t, index, 0) == table(t, index);
    ChainUnlink(table, t, index, n);
    var next := table(t, index).next;
    if n > 1 {
      Unlink(table, fit, t, num, index, n, seen);
      FollowFinds(table, fit, t + 1, num, next, seen + {index}, n - 1);
    } else {
      assert !HasNext(Met(table, t, index, 0));
      assert Chain(table, t + 1, next, 0) == [];
      assert Chain(table, t, index, n) == [table(t, index)];
    }
  }

  // ---- The walk follows the guest's table ------------------------------------------------------------

  function TableAt(env: Env, desc: nat): Table {
    (t: nat, index: nat) => Parse(Seen(env, t, desc + 16 * index, 16))
  }

  function Fit(env: Env, writable: bool): Descriptor -> bool { (d: Descriptor) => Usable(env, d, writable) }

  /** One descriptor read, and the walk from its link on. */
  lemma WalkStep(h: Host, desc: nat, num: nat, writable: bool, index: nat, seen: set<nat>) returns (f: Host)
    requires h.env.Valid(desc, 16 * num) && index < num && index !in seen
    ensures f.env == h.env && |f.log| == |h.log| + 1 && Quiet(h, f)
    ensures
      var d := TableAt(h.env, desc)(|h.log|, index);
      var rest := Walk(f, desc, num, writable, d.next, seen + {index});
      Walk(h, desc, num, writable, index, seen)
      == if !Usable(h.env, d, writable) then Walked(f, None)
         else if !HasNext(d) then Walked(f, Some([d]))
         else Walked(rest.host, if rest.chain.None? then None else Some([d] + rest.chain.value))
  {
    SubrangeValid(h.env, desc, 16 * num, desc + 16 * index, 16);
    f := Fetch(h, desc + 16 * index, 16).host;
  }

  lemma {:induction false} WalkFollows(h: Host, desc: nat, num: nat, writable: bool, index: nat, seen: set<nat>)
    requires h.env.Valid(desc, 16 * num)
    ensures Walk(h, desc, num, writable, index, seen).chain
         == Follow(TableAt(h.env, desc), Fit(h.env, writable), |h.log|, num, index, seen)
    decreases |Upto(num) - seen|
  {
    if index < num && index !in seen {
      var f := WalkStep(h, desc, num, writable, index, seen);
      var d := TableAt(h.env, desc)(|h.log|, index);
      FewerLeft(num, seen, index);
      WalkFollows(f, desc, num, writable, d.next, seen + {index});
    }
  }

  /**
   Whatever the guest does to the table meanwhile, the walk accepts exactly the chains whose
   descriptors, as read, are in range, acyclic and of the wanted direction, and returns them in order.
   */
  lemma WalkExact(h: Host, desc: nat, num: nat, writable: bool, head: nat)
    requires h.env.Valid(desc, 16 * num)
    ensures
      var table, fit := TableAt(h.env, desc), Fit(h.env, writable);
      && (Walk(h, desc, num, writable, head, {}).chain.Some? <==>
          exists n: nat :: WellFormed(table, fit, |h.log|, num, head, n))
      && forall n: nat :: WellFormed(table, fit, |h.log|, num, head, n) ==>
           Walk(h, desc, num, writable, head, {}).chain == Some(Chain(table, |h.log|, head, n))
  {
    var table, fit := TableAt(h.env, desc), Fit(h.env, writable);
    WalkFollows(h, desc, num, writable, head, {});
    if Follow(table, fit, |h.log|, num, head, {}).Some? {
      var n := FollowAccepted(table, fit, |h.log|, num, head, {});
    }
    forall n: nat | WellFormed(table, fit, |h.log|, num, head, n)
      ensures Follow(table, fit, |h.log|, num, head, {}) == Some(Chain(table, |h.log|, head, n)) {
      FollowFinds(table, fit, |h.log|, num, head, {}, n);
    }
  }

  // ---- What the walk touches -----------------------------------------------------------------------------

  ghost predicate Extends(before: Host, after: Host) { after.env == before.env && before.log <= after.log }

  /** Between the two the device only read. */
  ghost predicate Quiet(before: Host, after: Host) {
    Extends(before, after) && forall k: nat :: |before.log| <= k < |after.log| ==> after.log[k].Load?
  }

  /** Buffers a chain hands over, all of them guest RAM. */
  ghost predicate AllValid(env: Env, chain: seq<Descriptor>) {
    forall k: nat :: k < |chain| ==> env.Valid(chain[k].address, chain[k].length)
  }

  /** The walk only reads, never more than one descriptor for each unvisited index. */
  ghost predicate Walks(h: Host, w: Walked, limit: nat) {
    && Quiet(h, w.host) && |w.host.log| - |h.log| <= limit
    && (w.chain.Some? ==> 1 <= |w.chain.value| == |w.host.log| - |h.log|)
  }

  lemma {:induction false} WalkBounded(h: Host, desc: nat, num: nat, writable: bool, index: nat, seen: set<nat>)
    requires h.env.Valid(desc, 16 * num)
    ensures Walks(h, Walk(h, desc, num, writable, index, seen), |Upto(num) - seen|)
    decreases |Upto(num) - seen|
  {
    if index < num && index !in seen {
      var f := WalkStep(h, desc, num, writable, index, seen);
      var d := TableAt(h.env, desc)(|h.log|, index);
      FewerLeft(num, seen, index);
      WalkBounded(f, desc, num, writable, d.next, seen + {index});
    }
  }

  lemma {:induction false} FollowFit(
    table: Table, fit: Descriptor -> bool, t: nat, num: nat, index: nat, seen: set<nat>)
    requires Follow(table, fit, t, num, index, seen).Some?
    ensures forall d :: d in Follow(table, fit, t, num, index, seen).value ==> fit(d)
    decreases |Upto(num) - seen|
  {
    var d := table(t, index);
    if HasNext(d) {
      FewerLeft(num, seen, index);
      FollowFit(table, fit, t + 1, num, d.next, seen + {index});
    }
  }

  /** Every descriptor of a chain but the last has a next one. */
  lemma {:induction false} FollowLinks(
    table: Table, fit: Descriptor -> bool, t: nat, num: nat, index: nat, seen: set<nat>)
    requires Follow(table, fit, t, num, index, seen).Some?
    ensures
      var chain := Follow(table, fit, t, num, index, seen).value;
      chain != [] && forall k: nat :: k < |chain| ==> (HasNext(chain[k]) <==> k < |chain| - 1)
    decreases |Upto(num) - seen|
  {
    var d := table(t, index);
    if HasNext(d) {
      FewerLeft(num, seen, index);
      FollowLinks(table, fit, t + 1, num, d.next, seen + {index});
    }
  }

  /** The fields of a sixteen-byte descriptor: address, length, flags and next, lowest bytes first. */
  lemma DescriptorLayout(b: seq<byte>)
    requires |b| == 16
    ensures
      var d := Parse(b);
      && d.address
         == b[0] as nat + 0x100 * b[1] as nat + 0x1_0000 * b[2] as nat + 0x100_0000 * b[3] as nat
            + 0x1_0000_0000 * (b[4] as nat + 0x100 * b[5] as nat + 0x1_0000 * b[6] as nat + 0x100_0000 * b[7] as nat)
      && d.length == b[8] as nat + 0x100 * b[9] as nat + 0x1_0000 * b[10] as nat + 0x100_0000 * b[11] as nat
      && d.flags == b[12] as nat + 0x100 * b[13] as nat && d.next == b[14] as nat + 0x100 * b[15] as nat
  {
  }

  /** Every buffer of an accepted chain, by its address, its direction and its place in the chain. */
  lemma WalkUsable(h: Host, desc: nat, num: nat, writable: bool, head: nat)
    requires h.env.Valid(desc, 16 * num) && Walk(h, desc, num, writable, head, {}).chain.Some?
    ensures AllValid(h.env, Walk(h, desc, num, writable, head, {}).chain.value)
    ensures
      forall d :: d in Walk(h, desc, num, writable, head, {}).chain.value ==>
        d.flags in {0, 1, 2, 3} && (d.flags in {2, 3} <==> writable) && Outside(h.env, d)
  {
    var fit, chain := Fit(h.env, writable), Walk(h, desc, num, writable, head, {}).chain.value;
    WalkFollows(h, desc, num, writable, head, {});
    FollowFit(TableAt(h.env, desc), fit, |h.log|, num, head, {});
    forall d | d in chain
      ensures h.env.Valid(d.address, d.length) && d.flags in {0, 1, 2, 3} && (d.flags in {2, 3} <==> writable)
      ensures Outside(h.env, d) {
      assert fit(d);
      UsableOutside(h.env, d, writable);
    }
  }

  /** And exactly those that are not the last name a next one. */
  lemma WalkLinks(h: Host, desc: nat, num: nat, writable: bool, head: nat)
    requires h.env.Valid(desc, 16 * num) && Walk(h, desc, num, writable, head, {}).chain.Some?
    ensures
      var chain := Walk(h, desc, num, writable, head, {}).chain.value;
      chain != [] && forall k: nat :: k < |chain| ==> (chain[k].flags in {1, 3} <==> k < |chain| - 1)
  {
    var chain := Walk(h, desc, num, writable, head, {}).chain.value;
    WalkFollows(h, desc, num, writable, head, {});
    FollowLinks(TableAt(h.env, desc), Fit(h.env, writable), |h.log|, num, head, {});
    WalkUsable(h, desc, num, writable, head);
    forall k: nat | k < |chain| ensures chain[k].flags in {1, 3} <==> HasNext(chain[k]) {
      assert chain[k] in chain;
    }
  }

  /** A buffer of guest RAM, below 4 GiB clear of EL2's memory, its boot stack and the framebuffer. */
  predicate Outside(env: Env, d: Descriptor) {
    && d.length > 0 && 0x8000_0000 <= d.address
    && (d.address < 0x1_0000_0000 ==>
          && d.address + d.length <= 0xfec0_0000
          && (d.address + d.length <= 0x8a7f_0000 || 0x8a80_0000 <= d.address)
          && (d.address + d.length <= 0xf5a0_0000 || 0xf5e0_0000 <= d.address))
    && (0x1_0000_0000 <= d.address ==> d.address + d.length <= env.high)
  }

  lemma UsableOutside(env: Env, d: Descriptor, writable: bool)
    requires Usable(env, d, writable)
    ensures Outside(env, d)
  {
  }
}
