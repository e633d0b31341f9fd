/** Copying between a descriptor chain and a flat buffer, one segment at a time. */
module Scatter {
  import opened Types
  import opened Virtqueue

  function Total(chain: seq<Descriptor>): nat {
    if chain == [] then 0 else chain[0].length + Total(chain[1..])
  }

  /** The guest address of byte `j` of the chain's buffers laid end to end. */
  function Where(chain: seq<Descriptor>, j: nat): nat
    requires j < Total(chain)
  {
    if j < chain[0].length then chain[0].address + j else Where(chain[1..], j - chain[0].length)
  }

  function Least(a: nat, b: nat): nat { if a < b then a else b }

  /** `n` bytes from `offset` on; every segment but the first used is read from its start. */
  function Gather(h: Host, chain: seq<Descriptor>, offset: nat, n: nat): (f: Fetched)
    ensures f.bytes.Some? ==> |f.bytes.value| == n
    decreases |chain|
  {
    if chain == [] then Fetched(h, if n == 0 then Some([]) else None)
    else if offset >= chain[0].length then Gather(h, chain[1..], offset - chain[0].length, n)
    else
      var count := Least(chain[0].length - offset, n);
      var f := Fetch(h, chain[0].address + offset, count);
      if f.bytes.None? || count == n then f
      else
        var rest := Gather(f.host, chain[1..], 0, n - count);
        Fetched(rest.host, if rest.bytes.None? then None else Some(f.bytes.value + rest.bytes.value))
  }

  function Spread(h: Host, chain: seq<Descriptor>, offset: nat, bytes: seq<byte>): Put
    decreases |chain|
  {
    if chain == [] then Put(h, bytes == [])
    else if offset >= chain[0].length then Spread(h, chain[1..], offset - chain[0].length, bytes)
    else
      var count := Least(chain[0].length - offset, |bytes|);
      var p := Write(h, chain[0].address + offset, bytes[..count]);
      if !p.done || count == |bytes| then p else Spread(p.host, chain[1..], 0, bytes[count..])
  }

  // ---- Gathering -------------------------------------------------------------------------------

  /** Byte `a` as some access of `[from, to)` found it. */
  ghost predicate Found(env: Env, from: nat, to: nat, a: nat, b: byte) {
    exists t: nat :: from <= t < to && env.guest(t, a) == b
  }

  lemma FetchFound(h: Host, address: nat, n: nat, j: nat)
    requires h.env.Valid(address, n) && j < n
    ensures Found(h.env, |h.log|, |h.log| + 1, address + j, Fetch(h, address, n).bytes.value[j])
  {
    assert h.env.guest(|h.log|, address + j) == Fetch(h, address, n).bytes.value[j];
  }

  lemma ValidTail(env: Env, chain: seq<Descriptor>)
    requires AllValid(env, chain) && chain != []
    ensures env.Valid(chain[0].address, chain[0].length) && AllValid(env, chain[1..])
  {
    forall k: nat | k < |chain[1..]| ensures env.Valid(chain[1..][k].address, chain[1..][k].length) {
      assert chain[1..][k] == chain[k + 1];
    }
  }

  lemma FetchedQuiet(h: Host, address: nat, n: nat, after: Host)
    requires Quiet(Fetch(h, address, n).host, after)
    ensures Quiet(h, after)
  {
    var f := Fetch(h, address, n).host;
    assert forall k: nat :: k < |f.log| ==> after.log[k] == f.log[k];
  }

  /** A gather inside the chain never fails and only reads. */
  lemma {:induction false} GatherReads(h: Host, chain: seq<Descriptor>, offset: nat, n: nat)
    requires AllValid(h.env, chain) && 0 < n && offset + n <= Total(chain)
    ensures Quiet(h, Gather(h, chain, offset, n).host) && Gather(h, chain, offset, n).bytes.Some?
    decreases |chain|
  {
    ValidTail(h.env, chain);
    var d := chain[0];
    if offset >= d.length {
      GatherReads(h, chain[1..], offset - d.length, n);
    } else {
      var count := Least(d.length - offset, n);
      SubrangeValid(h.env, d.address, d.length, d.address + offset, count);
      var f := Fetch(h, d.address + offset, count);
      if count < n {
        GatherReads(f.host, chain[1..], 0, n - count);
        FetchedQuiet(h, d.address + offset, count, Gather(f.host, chain[1..], 0, n - count).host);
      }
    }
  }

  /** The first piece of a gather that starts inside the first segment. */
  lemma GatherHead(h: Host, chain: seq<Descriptor>, offset: nat, n: nat) returns (count: nat, f: Fetched)
    requires AllValid(h.env, chain) && 0 < n && offset + n <= Total(chain) && offset < chain[0].length
    ensures count == Least(chain[0].length - offset, n) && 0 < count
    ensures h.env.Valid(chain[0].address + offset, count) && f == Fetch(h, chain[0].address + offset, count)
    ensures |f.host.log| == |h.log| + 1 && f.host.env == h.env && f.bytes.Some?
    ensures AllValid(h.env, chain[1..]) && (count < n ==> n - count <= Total(chain[1..]))
    ensures
      var g, rest := Gather(h, chain, offset, n), Gather(f.host, chain[1..], 0, n - count);
      if count == n then g == f
      else rest.bytes.Some? && g == Fetched(rest.host, Some(f.bytes.value + rest.bytes.value))
    ensures |f.host.log| <= |Gather(h, chain, offset, n).host.log|
  {
    ValidTail(h.env, chain);
    var d := chain[0];
    count := Least(d.length - offset, n);
    SubrangeValid(h.env, d.address, d.length, d.address + offset, count);
    f := Fetch(h, d.address + offset, count);
    if count < n { GatherReads(f.host, chain[1..], 0, n - count); }
  }

  /** Byte `j` gathered is byte `offset + j` of the chain, as the guest had it during the gather. */
  lemma {:induction false} GatherFinds(h: Host, chain: seq<Descriptor>, offset: nat, n: nat, j: nat)
    requires AllValid(h.env, chain) && offset + n <= Total(chain) && j < n
    requires Gather(h, chain, offset, n).bytes.Some?
    ensures
      var f := Gather(h, chain, offset, n);
      Found(h.env, |h.log|, |f.host.log|, Where(chain, offset + j), f.bytes.value[j])
    decreases |chain|
  {
    var d := chain[0];
    if offset >= d.length {
      ValidTail(h.env, chain);
      GatherFinds(h, chain[1..], offset - d.length, n, j);
    } else {
      var count, f := GatherHead(h, chain, offset, n);
      var end := |Gather(h, chain, offset, n).host.log|;
      if j < count {
        FetchFound(h, d.address + offset, count, j);
        WidenFound(h.env, |h.log|, |h.log| + 1, |h.log|, end, Where(chain, offset + j), f.bytes.value[j]);
      } else {
        var rest := Gather(f.host, chain[1..], 0, n - count);
        GatherFinds(f.host, chain[1..], 0, n - count, j - count);
        WidenFound(h.env, |f.host.log|, end, |h.log|, end, Where(chain, offset + j), rest.bytes.value[j - count]);
      }
    }
  }

  lemma WidenFound(env: Env, from: nat, to: nat, from0: nat, to1: nat, a: nat, b: byte)
    requires Found(env, from, to, a, b) && from0 <= from && to <= to1
    ensures Found(env, from0, to1, a, b)
  {
  }

  // ---- Scattering --------------------------------------------------------------------------------

  type Memory = nat -> byte

  function Stored(m: Memory, address: nat, bytes: seq<byte>): Memory {
    (a: nat) => if address <= a < address + |bytes| then bytes[a - address] else m(a)
  }

  /** Memory after the stores in `log[from..]`. */
  function Effect(m: Memory, log: seq<Access>, from: nat): Memory
    requires from <= |log|
    decreases |log|
  {
    if |log| == from then m
    else
      var before := Effect(m, log[..|log| - 1], from);
      match log[|log| - 1]
      case Load(_, _) => before
      case Store(address, bytes) => Stored(before, address, bytes)
  }

  lemma {:induction false} EffectSplit(m: Memory, log: seq<Access>, from: nat, mid: nat)
    requires from <= mid <= |log|
    ensures Effect(m, log, from) == Effect(Effect(m, log[..mid], from), log, mid)
    decreases |log|
  {
    if mid == |log| {
      assert log[..mid] == log;
    } else {
      EffectSplit(m, log[..|log| - 1], from, mid);
      assert log[..|log| - 1][..mid] == log[..mid];
    }
  }

  /** No two positions of the chain's buffers share an address. */
  ghost predicate Disjoint(chain: seq<Descriptor>) {
    forall i: nat, j: nat :: i < j < Total(chain) ==> Where(chain, i) != Where(chain, j)
  }

  lemma DisjointTail(chain: seq<Descriptor>)
    requires Disjoint(chain) && chain != []
    ensures Disjoint(chain[1..])
    ensures forall j: nat :: j < Total(chain[1..]) ==>
              !(chain[0].address <= Where(chain[1..], j) < chain[0].address + chain[0].length)
  {
    var d, tail := chain[0], chain[1..];
    forall j: nat | j < Total(tail) ensures Where(tail, j) == Where(chain, d.length + j) {}
    forall i: nat, j: nat | i < j < Total(tail) ensures Where(tail, i) != Where(tail, j) {
      assert Where(chain, d.length + i) != Where(chain, d.length + j);
    }
    forall j: nat | j < Total(tail) ensures !(d.address <= Where(tail, j) < d.address + d.length) {
      if d.address <= Where(tail, j) < d.address + d.length { HeadApart(chain, Where(tail, j) - d.address, j); }
    }
  }

  lemma {:induction false} HeadApart(chain: seq<Descriptor>, k: nat, j: nat)
    requires Disjoint(chain) && chain != [] && k < chain[0].length && j < Total(chain[1..])
    ensures chain[0].address + k != Where(chain[1..], j)
  {
    assert Where(chain, k) != Where(chain, chain[0].length + j);
  }

  lemma {:induction false} SpreadWrites(h: Host, chain: seq<Descriptor>, offset: nat, bytes: seq<byte>)
    requires AllValid(h.env, chain) && bytes != [] && offset + |bytes| <= Total(chain)
    ensures Spread(h, chain, offset, bytes).done && Extends(h, Spread(h, chain, offset, bytes).host)
    decreases |chain|
  {
    ValidTail(h.env, chain);
    var d := chain[0];
    if offset >= d.length {
      SpreadWrites(h, chain[1..], offset - d.length, bytes);
    } else {
      var count := Least(d.length - offset, |bytes|);
      SubrangeValid(h.env, d.address, d.length, d.address + offset, count);
      var p := Write(h, d.address + offset, bytes[..count]);
      if count < |bytes| { SpreadWrites(p.host, chain[1..], 0, bytes[count..]); }
    }
  }

  /** `a` is one of the positions `from` to `to` of the chain. */
  ghost predicate Covered(chain: seq<Descriptor>, from: nat, to: nat, a: nat)
    requires to <= Total(chain)
  {
    exists i: nat :: from <= i < to && Where(chain, i) == a
  }

  lemma CoveredTail(chain: seq<Descriptor>, from: nat, to: nat, a: nat)
    requires chain != [] && chain[0].length <= from <= to <= Total(chain)
    ensures Covered(chain[1..], from - chain[0].length, to - chain[0].length, a) ==> Covered(chain, from, to, a)
  {
    var d, tail := chain[0], chain[1..];
    if Covered(tail, from - d.length, to - d.length, a) {
      var i: nat :| from - d.length <= i < to - d.length && Where(tail, i) == a;
      assert Where(chain, d.length + i) == a;
    }
  }

  /** The first piece of a spread that starts inside the first segment, and what the rest adds. */
  lemma SpreadHead(m: Memory, h: Host, chain: seq<Descriptor>, offset: nat, bytes: seq<byte>)
    returns (count: nat, p: Put)
    requires AllValid(h.env, chain) && bytes != [] && offset + |bytes| <= Total(chain) && offset < chain[0].length
    ensures count == Least(chain[0].length - offset, |bytes|) && 0 < count
    ensures p == Write(h, chain[0].address + offset, bytes[..count]) && p.done && p.host.env == h.env
    ensures Extends(h, p.host) && AllValid(h.env, chain[1..])
    ensures Effect(m, p.host.log, |h.log|) == Stored(m, chain[0].address + offset, bytes[..count])
    ensures count == |bytes| ==> Spread(h, chain, offset, bytes) == p
    ensures count < |bytes| ==>
      var rest := Spread(p.host, chain[1..], 0, bytes[count..]);
      && |bytes| - count <= Total(chain[1..]) && Spread(h, chain, offset, bytes) == rest && Extends(p.host, rest.host)
      && Effect(m, rest.host.log, |h.log|)
      == Effect(Stored(m, chain[0].address + offset, bytes[..count]), rest.host.log, |p.host.log|)
  {
    ValidTail(h.env, chain);
    var d := chain[0];
    count := Least(d.length - offset, |bytes|);
    SubrangeValid(h.env, d.address, d.length, d.address + offset, count);
    p := Write(h, d.address + offset, bytes[..count]);
    assert p.host.log[..|p.host.log| - 1] == h.log;
    assert Effect(m, h.log, |h.log|) == m;
    if count < |bytes| {
      SpreadWrites(p.host, chain[1..], 0, bytes[count..]);
      var rest := Spread(p.host, chain[1..], 0, bytes[count..]);
      EffectSplit(m, rest.host.log, |h.log|, |p.host.log|);
      assert rest.host.log[..|p.host.log|] == p.host.log;
    }
  }

  lemma HeadCovered(chain: seq<Descriptor>, from: nat, to: nat, a: nat)
    requires chain != [] && to <= Total(chain)
    requires chain[0].address + from <= a < chain[0].address + Least(chain[0].length, to)
    ensures Covered(chain, from, to, a)
  {
    var i: nat := a - chain[0].address;
    assert Where(chain, i) == a;
  }

  /** A spread leaves every address alone that is not one of its positions. */
  lemma {:induction false} SpreadSpares(
    m: Memory, h: Host, chain: seq<Descriptor>, offset: nat, bytes: seq<byte>, a: nat)
    requires AllValid(h.env, chain) && bytes != [] && offset + |bytes| <= Total(chain)
    requires !Covered(chain, offset, offset + |bytes|, a)
    ensures |h.log| <= |Spread(h, chain, offset, bytes).host.log|
    ensures Effect(m, Spread(h, chain, offset, bytes).host.log, |h.log|)(a) == m(a)
    decreases |chain|
  {
    SpreadWrites(h, chain, offset, bytes);
    ValidTail(h.env, chain);
    var d := chain[0];
    if offset >= d.length {
      CoveredTail(chain, offset, offset + |bytes|, a);
      SpreadSpares(m, h, chain[1..], offset - d.length, bytes, a);
    } else {
      var count, p := SpreadHead(m, h, chain, offset, bytes);
      if d.address + offset <= a < d.address + offset + count { HeadCovered(chain, offset, offset + |bytes|, a); }
      if count < |bytes| {
        CoveredTail(chain, d.length, offset + |bytes|, a);
        SpreadSpares(Stored(m, d.address + offset, bytes[..count]), p.host, chain[1..], 0, bytes[count..], a);
      }
    }
  }

  lemma LandsInHead(
    m: Memory, h: Host, chain: seq<Descriptor>, offset: nat, bytes: seq<byte>, j: nat)
    requires AllValid(h.env, chain) && Disjoint(chain) && offset + |bytes| <= Total(chain)
    requires chain != [] && j < |bytes| && offset + j < chain[0].length
    ensures |h.log| <= |Spread(h, chain, offset, bytes).host.log|
    ensures Effect(m, Spread(h, chain, offset, bytes).host.log, |h.log|)(chain[0].address + offset + j) == bytes[j]
  {
    var count, p := SpreadHead(m, h, chain, offset, bytes);
    var tail, a := chain[1..], chain[0].address + offset + j;
    var first := Stored(m, chain[0].address + offset, bytes[..count]);
    if count < |bytes| {
      DisjointTail(chain);
      SpreadSpares(first, p.host, tail, 0, bytes[count..], a);
    }
  }

  /** A spread over disjoint buffers puts byte `j` at position `offset + j`. */
  lemma {:induction false} SpreadLands(
    m: Memory, h: Host, chain: seq<Descriptor>, offset: nat, bytes: seq<byte>, j: nat)
    requires AllValid(h.env, chain) && Disjoint(chain) && j < |bytes| && offset + |bytes| <= Total(chain)
    ensures |h.log| <= |Spread(h, chain, offset, bytes).host.log|
    ensures Effect(m, Spread(h, chain, offset, bytes).host.log, |h.log|)(Where(chain, offset + j)) == bytes[j]
    decreases |chain|, 1
  {
    var d := chain[0];
    if offset >= d.length {
      LandsBehind(m, h, chain, offset, bytes, j);
    } else if offset + j < d.length {
      LandsInHead(m, h, chain, offset, bytes, j);
    } else {
      LandsInTail(m, h, chain, offset, bytes, j);
    }
  }

  /** A spread that starts behind the first segment is one over the rest. */
  lemma {:induction false} SpreadBehind(h: Host, chain: seq<Descriptor>, offset: nat, bytes: seq<byte>)
    requires chain != [] && offset >= chain[0].length && bytes != []
    ensures Spread(h, chain, offset, bytes) == Spread(h, chain[1..], offset - chain[0].length, bytes)
  {
  }

  lemma {:induction false} LandsBehind(
    m: Memory, h: Host, chain: seq<Descriptor>, offset: nat, bytes: seq<byte>, j: nat)
    requires AllValid(h.env, chain) && Disjoint(chain) && j < |bytes| && offset + |bytes| <= Total(chain)
    requires chain[0].length <= offset
    ensures |h.log| <= |Spread(h, chain, offset, bytes).host.log|
    ensures Effect(m, Spread(h, chain, offset, bytes).host.log, |h.log|)(Where(chain, offset + j)) == bytes[j]
    decreases |chain|, 0
  {
    DisjointTail(chain);
    ValidTail(h.env, chain);
    SpreadLands(m, h, chain[1..], offset - chain[0].length, bytes, j);
    WhereBehind(chain, offset + j);
    SpreadBehind(h, chain, offset, bytes);
  }

  /** A byte behind the first segment, of a spread that starts in it. */
  lemma {:induction false} LandsInTail(
    m: Memory, h: Host, chain: seq<Descriptor>, offset: nat, bytes: seq<byte>, j: nat)
    requires AllValid(h.env, chain) && Disjoint(chain) && j < |bytes| && offset + |bytes| <= Total(chain)
    requires offset < chain[0].length <= offset + j
    ensures |h.log| <= |Spread(h, chain, offset, bytes).host.log|
    ensures Effect(m, Spread(h, chain, offset, bytes).host.log, |h.log|)(Where(chain, offset + j)) == bytes[j]
    decreases |chain|, 0
  {
    var d, tail := chain[0], chain[1..];
    DisjointTail(chain);
    var count, p := SpreadHead(m, h, chain, offset, bytes);
    SpreadLands(Stored(m, d.address + offset, bytes[..count]), p.host, tail, 0, bytes[count..], j - count);
    WhereBehind(chain, offset + j);
  }

  /** A position behind the first segment is one of the rest. */
  lemma {:induction false} WhereBehind(chain: seq<Descriptor>, n: nat)
    requires chain != [] && chain[0].length <= n < Total(chain)
    ensures Where(chain, n) == Where(chain[1..], n - chain[0].length)
  {
  }
}
