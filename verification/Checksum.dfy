/** The Internet checksum (sections 1 and 2 of RFC 1071). */
module Checksum {
  import opened Types

  const ONES := 65535

  function WordAt(b: seq<byte>, i: nat): (w: nat)
    requires i < |b|
    ensures w <= ONES
  {
    256 * b[i] as nat + if i + 1 < |b| then b[i + 1] as nat else 0
  }

  /** Sum of big-endian words, an odd last byte padded with zero. */
  function Sum(b: seq<byte>): nat {
    if b == [] then 0 else if |b| == 1 then WordAt(b, 0) else WordAt(b, 0) + Sum(b[2..])
  }

  /** End-around carry until one word is left. */
  function Fold(s: nat): (f: nat)
    ensures f <= ONES
  {
    if s <= ONES then s else Fold(s % 65536 + s / 65536)
  }

  function Of(b: seq<byte>): (c: nat)
    ensures c <= ONES
  {
    ONES - Fold(Sum(b))
  }

  method Compute(b: seq<byte>) returns (c: nat)
    ensures c == Of(b)
  {
    var sum, rest := 0, b;
    while rest != []
      invariant sum + Sum(rest) == Sum(b)
      decreases |rest|
    {
      sum := sum + WordAt(rest, 0);
      rest := if |rest| == 1 then [] else rest[2..];
    }
    sum := Carry(sum);
    c := ONES - sum;
  }

  method Carry(s: nat) returns (f: nat)
    ensures f == Fold(s)
  {
    f := s;
    while f > ONES
      invariant Fold(f) == Fold(s)
      decreases f
    {
      f := f % 65536 + f / 65536;
    }
  }

  // ---- What folding means -----------------------------------------------------------------------

  lemma CarryStep(s: nat)
    requires s > ONES
    ensures s % 65536 + s / 65536 < s && (s % 65536 + s / 65536) % ONES == s % ONES && s % 65536 + s / 65536 > 0
  {
    var q, r := s / 65536, s % 65536;
    assert s == ONES * q + (q + r);
  }

  /** Folding keeps the residue modulo 65535 and tells zero from a nonzero multiple of it. */
  lemma {:induction false} FoldIs(s: nat)
    ensures Fold(s) == if s == 0 then 0 else (s - 1) % ONES + 1
  {
    if s > ONES {
      CarryStep(s);
      var t := s % 65536 + s / 65536;
      FoldIs(t);
      SameResidue(s, t);
    }
  }

  lemma SameResidue(s: nat, t: nat)
    requires s > 0 && t > 0 && s % ONES == t % ONES
    ensures (s - 1) % ONES == (t - 1) % ONES
  {
  }

  lemma FoldSame(s: nat, t: nat)
    requires s > 0 && t > 0 && s % ONES == t % ONES
    ensures Fold(s) == Fold(t)
  {
    FoldIs(s);
    FoldIs(t);
    SameResidue(s, t);
  }

  lemma {:induction false} FoldResidue(s: nat)
    ensures Fold(s) % ONES == s % ONES && (s == 0 <==> Fold(s) == 0)
  {
    if s > ONES {
      CarryStep(s);
      FoldResidue(s % 65536 + s / 65536);
    }
  }

  lemma {:induction false} SumAppend(a: seq<byte>, b: seq<byte>)
    requires |a| % 2 == 0
    ensures Sum(a + b) == Sum(a) + Sum(b)
  {
    if a == [] {
      assert a + b == b;
    } else {
      SumAppend(a[2..], b);
      assert (a + b)[2..] == a[2..] + b;
    }
  }

  /** The sum is of 16-bit words, high byte first. */
  lemma {:induction false} SumByWords(b: seq<byte>, high: byte, low: byte)
    requires |b| % 2 == 0
    ensures Sum(b + [high, low]) == Sum(b) + 256 * high as nat + low as nat
  {
    SumAppend(b, [high, low]);
    assert [high, low][2..] == [];
  }

  /** An odd last byte counts as if a zero followed it. */
  lemma {:induction false} SumPads(b: seq<byte>, last: byte)
    requires |b| % 2 == 0
    ensures Sum(b + [last]) == Sum(b + [last, 0])
  {
    SumAppend(b, [last]);
    SumByWords(b, last, 0);
  }

  function Be16(v: nat): (b: seq<byte>)
    requires v <= ONES
    ensures |b| == 2
  {
    [v / 256, v % 256]
  }

  lemma SumWord(v: nat)
    requires v <= ONES
    ensures Sum(Be16(v)) == v
  {
    assert Be16(v)[2..] == [];
  }

  /** Sums of even-length pieces add up. */
  lemma SumParts(a: seq<byte>, w: nat, b: seq<byte>)
    requires |a| % 2 == 0 && w <= ONES
    ensures Sum(a + Be16(w) + b) == Sum(a) + w + Sum(b)
  {
    SumAppend(a + Be16(w), b);
    SumAppend(a, Be16(w));
    SumWord(w);
  }

  /** Bytes whose checksum is stored in a word that was zero verify to zero. */
  lemma InsertVerifies(a: seq<byte>, b: seq<byte>)
    requires |a| % 2 == 0
    ensures Of(a + Be16(Of(a + Be16(0) + b)) + b) == 0
  {
    var s := Sum(a + Be16(0) + b);
    var c := Of(a + Be16(0) + b);
    SumParts(a, 0, b);
    SumParts(a, c, b);
    FoldResidue(s);
    FoldIs(s + c);
    Complement(s, Fold(s));
  }

  lemma Complement(s: nat, f: nat)
    requires f <= ONES && f % ONES == s % ONES && (s == 0 <==> f == 0)
    ensures s + (ONES - f) > 0 && (s + (ONES - f) - 1) % ONES == ONES - 1
  {
    assert (s + (ONES - f)) % ONES == 0;
  }

  // ---- The split pseudo-header test ----------------------------------------------------------------

  /** Addresses, protocol 17 and length, as the pseudo-header lays them out. */
  function PseudoHeader(addresses: seq<byte>, length: nat): seq<byte>
    requires length <= ONES
  {
    addresses + Be16(17) + Be16(length)
  }

  /** The test that folds the two checksums' complements instead of copying the payload. */
  predicate SplitTest(addresses: seq<byte>, payload: seq<byte>) {
    Fold(ONES - Of(addresses) + 17 + |payload| + (ONES - Of(payload))) == ONES
  }

  /** It accepts exactly when pseudo-header and payload together verify to zero. */
  lemma SplitTestExact(addresses: seq<byte>, payload: seq<byte>)
    requires |addresses| % 2 == 0 && |payload| <= ONES
    ensures SplitTest(addresses, payload) <==> Of(PseudoHeader(addresses, |payload|) + payload) == 0
  {
    var n := |payload|;
    SumAppend(addresses + Be16(17), Be16(n));
    SumAppend(addresses, Be16(17));
    SumWord(17);
    SumWord(n);
    SumAppend(PseudoHeader(addresses, n), payload);
    var a, p := Sum(addresses), Sum(payload);
    FoldResidue(a);
    FoldResidue(p);
    ResidueSum(Fold(a), a, Fold(p), p, 17 + n);
    FoldSame(Fold(a) + 17 + n + Fold(p), a + 17 + n + p);
  }

  lemma ResidueSum(a: nat, b: nat, c: nat, d: nat, k: nat)
    requires a % ONES == b % ONES && c % ONES == d % ONES
    ensures (a + k + c) % ONES == (b + k + d) % ONES
  {
    var x, y := a / ONES - b / ONES, c / ONES - d / ONES;
    assert a + k + c == b + k + d + ONES * (x + y);
    Shift(b + k + d, x + y);
  }

  lemma Shift(n: int, k: int)
    ensures (n + ONES * k) % ONES == n % ONES
  {
  }
}
