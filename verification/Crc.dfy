/** CRC-32 (reflected polynomial 0xedb88320), one byte at a time. */
module Crc {
  import Octets

  type Octet = bv8

  const POLYNOMIAL: bv32 := 0xedb8_8320
  const START: bv32 := 0xffff_ffff

  function Shift(c: bv32): bv32 { (c >> 1) ^ (POLYNOMIAL & (0 - (c & 1))) }

  function Shifts(c: bv32, n: nat): bv32 { if n == 0 then c else Shift(Shifts(c, n - 1)) }

  function Step(c: bv32, b: Octet): bv32 { Shifts(c ^ (b as bv32), 8) }

  /** The accumulator after `bytes`. */
  function Fold(c: bv32, bytes: seq<Octet>): bv32 {
    if bytes == [] then c else Step(Fold(c, bytes[..|bytes| - 1]), bytes[|bytes| - 1])
  }

  function Crc32(bytes: seq<Octet>): bv32 { !Fold(START, bytes) }

  method Update(c: bv32, bytes: seq<Octet>) returns (r: bv32)
    ensures r == Fold(c, bytes)
  {
    r := c;
    for i := 0 to |bytes|
      invariant r == Fold(c, bytes[..i])
    {
      r := r ^ (bytes[i] as bv32);
      ghost var mixed := r;
      for k := 0 to 8
        invariant r == Shifts(mixed, k)
      {
        r := Shift(r);
      }
      assert bytes[..i + 1][..i] == bytes[..i];
    }
    assert bytes[..|bytes|] == bytes;
  }

  /** Feeding data in pieces is feeding it whole. */
  lemma {:induction false} FoldAppend(c: bv32, a: seq<Octet>, b: seq<Octet>)
    ensures Fold(c, a + b) == Fold(Fold(c, a), b)
  {
    if b == [] {
      assert a + b == a;
    } else {
      var front := b[..|b| - 1];
      FoldAppend(c, a, front);
      assert (a + b)[..|a + b| - 1] == a + front;
    }
  }

  lemma Unrolled(c: bv32)
    ensures Shifts(c, 8) == Shift(Shift(Shift(Shift(Shift(Shift(Shift(Shift(c))))))))
  {
    assert Shifts(c, 1) == Shift(Shifts(c, 0));
    assert Shifts(c, 3) == Shift(Shift(Shifts(c, 1)));
    assert Shifts(c, 5) == Shift(Shift(Shifts(c, 3)));
    assert Shifts(c, 7) == Shift(Shift(Shifts(c, 5)));
  }

  /** One more byte of a sequence whose first `k` are folded. */
  lemma {:induction false} FoldNext(d: seq<Octet>, k: nat, c: bv32, n: bv32)
    requires k < |d| && Fold(START, d[..k]) == c && Step(c, d[k]) == n
    ensures Fold(START, d[..k + 1]) == n
  {
    assert d[..k + 1][..k] == d[..k];
  }

  lemma Digit1()
    ensures Step(0xffff_ffff, 0x31) == 0x7c23_1048
  {
    Unrolled(0xffff_ffff ^ 0x31);
  }

  lemma Digit2()
    ensures Step(0x7c23_1048, 0x32) == 0xb0ac_bb32
  {
    Unrolled(0x7c23_1048 ^ 0x32);
  }

  lemma Digit3()
    ensures Step(0xb0ac_bb32, 0x33) == 0x77b7_9c2d
  {
    Unrolled(0xb0ac_bb32 ^ 0x33);
  }

  lemma Digit4()
    ensures Step(0x77b7_9c2d, 0x34) == 0x641c_1f5c
  {
    Unrolled(0x77b7_9c2d ^ 0x34);
  }

  lemma Digit5()
    ensures Step(0x641c_1f5c, 0x35) == 0x340a_c5e3
  {
    Unrolled(0x641c_1f5c ^ 0x35);
  }

  lemma Digit6()
    ensures Step(0x340a_c5e3, 0x36) == 0xf68d_2c9e
  {
    Unrolled(0x340a_c5e3 ^ 0x36);
  }

  lemma Digit7()
    ensures Step(0xf68d_2c9e, 0x37) == 0xaffc_9660
  {
    Unrolled(0xf68d_2c9e ^ 0x37);
  }

  lemma Digit8()
    ensures Step(0xaffc_9660, 0x38) == 0x651f_2550
  {
    Unrolled(0xaffc_9660 ^ 0x38);
  }

  lemma Digit9()
    ensures Step(0x651f_2550, 0x39) == 0x340b_c6d9
  {
    Unrolled(0x651f_2550 ^ 0x39);
  }

  /** The check value of the algorithm: the checksum of the nine ASCII digits from 1 to 9. */
  lemma {:induction false} CheckValue()
    ensures Crc32([0x31, 0x32, 0x33, 0x34, 0x35, 0x36, 0x37, 0x38, 0x39]) == 0xcbf4_3926
  {
    var d: seq<Octet> := [0x31, 0x32, 0x33, 0x34, 0x35, 0x36, 0x37, 0x38, 0x39];
    CheckFold(d);
    assert d[..9] == d;
  }

  lemma {:induction false} CheckFold(d: seq<Octet>)
    requires d == [0x31, 0x32, 0x33, 0x34, 0x35, 0x36, 0x37, 0x38, 0x39]
    ensures Fold(START, d[..9]) == 0x340b_c6d9
  {
    assert d[..0] == [];
    Digit1();
    FoldNext(d, 0, 0xffff_ffff, 0x7c23_1048);
    Digit2();
    FoldNext(d, 1, 0x7c23_1048, 0xb0ac_bb32);
    Digit3();
    FoldNext(d, 2, 0xb0ac_bb32, 0x77b7_9c2d);
    Digit4();
    FoldNext(d, 3, 0x77b7_9c2d, 0x641c_1f5c);
    Digit5();
    FoldNext(d, 4, 0x641c_1f5c, 0x340a_c5e3);
    Digit6();
    FoldNext(d, 5, 0x340a_c5e3, 0xf68d_2c9e);
    Digit7();
    FoldNext(d, 6, 0xf68d_2c9e, 0xaffc_9660);
    Digit8();
    FoldNext(d, 7, 0xaffc_9660, 0x651f_2550);
    Digit9();
    FoldNext(d, 8, 0x651f_2550, 0x340b_c6d9);
  }

  lemma ShiftCases(c: bv32)
    ensures Shift(c) == (c >> 1) ^ (if c & 1 == 1 then POLYNOMIAL else 0)
  {
    if c & 1 == 1 { assert 0 - (c & 1) == 0xffff_ffff; } else { assert c & 1 == 0; assert 0 - (c & 1) == 0; }
  }

  lemma ShiftInjective(a: bv32, b: bv32)
    requires Shift(a) == Shift(b)
    ensures a == b
  {
    ShiftCases(a);
    ShiftCases(b);
  }

  lemma {:induction false} ShiftsInjective(a: bv32, b: bv32, n: nat)
    requires Shifts(a, n) == Shifts(b, n)
    ensures a == b
  {
    if n > 0 {
      ShiftInjective(Shifts(a, n - 1), Shifts(b, n - 1));
      ShiftsInjective(a, b, n - 1);
    }
  }

  lemma StateSeparates(c: bv32, d: bv32, b: Octet)
    requires Step(c, b) == Step(d, b)
    ensures c == d
  {
    var z := b as bv32;
    var x, y := c ^ z, d ^ z;
    assert x == y by { ShiftsInjective(x, y, 8); }
    CancelRight(c, d, z);
  }

  lemma CancelRight(x: bv32, y: bv32, z: bv32)
    requires x ^ z == y ^ z
    ensures x == y
  {
  }

  lemma ByteSeparates(c: bv32, a: Octet, b: Octet)
    requires Step(c, a) == Step(c, b)
    ensures a == b
  {
    ShiftsInjective(c ^ (a as bv32), c ^ (b as bv32), 8);
    CancelLeft(c, a, b);
  }

  lemma CancelLeft(c: bv32, a: Octet, b: Octet)
    requires c ^ (a as bv32) == c ^ (b as bv32)
    ensures a == b
  {
  }

  lemma {:induction false} FoldInjective(c: bv32, d: bv32, bytes: seq<Octet>)
    requires Fold(c, bytes) == Fold(d, bytes)
    ensures c == d
  {
    if bytes != [] {
      var front, last := bytes[..|bytes| - 1], bytes[|bytes| - 1];
      StateSeparates(Fold(c, front), Fold(d, front), last);
      FoldInjective(c, d, front);
    }
  }

  lemma ChangedFold(head: seq<Octet>, a: Octet, b: Octet, tail: seq<Octet>)
    requires a != b
    ensures Fold(START, head + [a] + tail) != Fold(START, head + [b] + tail)
  {
    var x, y := head + [a], head + [b];
    FoldAppend(START, x, tail);
    FoldAppend(START, y, tail);
    if Fold(START, x + tail) == Fold(START, y + tail) {
      FoldInjective(Fold(START, x), Fold(START, y), tail);
      FoldAppend(START, head, [a]);
      FoldAppend(START, head, [b]);
      ByteSeparates(Fold(START, head), a, b);
    }
  }

  lemma ComplementInjective(a: bv32, b: bv32)
    requires a != b
    ensures !a != !b
  {
  }

  /** A change of exactly one byte always changes the checksum. */
  lemma OneByteDetected(bytes: seq<Octet>, i: nat, b: Octet)
    requires i < |bytes| && bytes[i] != b
    ensures Crc32(bytes[i := b]) != Crc32(bytes)
  {
    var head, tail := bytes[..i], bytes[i + 1..];
    assert bytes == head + [bytes[i]] + tail;
    assert bytes[i := b] == head + [b] + tail;
    ChangedFold(head, bytes[i], b, tail);
    ComplementInjective(Fold(START, bytes[i := b]), Fold(START, bytes));
  }

  lemma OctetSeparates(a: int, b: int)
    requires 0 <= a < 256 && 0 <= b < 256 && a != b
    ensures a as bv8 != b as bv8
  {
    Octets.OctetIs(a);
    Octets.OctetIs(b);
  }

  lemma NumberIs(a: bv32, n: nat)
    requires n == a as nat
    ensures n < 0x1_0000_0000 && n as bv32 == a
  {
  }

  lemma NumberSeparates(a: bv32, b: bv32, n: nat, m: nat)
    requires a != b && n == a as nat && m == b as nat
    ensures n != m
  {
    NumberIs(a, n);
    NumberIs(b, m);
  }
}
