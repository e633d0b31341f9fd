/** The text a node or property name may be: what RFC 3629 encodes, and nothing else. */
module FdtText {
  import opened Types
  import opened Fdt

  /** A code point that is not a surrogate. */
  type Scalar = c: nat | c < 0xd800 || 0xe000 <= c < 0x11_0000

  /** Section 3 of RFC 3629. */
  function Octets(c: Scalar): (b: Bytes)
    ensures 1 <= |b| <= 4
  {
    if c < 0x80 then [c]
    else if c < 0x800 then [0xc0 + c / 0x40, 0x80 + c % 0x40]
    else if c < 0x1_0000 then [0xe0 + c / 0x1000, 0x80 + c / 0x40 % 0x40, 0x80 + c % 0x40]
    else [0xf0 + c / 0x4_0000, 0x80 + c / 0x1000 % 0x40, 0x80 + c / 0x40 % 0x40, 0x80 + c % 0x40]
  }

  function Text(cs: seq<Scalar>): Bytes {
    if cs == [] then [] else Octets(cs[0]) + Text(cs[1..])
  }

  /** An encoded code point is accepted in front of anything that is. */
  lemma OctetsAccepted(c: Scalar, rest: Bytes)
    requires Utf8(rest)
    ensures Utf8(Octets(c) + rest)
  {
    var b := Octets(c) + rest;
    assert b[|Octets(c)|..] == rest;
    if 0x800 <= c < 0x1_0000 { ThreeLies(c); } else if c >= 0x1_0000 { FourLies(c); }
  }

  lemma ThreeLies(c: Scalar)
    requires 0x800 <= c < 0x1_0000
    ensures var h, m := c / 0x1000, c / 0x40 % 0x40; h < 16 && (h == 0 ==> m >= 0x20) && (h == 0xd ==> m < 0x20)
  {
    var h, m, l := c / 0x1000, c / 0x40 % 0x40, c % 0x40;
    assert c / 0x40 == 0x40 * h + m && c == 0x40 * (c / 0x40) + l;
  }

  lemma FourLies(c: Scalar)
    requires c >= 0x1_0000
    ensures var h, m := c / 0x4_0000, c / 0x1000 % 0x40; h <= 4 && (h == 0 ==> m >= 0x10) && (h == 4 ==> m < 0x10)
  {
    var h, m := c / 0x4_0000, c / 0x1000 % 0x40;
    assert c / 0x1000 == 0x40 * h + m && c == 0x1000 * (c / 0x1000) + c % 0x1000;
  }

  lemma {:induction false} TextAccepted(cs: seq<Scalar>)
    ensures Utf8(Text(cs))
  {
    if cs != [] {
      TextAccepted(cs[1..]);
      OctetsAccepted(cs[0], Text(cs[1..]));
    }
  }

  /** The code point at the front of accepted bytes, and the rest. */
  lemma Front(b: Bytes) returns (c: Scalar, rest: Bytes)
    requires b != [] && Utf8(b)
    ensures b == Octets(c) + rest && Utf8(rest)
  {
    if b[0] < 0x80 {
      c, rest := b[0] as nat, b[1..];
      assert b == [b[0]] + rest;
    } else if b[0] <= 0xdf {
      c, rest := Two(b[0], b[1]), b[2..];
      assert b == [b[0], b[1]] + rest;
    } else if b[0] <= 0xef {
      c, rest := Three(b[0], b[1], b[2]), b[3..];
      assert b == [b[0], b[1], b[2]] + rest;
    } else {
      c, rest := Four(b[0], b[1], b[2], b[3]), b[4..];
      assert b == [b[0], b[1], b[2], b[3]] + rest;
    }
  }

  function Two(w: byte, x: byte): (c: Scalar)
    requires 0xc2 <= w <= 0xdf && Continues(x)
    ensures Octets(c) == [w, x]
  {
    0x40 * (w - 0xc0) + (x - 0x80)
  }

  function Three(w: byte, x: byte, y: byte): (c: Scalar)
    requires 0xe0 <= w <= 0xef && Continues(x) && Continues(y) && (w == 0xe0 ==> x >= 0xa0) && (w == 0xed ==> x <= 0x9f)
    ensures Octets(c) == [w, x, y]
  {
    var c := 0x1000 * (w - 0xe0) + 0x40 * (x - 0x80) + (y - 0x80);
    assert c / 0x40 == 0x40 * (w - 0xe0) + (x - 0x80) && c / 0x1000 == w - 0xe0;
    c
  }

  function Four(w: byte, x: byte, y: byte, z: byte): (c: Scalar)
    requires 0xf0 <= w <= 0xf4 && Continues(x) && Continues(y) && Continues(z)
    requires (w == 0xf0 ==> x >= 0x90) && (w == 0xf4 ==> x <= 0x8f)
    ensures Octets(c) == [w, x, y, z]
  {
    var h, m, l: nat := w - 0xf0, x - 0x80, y - 0x80;
    Sixes(0x40 * (0x40 * h + m) + l, z - 0x80);
    Sixes(0x40 * h + m, l);
    Sixes(h, m);
    Deeper(h, m, l, z - 0x80);
    0x40 * (0x40 * (0x40 * h + m) + l) + (z - 0x80)
  }

  /** Six bits at the end of a number. */
  lemma Sixes(high: nat, low: nat)
    requires low < 0x40
    ensures (0x40 * high + low) / 0x40 == high && (0x40 * high + low) % 0x40 == low
  {
  }

  lemma Deeper(h: nat, m: nat, l: nat, k: nat)
    requires m < 0x40 && l < 0x40 && k < 0x40
    ensures var c := 0x40 * (0x40 * (0x40 * h + m) + l) + k;
      c / 0x1000 == 0x40 * h + m && c / 0x4_0000 == h
  {
    var c := 0x40 * (0x40 * (0x40 * h + m) + l) + k;
    assert c == 0x1000 * (0x40 * h + m) + (0x40 * l + k) && c == 0x4_0000 * h + (0x1000 * m + 0x40 * l + k);
  }

  lemma {:induction false} AcceptedText(b: Bytes) returns (cs: seq<Scalar>)
    requires Utf8(b)
    ensures b == Text(cs)
    decreases |b|
  {
    cs := [];
    if b != [] {
      var c, rest := Front(b);
      var tail := AcceptedText(rest);
      cs := [c] + tail;
      assert cs[1..] == tail;
    }
  }

  /** Bytes are accepted as text exactly if they encode some. */
  lemma Utf8Exact(b: Bytes)
    ensures Utf8(b) <==> exists cs: seq<Scalar> :: b == Text(cs)
  {
    if Utf8(b) { var cs := AcceptedText(b); }
    if exists cs: seq<Scalar> :: b == Text(cs) {
      var cs: seq<Scalar> :| b == Text(cs);
      TextAccepted(cs);
    }
  }
}
