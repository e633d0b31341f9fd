/** The structure block of a devicetree blob as tokens (section 5.4 of the Devicetree Specification). */
module FdtTokens {
  import opened Types
  import opened FdtRanges

  datatype Token =
    | Begin(name: seq<byte>, pad: seq<byte>)
    | End
    | Prop(nameOffset: nat, data: seq<byte>, pad: seq<byte>)
    | Nop
    | Fin

  /** Bytes up to the next multiple of four. */
  function Pad(n: nat): (p: nat)
    ensures p < 4 && (n + p) % 4 == 0
  {
    (4 - n % 4) % 4
  }

  lemma PadValues()
    ensures Pad(16) == 0 && Pad(7) == 1
  {
  }

  lemma PadZero(n: nat)
    requires n % 4 == 0
    ensures Pad(n) == 0
  {
  }

  function FirstNul(b: seq<byte>): (n: Option<nat>)
    ensures n.Some? ==> n.value < |b| && b[n.value] == 0 && forall i: nat :: i < n.value ==> b[i] != 0
    ensures n.None? ==> forall i: nat :: i < |b| ==> b[i] != 0
  {
    if b == [] then None
    else if b[0] == 0 then Some(0)
    else
      var n := FirstNul(b[1..]);
      assert forall i: nat :: 0 < i < |b| ==> b[i] == b[1..][i - 1];
      if n.None? then None else Some(n.value + 1)
  }

  predicate NoNul(b: seq<byte>) { forall i: nat :: i < |b| ==> b[i] != 0 }

  predicate Zero(b: seq<byte>) { forall i: nat :: i < |b| ==> b[i] == 0 }

  lemma FirstNulAt(name: seq<byte>, rest: seq<byte>)
    requires NoNul(name)
    ensures FirstNul(name + [0] + rest) == Some(|name|)
  {
    var b := name + [0] + rest;
    assert b[|name|] == 0;
    assert forall i: nat :: i < |name| ==> b[i] == name[i];
    var n := FirstNul(b);
    assert n.Some?;
  }

  predicate Good(t: Token) {
    match t
    case Begin(name, pad) => NoNul(name) && |pad| == Pad(|name| + 1)
    case Prop(offset, data, pad) => offset < U32_LIMIT && |data| < U32_LIMIT && |pad| == Pad(|data|)
    case _ => true
  }

  function Encode(t: Token): (b: seq<byte>)
    ensures |b| >= 4
  {
    match t
    case Begin(name, pad) => Be32(1) + name + [0] + pad
    case End => Be32(2)
    case Prop(offset, data, pad) => Be32(3) + Be32(|data|) + Be32(offset) + data + pad
    case Nop => Be32(4)
    case Fin => Be32(9)
  }

  function EncodeAll(ts: seq<Token>): seq<byte> {
    if ts == [] then [] else Encode(ts[0]) + EncodeAll(ts[1..])
  }

  /** The token at the start of `b`. */
  function First(b: seq<byte>): Option<Token> {
    if |b| < 4 then None
    else
      var w := Word(b[..4]);
      if w == 1 then FirstBegin(b)
      else if w == 2 then Some(End)
      else if w == 3 then FirstProp(b)
      else if w == 4 then Some(Nop)
      else if w == 9 then Some(Fin)
      else None
  }

  function FirstBegin(b: seq<byte>): (t: Option<Token>)
    requires |b| >= 4
    ensures t.Some? ==> t.value.Begin?
  {
    var n := FirstNul(b[4..]);
    if n.None? then None
    else
      var end := 5 + n.value + Pad(n.value + 1);
      if end > |b| then None else Some(Begin(b[4..4 + n.value], b[5 + n.value..end]))
  }

  function FirstProp(b: seq<byte>): (t: Option<Token>)
    requires |b| >= 4
    ensures t.Some? ==> t.value.Prop?
  {
    if |b| < 12 then None
    else
      var n := Word(b[4..8]);
      var end := 12 + n + Pad(n);
      if end > |b| then None else Some(Prop(Word(b[8..12]), b[12..12 + n], b[12 + n..end]))
  }

  lemma {:induction false} FirstBeginIs(b: seq<byte>)
    requires |b| >= 4 && Word(b[..4]) == 1 && FirstBegin(b).Some?
    ensures Good(FirstBegin(b).value) && Encode(FirstBegin(b).value) <= b
  {
    var n := FirstNul(b[4..]).value;
    var t := FirstBegin(b).value;
    WordIs(b[..4]);
    assert b[4..][n] == b[4 + n] && forall i: nat :: i < n ==> t.name[i] == b[4..][i];
    assert b[..5 + n + |t.pad|] == b[..4] + b[4..4 + n] + [b[4 + n]] + b[5 + n..5 + n + |t.pad|];
  }

  lemma FiveParts(b: seq<byte>, n: nat, m: nat)
    requires 12 + n + m <= |b|
    ensures b[..12 + n + m] == b[..4] + b[4..8] + b[8..12] + b[12..12 + n] + b[12 + n..12 + n + m]
  {
  }

  lemma {:induction false} FirstPropIs(b: seq<byte>)
    requires |b| >= 4 && Word(b[..4]) == 3 && FirstProp(b).Some?
    ensures Good(FirstProp(b).value) && Encode(FirstProp(b).value) <= b
  {
    var t := FirstProp(b).value;
    var n := |t.data|;
    WordIs(b[..4]);
    WordIs(b[4..8]);
    WordIs(b[8..12]);
    FiveParts(b, n, |t.pad|);
  }

  /** What was read is what was there. */
  lemma FirstIs(b: seq<byte>)
    requires First(b).Some?
    ensures Good(First(b).value) && Encode(First(b).value) <= b
  {
    WordIs(b[..4]);
    var w := Word(b[..4]);
    if w == 1 { FirstBeginIs(b); } else if w == 3 { FirstPropIs(b); }
  }

  lemma {:induction false} NameThenNul(b: seq<byte>, name: seq<byte>, after: seq<byte>)
    requires |b| >= 4 && b[4..] == name + [0] + after && NoNul(name)
    ensures FirstNul(b[4..]) == Some(|name|)
  {
    FirstNulAt(name, after);
  }

  lemma {:induction false} FirstOfBegin(name: seq<byte>, pad: seq<byte>, rest: seq<byte>)
    requires Good(Begin(name, pad))
    ensures First(Encode(Begin(name, pad)) + rest) == Some(Begin(name, pad))
  {
    var b := Encode(Begin(name, pad)) + rest;
    assert b[..4] == Be32(1);
    WordOf(1);
    NameThenNul(b, name, pad + rest);
    var end := 5 + |name| + |pad|;
    assert b[4..4 + |name|] == name && b[5 + |name|..end] == pad;
  }

  lemma {:induction false} FirstOfProp(offset: nat, data: seq<byte>, pad: seq<byte>, rest: seq<byte>)
    requires Good(Prop(offset, data, pad))
    ensures First(Encode(Prop(offset, data, pad)) + rest) == Some(Prop(offset, data, pad))
  {
    var b := Encode(Prop(offset, data, pad)) + rest;
    assert b[..4] == Be32(3) && b[4..8] == Be32(|data|) && b[8..12] == Be32(offset);
    WordOf(3);
    WordOf(|data|);
    WordOf(offset);
    var end := 12 + |data| + |pad|;
    assert b[12..12 + |data|] == data && b[12 + |data|..end] == pad;
  }

  /** What is written is read back, whatever follows. */
  lemma FirstOf(t: Token, rest: seq<byte>)
    requires Good(t)
    ensures First(Encode(t) + rest) == Some(t)
  {
    var b := Encode(t) + rest;
    match t
    case Begin(name, pad) => FirstOfBegin(name, pad, rest);
    case Prop(offset, data, pad) => FirstOfProp(offset, data, pad, rest);
    case End => assert b[..4] == Be32(2); WordOf(2);
    case Nop => assert b[..4] == Be32(4); WordOf(4);
    case Fin => assert b[..4] == Be32(9); WordOf(9);
  }

  /** Every token up to the final one, which only zeros may follow. */
  function Decode(b: seq<byte>): Option<seq<Token>>
    decreases |b|
  {
    match First(b)
    case None => None
    case Some(Fin) => if Zero(b[4..]) then Some([Fin]) else None
    case Some(t) =>
      FirstIs(b);
      var rest := Decode(b[|Encode(t)|..]);
      if rest.None? then None else Some([t] + rest.value)
  }

  /** Good tokens of which exactly the last is final. */
  ghost predicate Closed(ts: seq<Token>) {
    && ts != [] && ts[|ts| - 1] == Fin
    && forall i: nat :: i < |ts| ==> Good(ts[i]) && (ts[i] == Fin <==> i == |ts| - 1)
  }

  lemma ClosedTail(ts: seq<Token>)
    requires Closed(ts) && ts[0] != Fin
    ensures Closed(ts[1..])
  {
  }

  lemma ClosedCons(t: Token, ts: seq<Token>)
    requires Closed(ts) && Good(t) && t != Fin
    ensures Closed([t] + ts)
  {
  }

  lemma {:induction false} EncodeDecode(b: seq<byte>)
    requires Decode(b).Some?
    ensures Closed(Decode(b).value) && EncodeAll(Decode(b).value) <= b
    decreases |b|
  {
    FirstIs(b);
    var t := First(b).value;
    if t == Fin {
      assert [Fin][1..] == [];
      assert EncodeAll([Fin]) == Encode(Fin) + [];
    } else {
      var tail := b[|Encode(t)|..];
      EncodeDecode(tail);
      var rest := Decode(tail).value;
      ClosedCons(t, rest);
      assert ([t] + rest)[1..] == rest;
      assert b == Encode(t) + tail;
    }
  }

  lemma {:induction false} DecodeEncode(ts: seq<Token>)
    requires Closed(ts)
    ensures Decode(EncodeAll(ts)) == Some(ts)
  {
    if ts[0] == Fin {
      assert ts == [Fin] && ts[1..] == [];
      DecodeFin([]);
    } else {
      ClosedTail(ts);
      DecodeEncode(ts[1..]);
      DecodeOne(ts[0], EncodeAll(ts[1..]));
      assert [ts[0]] + ts[1..] == ts;
    }
  }

  lemma {:induction false} DecodeFin(rest: seq<byte>)
    requires Zero(rest)
    ensures Decode(Encode(Fin) + rest) == Some([Fin])
  {
    FirstOf(Fin, rest);
    assert (Encode(Fin) + rest)[4..] == rest;
  }

  lemma {:induction false} DecodeOne(t: Token, rest: seq<byte>)
    requires Good(t) && t != Fin && Decode(rest).Some?
    ensures Decode(Encode(t) + rest) == Some([t] + Decode(rest).value)
  {
    FirstOf(t, rest);
    assert (Encode(t) + rest)[|Encode(t)|..] == rest;
  }

  lemma EncodeCons(t: Token, ts: seq<Token>)
    ensures EncodeAll([t] + ts) == Encode(t) + EncodeAll(ts)
  {
    assert ([t] + ts)[1..] == ts;
  }

  lemma {:induction false} EncodeConcat(a: seq<Token>, b: seq<Token>)
    ensures EncodeAll(a + b) == EncodeAll(a) + EncodeAll(b)
  {
    if a == [] {
      assert a + b == b;
    } else {
      EncodeConcat(a[1..], b);
      EncodeCons(a[0], a[1..]);
      EncodeCons(a[0], a[1..] + b);
      assert [a[0]] + a[1..] == a;
      Associative([a[0]], a[1..], b);
      Associative(Encode(a[0]), EncodeAll(a[1..]), EncodeAll(b));
    }
  }
}
