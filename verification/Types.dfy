/** Result types, bytes, sequences and limits shared by the component models. */
module Types {
  datatype Option<+T> = None | Some(value: T)

  datatype Result<+T, +E> = Ok(value: T) | Err(error: E)

  type byte = b: int | 0 <= b < 256

  type Bytes = seq<byte>

  const U32_LIMIT := 0x1_0000_0000
  const U64_LIMIT := 0x1_0000_0000_0000_0000

  function Zeros(n: nat): (z: Bytes)
    ensures |z| == n
  {
    seq(n, _ => 0)
  }

  /** The bytes of a string of ASCII characters. */
  function Ascii(s: string): (b: Bytes)
    requires forall i: nat :: i < |s| ==> s[i] as int < 128
    ensures |b| == |s| && forall i: nat :: i < |s| ==> b[i] == s[i] as int
  {
    seq(|s|, i requires 0 <= i < |s| => s[i] as int)
  }

  function Le16(v: nat): (b: Bytes)
    ensures |b| == 2
  {
    [v % 256, v / 256 % 256]
  }

  /** The longest Ethernet frame without its check sequence; the shortest is its header. */
  const FRAME_SIZE := 1514

  predicate FrameOk(frame: Bytes) { 14 <= |frame| <= FRAME_SIZE }

  lemma Associative<T>(a: seq<T>, b: seq<T>, c: seq<T>)
    ensures a + (b + c) == a + b + c
  {
  }

  lemma Associative4<T>(a: seq<T>, b: seq<T>, c: seq<T>, d: seq<T>)
    ensures a + (b + c + d) == a + b + c + d
  {
  }
}
