/** Reading a devicetree blob: the walk over its structure block, and its header and blocks. */
module Fdt {
  import opened Types
  import opened FdtRanges
  import opened FdtTokens

  const SLASH: byte := 47
  const MAX_DEPTH := 32
  const MAX_PATH := 512

  predicate Continues(b: byte) { 0x80 <= b <= 0xbf }

  /** Well-formed UTF-8. */
  predicate Utf8(b: Bytes)
    decreases |b|
  {
    if b == [] then true
    else if b[0] < 0x80 then Utf8(b[1..])
    else if 0xc2 <= b[0] <= 0xdf then |b| >= 2 && Continues(b[1]) && Utf8(b[2..])
    else if 0xe0 <= b[0] <= 0xef then
      && |b| >= 3 && Continues(b[1]) && Continues(b[2])
      && (b[0] == 0xe0 ==> b[1] >= 0xa0) && (b[0] == 0xed ==> b[1] <= 0x9f) && Utf8(b[3..])
    else if 0xf0 <= b[0] <= 0xf4 then
      && |b| >= 4 && Continues(b[1]) && Continues(b[2]) && Continues(b[3])
      && (b[0] == 0xf0 ==> b[1] >= 0x90) && (b[0] == 0xf4 ==> b[1] <= 0x8f) && Utf8(b[4..])
    else false
  }

  lemma {:induction false} AsciiIsUtf8(b: Bytes)
    requires forall i: nat :: i < |b| ==> b[i] < 0x80
    ensures Utf8(b)
  {
    if b != [] { AsciiIsUtf8(b[1..]); }
  }

  // ---- The walk -----------------------------------------------------------------------------

  /** Names from the root down; the root's own name is empty. */
  type Stack = seq<Bytes>

  function PathLength(stack: Stack): nat {
    if stack == [] then 0
    else PathLength(stack[..|stack| - 1]) + (if stack[|stack| - 1] == [] then 0 else |stack[|stack| - 1]| + 1)
  }

  predicate MayEnter(stack: Stack, rootSeen: bool, name: Bytes) {
    && (if stack == [] then !rootSeen && name == [] else name != [] && SLASH !in name)
    && |stack| < MAX_DEPTH && Utf8(name)
    && (name != [] ==> PathLength(stack) + |name| + 1 <= MAX_PATH)
  }

  /** The property name at an offset into the strings block. */
  function NameAt(strings: Bytes, offset: nat): (name: Option<Bytes>)
    ensures name.Some? ==> offset < |strings| && name.value != []
  {
    if offset > |strings| then None
    else
      var n := FirstNul(strings[offset..]);
      if n.None? || n.value == 0 then None
      else
        var name := strings[offset..offset + n.value];
        if Utf8(name) then Some(name) else None
  }

  /** A property as a visitor sees it: the node's path below the root, the name, the data. */
  datatype Visit = Visit(path: seq<Bytes>, name: Bytes, data: Bytes)

  function StackAfter(t: Token, stack: Stack): Stack {
    match t
    case Begin(name, _) => stack + [name]
    case End => if stack == [] then [] else stack[..|stack| - 1]
    case _ => stack
  }

  /** What one token visits, or `None` where it is not accepted. */
  function Step(t: Token, stack: Stack, rootSeen: bool, strings: Bytes): Option<seq<Visit>> {
    match t
    case Begin(name, _) => if MayEnter(stack, rootSeen, name) then Some([]) else None
    case End => if stack == [] then None else Some([])
    case Prop(offset, data, _) =>
      var name := NameAt(strings, offset);
      if stack == [] || name.None? then None else Some([Visit(stack[1..], name.value, data)])
    case Nop => Some([])
    case Fin => if rootSeen && stack == [] then Some([]) else None
  }

  /** The properties from here on, or `None` where the structure is not accepted. */
  function Walk(ts: seq<Token>, stack: Stack, rootSeen: bool, strings: Bytes): Option<seq<Visit>> {
    if ts == [] then None
    else
      var first := Step(ts[0], stack, rootSeen, strings);
      if first.None? || ts[0] == Fin then first
      else
        var rest := Walk(ts[1..], StackAfter(ts[0], stack), rootSeen || ts[0].Begin?, strings);
        if rest.None? then None else Some(first.value + rest.value)
  }

  /** The data of every property called `name` at `path`, in order: what a devicetree means. */
  function Data(vs: seq<Visit>, path: seq<Bytes>, name: Bytes): seq<Bytes> {
    if vs == [] then []
    else
      (if vs[0].path == path && vs[0].name == name then [vs[0].data] else []) + Data(vs[1..], path, name)
  }

  // ---- The blob --------------------------------------------------------------------------------

  const MAGIC := 0xd00d_feed
  const HEADER := 40

  function Field(b: Bytes, offset: nat): (v: nat)
    requires offset + 4 <= |b|
    ensures v < U32_LIMIT
  {
    Word(b[offset..offset + 4])
  }

  /** The entries of a reservation table without its all-zero terminator. */
  function Entries(b: Bytes): (e: Option<Bytes>)
    ensures e.Some? ==> |e.value| % 16 == 0 && |e.value| + 16 <= |b| && e.value <= b
    decreases |b|
  {
    if |b| < 16 then None
    else if Zero(b[..16]) then Some([])
    else
      var rest := Entries(b[16..]);
      if rest.None? then None
      else
        assert b == b[..16] + b[16..];
        Some(b[..16] + rest.value)
  }

  datatype Blob = Blob(header: Bytes, entries: Bytes, structure: Bytes, strings: Bytes)

  predicate Separate(a: nat, b: nat, c: nat, d: nat) { a == b || c == d || b <= c || d <= a }

  /** The blocks a header announces, if they lie inside the blob and apart. */
  function BlocksAt(b: Bytes, structure: nat, structureSize: nat, strings: nat, stringsSize: nat, table: nat)
    : (r: Option<Blob>)
    requires |b| >= HEADER
    ensures r.Some? ==> r.value.header == b[..HEADER] && |r.value.entries| % 16 == 0
  {
    if structure + structureSize > |b| || strings + stringsSize > |b| || table > |b| then None
    else
      var entries := Entries(b[table..]);
      if entries.None? then None
      else
        var tableEnd := table + |entries.value| + 16;
        if && Separate(structure, structure + structureSize, 0, HEADER)
           && Separate(strings, strings + stringsSize, 0, HEADER)
           && Separate(strings, strings + stringsSize, structure, structure + structureSize)
           && Separate(table, tableEnd, 0, HEADER)
           && Separate(table, tableEnd, structure, structure + structureSize)
           && Separate(table, tableEnd, strings, strings + stringsSize)
        then Some(Blob(b[..HEADER], entries.value, b[structure..structure + structureSize],
                       b[strings..strings + stringsSize]))
        else None
  }

  /** The blocks of a blob whose header is consistent. */
  function Blocks(input: Bytes): Option<Blob> {
    if |input| < HEADER || Field(input, 0) != MAGIC || Field(input, 4) < HEADER || Field(input, 4) > |input| then None
    else
      var b := input[..Field(input, 4)];
      if Field(b, 20) != 17 || Field(b, 24) > 17 || Field(b, 8) % 4 != 0 || Field(b, 16) % 8 != 0 then None
      else BlocksAt(b, Field(b, 8), Field(b, 36), Field(b, 12), Field(b, 32), Field(b, 16))
  }

  datatype Tree = Tree(blob: Blob, tokens: seq<Token>, visits: seq<Visit>)

  /** A blob that is accepted, with the tokens of its structure and the properties they visit. */
  function Parse(input: Bytes): Option<Tree> {
    match Blocks(input)
    case None => None
    case Some(blob) =>
      match Decode(blob.structure)
      case None => None
      case Some(ts) =>
        match Walk(ts, [], false, blob.strings)
        case None => None
        case Some(vs) => Some(Tree(blob, ts, vs))
  }

  // ---- Writing one back ----------------------------------------------------------------------------

  /** A header with the sizes and offsets of blocks laid out in the canonical order. */
  function Patch(header: Bytes, entries: Bytes, structure: Bytes, strings: Bytes): (h: Bytes)
    requires |header| == HEADER
    ensures |h| == HEADER
  {
    var table := 48;
    var body := table + |entries| + 16;
    header[..4] + Be32(body + |structure| + |strings|) + Be32(body) + Be32(body + |structure|) + Be32(table)
    + header[20..32] + Be32(|strings|) + Be32(|structure|)
  }

  function Render(b: Blob): Bytes
    requires |b.header| == HEADER
  {
    Patch(b.header, b.entries, b.structure, b.strings) + Zeros(8) + b.entries + Zeros(16)
    + b.structure + b.strings
  }
}
