/** Everything the exclusion reads before it writes: cell counts, memory nodes, reservations and names. */
module FdtPlanner {
  import opened Types
  import opened FdtRanges
  import opened FdtTokens
  import F = Fdt
  import M = FdtMemory
  import opened FdtFaults

  // ---- Properties -------------------------------------------------------------------------------

  datatype Found = Absent | Once(data: Bytes) | Duplicate

  function Summary(ds: seq<Bytes>): Found {
    if ds == [] then Absent else if |ds| == 1 then Once(ds[0]) else Duplicate
  }

  method FindProperty(visits: seq<F.Visit>, path: seq<Bytes>, name: Bytes) returns (r: Found)
    ensures r == Summary(F.Data(visits, path, name))
  {
    ghost var done: seq<Bytes> := [];
    var found: Option<Bytes>, duplicate := None, false;
    for i := 0 to |visits|
      invariant F.Data(visits, path, name) == done + F.Data(visits[i..], path, name)
      invariant duplicate == (|done| > 1) && (found.None? <==> done == [])
      invariant found.Some? ==> found.value == done[|done| - 1]
    {
      var v := visits[i];
      assert visits[i..][0] == v && visits[i..][1..] == visits[i + 1..];
      if v.path == path && v.name == name {
        Associative(done, [v.data], F.Data(visits[i + 1..], path, name));
        done := done + [v.data];
        duplicate := duplicate || found.Some?;
        found := Some(v.data);
      } else {
        assert [] + F.Data(visits[i + 1..], path, name) == F.Data(visits[i + 1..], path, name);
      }
    }
    assert done + [] == done;
    return if duplicate then Duplicate else if found.Some? then Once(found.value) else Absent;
  }

  method ReadCount(visits: seq<F.Visit>, name: Bytes, default: nat) returns (n: Result<nat, FdtError>)
    requires default in {1, 2}
    ensures
      var data := F.Data(visits, [], name);
      n == match M.CellCount(data, default) case Some(count) => Ok(count) case None => Err(CountFault(data))
  {
    var property := FindProperty(visits, [], name);
    match property
    case Absent => return Ok(default);
    case Duplicate => return Err(DuplicateProperty);
    case Once(data) =>
      if |data| != 4 { return Err(MemoryCells); }
      return if Word(data) in {1, 2} then Ok(Word(data)) else Err(MemoryCells);
  }

  // ---- Memory nodes -------------------------------------------------------------------------------

  method CheckNode(visits: seq<F.Visit>, path: seq<Bytes>, c: Cells, count: nat) returns (fault: Option<FdtError>)
    requires c.Valid()
    ensures fault == NodeFault(visits, path, c, count)
  {
    var reg := FindProperty(visits, path, M.REG);
    if reg.Duplicate? { return Some(DuplicateProperty); }
    if reg.Absent? { return Some(MemoryRanges); }
    var kind := FindProperty(visits, path, M.DEVICE_TYPE);
    if kind.Duplicate? { return Some(DuplicateProperty); }
    return if count >= M.MAX_MEMORY_NODES || Banks(reg.data, c).None? then Some(MemoryRanges) else None;
  }

  lemma {:induction false} Visited(vs: seq<F.Visit>, i: nat)
    requires i < |vs|
    ensures vs[i].data in F.Data(vs, vs[i].path, vs[i].name)
  {
    if i > 0 { Visited(vs[1..], i - 1); }
  }

  /** A memory node with nothing wrong with it is one the specification accepts. */
  predicate NodeOk(visits: seq<F.Visit>, path: seq<Bytes>, c: Cells)
    requires c.Valid()
  {
    && |F.Data(visits, path, M.REG)| == 1 && |F.Data(visits, path, M.DEVICE_TYPE)| == 1
    && Banks(F.Data(visits, path, M.REG)[0], c).Some?
  }

  lemma MemoryOn(visits: seq<F.Visit>, i: nat, c: Cells, count: nat, before: Option<FdtError>)
    requires c.Valid() && i < |visits|
    ensures
      var v, whole := visits[i], MemoryFault(visits, visits[i..], c, count, before);
      if !M.MarksMemory(v) then whole == MemoryFault(visits, visits[i + 1..], c, count, before)
      else
        var f := NodeFault(visits, v.path, c, count);
        if f.Some? then whole == MemoryFault(visits, visits[i + 1..], c, count, f)
        else whole == MemoryFault(visits, visits[i + 1..], c, count + 1, before)
  {
    assert visits[i..][0] == visits[i] && visits[i..][1..] == visits[i + 1..];
  }

  /** The nodes the specification counts, split at the next visit. */
  lemma PathsOn(visits: seq<F.Visit>, i: nat, done: seq<seq<Bytes>>)
    requires i < |visits| && M.MemoryPaths(visits) == done + M.MemoryPaths(visits[i..])
    ensures
      var more := if M.MarksMemory(visits[i]) then done + [visits[i].path] else done;
      M.MemoryPaths(visits) == more + M.MemoryPaths(visits[i + 1..])
  {
    var v, tail := visits[i], M.MemoryPaths(visits[i + 1..]);
    assert visits[i..][0] == v && visits[i..][1..] == visits[i + 1..];
    if M.MarksMemory(v) { Associative(done, [v.path], tail); } else { assert [] + tail == tail; }
  }

  /** A node with something wrong keeps the whole from being right. */
  lemma NodeSpoils(visits: seq<F.Visit>, i: nat, c: Cells, done: seq<seq<Bytes>>)
    requires c.Valid() && i < |visits| && M.MarksMemory(visits[i])
    requires M.MemoryPaths(visits) == done + M.MemoryPaths(visits[i..])
    requires NodeFault(visits, visits[i].path, c, |done|).Some?
    ensures !M.MemoryOk(visits, c)
  {
    PathsOn(visits, i, done);
    assert visits[i].path in done + [visits[i].path];
  }

  lemma NodeIsOk(visits: seq<F.Visit>, i: nat, c: Cells, count: nat)
    requires c.Valid() && i < |visits| && M.MarksMemory(visits[i])
    requires NodeFault(visits, visits[i].path, c, count).None?
    ensures NodeOk(visits, visits[i].path, c)
  {
    Visited(visits, i);
  }

  /** The memory nodes; a node that is refused does not end the walk, but its error is kept. */
  method FindMemory(visits: seq<F.Visit>, c: Cells) returns (r: Result<seq<seq<Bytes>>, FdtError>)
    requires c.Valid()
    ensures r.Ok? <==> M.MemoryOk(visits, c)
    ensures r == match MemoryFault(visits, visits, c, 0, None)
                 case Some(e) => Err(e) case None => Ok(M.MemoryPaths(visits))
  {
    ghost var whole := MemoryFault(visits, visits, c, 0, None);
    ghost var done: seq<seq<Bytes>> := [];
    var memory: seq<seq<Bytes>>, fault: Option<FdtError> := [], None;
    assert visits[0..] == visits;
    for i := 0 to |visits|
      invariant M.MemoryPaths(visits) == done + M.MemoryPaths(visits[i..])
      invariant whole == MemoryFault(visits, visits[i..], c, |memory|, fault)
      invariant fault.Some? ==> !M.MemoryOk(visits, c)
      invariant fault.None? ==> memory == done && |done| <= M.MAX_MEMORY_NODES
      invariant fault.None? ==> forall p :: p in done ==> NodeOk(visits, p, c)
    {
      var v := visits[i];
      MemoryOn(visits, i, c, |memory|, fault);
      PathsOn(visits, i, done);
      if M.MarksMemory(v) {
        var f := CheckNode(visits, v.path, c, |memory|);
        if f.Some? {
          if fault.None? { NodeSpoils(visits, i, c, done); }
          fault := f;
        } else {
          NodeIsOk(visits, i, c, |memory|);
          memory := memory + [v.path];
        }
        done := done + [v.path];
      }
    }
    assert done + [] == done;
    return if fault.Some? then Err(fault.value) else Ok(memory);
  }

  // ---- Reservations and names -----------------------------------------------------------------------

  /** Whether the region is already reserved, unless a reservation wraps or meets it otherwise. */
  method ReadReserved(entries: Bytes, r: Region) returns (already: Result<bool, FdtError>)
    requires r.Valid() && |entries| % 16 == 0
    ensures already.Ok? <==> M.ReservedOk(M.Reserved(entries), r)
    ensures already == match ReservedFault(M.Reserved(entries), r)
                       case Some(e) => Err(e) case None => Ok(M.Includes(M.Reserved(entries), r))
  {
    ghost var all, n := M.Reserved(entries), 0;
    var rest, found := entries, false;
    ReservedFaultExact(all, r);
    while rest != []
      invariant |rest| % 16 == 0 && n <= |all| && DecodeBanks(rest, M.WIDE) == all[n..]
      invariant ReservedFault(all, r) == ReservedFault(all[n..], r)
      invariant found <==> exists j: nat :: j < n && all[j].size != 0 && M.SameAs(all[j], r)
      decreases |rest|
    {
      Peel(rest, M.WIDE);
      var bank := DecodeBank(rest[..16], M.WIDE);
      assert all[n] == bank && all[n..][1..] == all[n + 1..];
      if bank.size != 0 {
        if bank.start + bank.size >= U64_LIMIT { return Err(MemoryRanges); }
        if !Outside(bank, r) {
          if !M.SameAs(bank, r) { return Err(ReservationConflict); }
          found := true;
        }
      }
      rest := rest[16..];
      n := n + 1;
    }
    return Ok(found);
  }

  /** Where a name was seen last, the strings from `pos` on still to come. */
  ghost function Latest(rest: seq<Bytes>, name: Bytes, found: Option<nat>, pos: nat): Option<nat> {
    var later := M.LastNamed(rest, name, pos);
    if later.Some? then later else found
  }

  lemma {:induction false} LatestCons(s: Bytes, rest: seq<Bytes>, name: Bytes, found: Option<nat>, pos: nat)
    ensures Latest([s] + rest, name, found, pos)
         == Latest(rest, name, if s == name then Some(pos) else found, pos + |s| + 1)
  {
    assert ([s] + rest)[1..] == rest && ([s] + rest)[0] == s;
  }

  ghost predicate Searched(all: Option<seq<Bytes>>, rest: Option<seq<Bytes>>, name: Bytes,
                           found: Option<nat>, pos: nat)
  {
    && (all.None? <==> rest.None?)
    && (all.Some? ==> M.LastNamed(all.value, name, 0) == Latest(rest.value, name, found, pos))
  }

  lemma {:induction false} SplitStrings(s: Bytes)
    requires s != []
    ensures FirstNul(s).None? ==> M.Strings(s).None?
    ensures FirstNul(s).Some? ==>
              var rest := M.Strings(s[FirstNul(s).value + 1..]);
              M.Strings(s) == if rest.None? then None else Some([s[..FirstNul(s).value]] + rest.value)
  {
  }

  /** The string at the front of the rest of a block, and what follows it. */
  method NextString(s: Bytes, name: Bytes, ghost all: Option<seq<Bytes>>, found: Option<nat>, pos: nat)
    returns (next: Option<(Option<nat>, nat)>)
    requires s != [] && Searched(all, M.Strings(s), name, found, pos)
    ensures next.None? ==> all.None?
    ensures next.Some? ==> 0 < next.value.1 <= |s|
    ensures next.Some? ==> Searched(all, M.Strings(s[next.value.1..]), name, next.value.0, pos + next.value.1)
  {
    SplitStrings(s);
    var length := FirstNul(s);
    if length.None? { return None; }
    var n := length.value;
    ghost var rest := M.Strings(s[n + 1..]);
    if rest.Some? { LatestCons(s[..n], rest.value, name, found, pos); }
    return Some((if s[..n] == name then Some(pos) else found, n + 1));
  }

  method LastOffset(strings: Bytes, name: Bytes) returns (r: Option<Option<nat>>)
    ensures r == match M.Strings(strings) case None => None case Some(list) => Some(M.LastNamed(list, name, 0))
  {
    ghost var all := M.Strings(strings);
    var found: Option<nat>, pos, rest := None, 0, strings;
    while rest != []
      invariant Searched(all, M.Strings(rest), name, found, pos)
      decreases |rest|
    {
      var next := NextString(rest, name, all, found, pos);
      if next.None? { return None; }
      found, pos, rest := next.value.0, pos + next.value.1, rest[next.value.1..];
    }
    assert M.Strings(rest) == Some([]);
    return Some(found);
  }

  /** Where the published property's name is, appended if it was nowhere. */
  method FindName(strings: Bytes) returns (r: Result<M.Names, FdtError>)
    ensures r == match M.Named(strings) case Some(names) => Ok(names) case None => Err(String)
  {
    var found := LastOffset(strings, M.RESIDENT);
    if found.None? { return Err(String); }
    if found.value.None? { return Ok(M.Names(|strings|, strings + M.RESIDENT + [0])); }
    return Ok(M.Names(found.value.value, strings));
  }

  // ---- The plan -----------------------------------------------------------------------------------------

  method MakePlan(t: F.Tree, r: Region) returns (p: Result<M.Plan, FdtError>)
    requires r.Valid() && |t.blob.entries| % 16 == 0
    ensures p == match M.Planned(t, r) case Some(plan) => Ok(plan) case None => Err(PlanFault(t, r))
  {
    var address := ReadCount(t.visits, M.ADDRESS_CELLS, 2);
    if address.Err? { return Err(address.error); }
    var size := ReadCount(t.visits, M.SIZE_CELLS, 1);
    if size.Err? { return Err(size.error); }
    var c := Cells(address.value, size.value);
    var memory := FindMemory(t.visits, c);
    if memory.Err? { return Err(memory.error); }
    var already := ReadReserved(t.blob.entries, r);
    if already.Err? { return Err(already.error); }
    var names := FindName(t.blob.strings);
    if names.Err? { return Err(names.error); }
    var entries := t.blob.entries;
    if !already.value { entries := entries + EncodeBank(Bank(r.start, r.end - r.start), M.WIDE); }
    return Ok(M.Plan(M.Policy(names.value.offset, r, c, memory.value, names.value.strings), entries));
  }
}
