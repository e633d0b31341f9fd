/** The strings block: names that stay, and the resident name that is found or appended. */
module FdtNames {
  import opened Types
  import opened FdtRanges
  import opened FdtTokens
  import opened Fdt
  import opened FdtMemory
  import opened FdtCopy

  // ---- Strings ---------------------------------------------------------------------------------

  lemma {:induction false} FirstNulPrefix(a: Bytes, b: Bytes)
    requires FirstNul(a).Some?
    ensures FirstNul(a + b) == FirstNul(a)
  {
    if a[0] != 0 {
      FirstNulPrefix(a[1..], b);
      assert (a + b)[1..] == a[1..] + b;
    }
  }

  /** More strings change no name that was there. */
  lemma NameKept(strings: Bytes, more: Bytes, offset: nat)
    requires NameAt(strings, offset).Some?
    ensures NameAt(strings + more, offset) == NameAt(strings, offset)
  {
    var tail := strings[offset..];
    FirstNulPrefix(tail, more);
    assert (strings + more)[offset..] == tail + more;
    var n := FirstNul(tail).value;
    assert (strings + more)[offset..offset + n] == strings[offset..offset + n];
  }

  /** `name` stands at `o`, ended by a zero. */
  ghost predicate Stands(strings: Bytes, name: Bytes, o: nat) {
    o + |name| < |strings| && strings[o..o + |name|] == name && strings[o + |name|] == 0
  }

  lemma StandsAt(strings: Bytes, name: Bytes, o: nat)
    requires Stands(strings, name, o) && NoNul(name) && name != [] && Utf8(name)
    ensures NameAt(strings, o) == Some(name)
  {
    var tail := strings[o..];
    assert tail == name + [0] + tail[|name| + 1..];
    FirstNulAt(name, tail[|name| + 1..]);
  }

  function Join(strings: seq<Bytes>): Bytes {
    if strings == [] then [] else strings[0] + [0] + Join(strings[1..])
  }

  lemma Uncons(s: Bytes) returns (first: Bytes, rest: Bytes, list: seq<Bytes>)
    requires s != [] && Strings(s).Some?
    ensures s == first + [0] + rest && NoNul(first)
    ensures Strings(rest) == Some(list) && Strings(s) == Some([first] + list)
  {
    var n := FirstNul(s).value;
    first, rest := s[..n], s[n + 1..];
    list := Strings(rest).value;
  }

  lemma StringsCons(name: Bytes, rest: Bytes, list: seq<Bytes>)
    requires NoNul(name) && Strings(rest) == Some(list)
    ensures Strings(name + [0] + rest) == Some([name] + list)
  {
    var s := name + [0] + rest;
    FirstNulAt(name, rest);
    assert s[..|name|] == name && s[|name| + 1..] == rest;
  }

  lemma JoinCons(first: Bytes, list: seq<Bytes>)
    ensures Join([first] + list) == first + [0] + Join(list)
  {
    assert ([first] + list)[1..] == list;
  }

  lemma {:induction false} StringsJoin(s: Bytes)
    requires Strings(s).Some?
    ensures Join(Strings(s).value) == s
    decreases |s|
  {
    if s != [] {
      var first, rest, list := Uncons(s);
      StringsJoin(rest);
      JoinCons(first, list);
    }
  }

  lemma {:induction false} StringsAppend(s: Bytes, list: seq<Bytes>, name: Bytes)
    requires Strings(s) == Some(list) && NoNul(name)
    ensures Strings(s + (name + [0])) == Some(list + [name])
    decreases |s|
  {
    if s == [] {
      StringsCons(name, [], []);
      assert s + (name + [0]) == name + [0] + [];
      assert [] + [name] == [name] + [];
    } else {
      var first, rest, tail := Uncons(s);
      StringsAppend(rest, tail, name);
      StringsCons(first, rest + (name + [0]), tail + [name]);
      Associative(first + [0], rest, name + [0]);
      Associative([first], tail, [name]);
    }
  }

  lemma {:induction false} LastNamedStands(before: Bytes, strings: seq<Bytes>, name: Bytes)
    requires LastNamed(strings, name, |before|).Some?
    ensures Stands(before + Join(strings), name, LastNamed(strings, name, |before|).value)
    decreases |strings|
  {
    var first, rest := strings[0], strings[1..];
    var more := before + first + [0];
    assert before + Join(strings) == more + Join(rest);
    if LastNamed(rest, name, |more|).Some? {
      LastNamedStands(more, rest, name);
    } else {
      var all := before + Join(strings);
      assert all[|before|..|before| + |first|] == first && all[|before| + |first|] == 0;
    }
  }

  lemma {:induction false} LastNamedAppended(strings: seq<Bytes>, name: Bytes, base: nat)
    ensures LastNamed(strings + [name], name, base) == Some(base + |Join(strings)|)
  {
    if strings == [] {
      assert [] + [name] == [name] && [name][1..] == [];
    } else {
      assert (strings + [name])[1..] == strings[1..] + [name];
      LastNamedAppended(strings[1..], name, base + |strings[0]| + 1);
    }
  }

  /** Where the name was found or put it is found again, and nothing is appended twice. */
  lemma NamedTwice(strings: Bytes)
    requires Named(strings).Some?
    ensures
      var n := Named(strings).value;
      && Stands(n.strings, RESIDENT, n.offset) && Named(n.strings) == Some(n) && strings <= n.strings
      && n.offset <= |strings|
  {
    CleanNames();
    var list := Strings(strings).value;
    StringsJoin(strings);
    if LastNamed(list, RESIDENT, 0).Some? {
      LastNamedStands([], list, RESIDENT);
      assert [] + Join(list) == strings;
      StandsInside(strings, RESIDENT, LastNamed(list, RESIDENT, 0).value);
    } else {
      AppendedName(strings, list, RESIDENT);
    }
  }

  lemma {:induction false} AppendedName(strings: Bytes, list: seq<Bytes>, name: Bytes)
    requires NoNul(name) && Strings(strings) == Some(list) && Join(list) == strings
    ensures Strings(strings + name + [0]) == Some(list + [name]) && Stands(strings + name + [0], name, |strings|)
    ensures LastNamed(list + [name], name, 0) == Some(|strings|)
  {
    NamedLast(list, name, |strings|);
    StringsAppend(strings, list, name);
    Associative(strings, name, [0]);
    StandsLast(strings, name);
  }

  lemma {:induction false} NamedLast(list: seq<Bytes>, name: Bytes, n: nat)
    requires |Join(list)| == n
    ensures LastNamed(list + [name], name, 0) == Some(n)
  {
    LastNamedAppended(list, name, 0);
  }

  lemma StandsLast(strings: Bytes, name: Bytes)
    ensures Stands(strings + name + [0], name, |strings|)
  {
    var all := strings + name + [0];
    assert all[|strings|..|strings| + |name|] == name && all[|strings| + |name|] == 0;
  }

  lemma StandsInside(strings: Bytes, name: Bytes, o: nat)
    requires Stands(strings, name, o)
    ensures o <= |strings|
  {
  }

  lemma NamesKept(strings: Bytes, longer: Bytes)
    requires strings <= longer
    ensures forall offset: nat :: NameAt(strings, offset).Some? ==> NameAt(longer, offset) == NameAt(strings, offset)
  {
    forall offset: nat | NameAt(strings, offset).Some? ensures NameAt(longer, offset) == NameAt(strings, offset) {
      assert longer == strings + longer[|strings|..];
      NameKept(strings, longer[|strings|..], offset);
    }
  }

  lemma ResidentStands(strings: Bytes, o: nat)
    requires Stands(strings, RESIDENT, o)
    ensures NameAt(strings, o) == Some(RESIDENT)
  {
    Distinct();
    CleanNames();
    StandsAt(strings, RESIDENT, o);
  }

  /** The policy of a plan resolves the names of the tree it was made for, and its own. */
  lemma PlanResolves(t: Tree, r: Region)
    requires r.Valid() && |t.blob.entries| % 16 == 0 && |t.blob.strings| < U32_LIMIT && Planned(t, r).Some?
    ensures
      var p := Planned(t, r).value.policy;
      Resolves(t.blob.strings, p) && Resolves(p.strings, p)
  {
    var p := Planned(t, r).value.policy;
    NamedTwice(t.blob.strings);
    ResidentStands(p.strings, p.nameOffset);
    NamesKept(t.blob.strings, p.strings);
  }
}
