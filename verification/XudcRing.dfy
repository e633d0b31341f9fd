/**
 A transfer ring of fifteen descriptors and a link back to the first, shared with the controller. A
 descriptor belongs to the controller while its cycle bit is the one the controller expects. The ring
 is compared with the plain list of everything queued since it was reset.
 */
module XudcRing {
  import opened Types

  const SLOTS := 15

  /** The words of a descriptor; the cycle bit is kept apart from the rest of the control word. */
  datatype Words = Words(low: nat, high: nat, length: nat, control: nat)

  const BLANK := Words(0, 0, 0, 0)

  datatype Trb = Trb(words: Words, cycle: nat)

  datatype Ring = Ring(next: nat, cycle: nat, occupied: set<nat>, trbs: seq<Trb>, link: nat)

  function Blanks(n: nat): (t: seq<Trb>)
    ensures |t| == n && forall i: nat :: i < n ==> t[i] == Trb(BLANK, 0)
  {
    if n == 0 then [] else Blanks(n - 1) + [Trb(BLANK, 0)]
  }

  const FRESH := Ring(0, 1, {}, Blanks(SLOTS), 0)

  predicate Shape(r: Ring) {
    |r.trbs| == SLOTS && r.next < SLOTS && r.cycle < 2 && r.link < 2 && forall s :: s in r.occupied ==> s < SLOTS
  }

  function Flip(c: nat): nat { if c == 0 then 1 else 0 }

  /** Queue one descriptor; `None` is a full ring. The pointer handed back is the slot. */
  function Enqueue(r: Ring, w: Words): (q: Option<(Ring, nat)>)
    requires Shape(r)
    ensures q.Some? ==> Shape(q.value.0)
  {
    if r.next in r.occupied then None
    else
      var filled := r.(occupied := r.occupied + {r.next}, trbs := r.trbs[r.next := Trb(w, r.cycle)]);
      var after := if r.next + 1 < SLOTS then filled.(next := r.next + 1)
                   else filled.(next := 0, cycle := Flip(r.cycle), link := r.cycle);
      Some((after, r.next))
  }

  /** A completion event for `slot`: whether it was outstanding, and the ring without it. */
  function Retire(r: Ring, slot: nat): (Ring, bool) {
    (r.(occupied := r.occupied - {slot}), slot < SLOTS && slot in r.occupied)
  }

  // ---- The controller ---------------------------------------------------------------------------

  /** Where the controller looks next; slot fifteen is the link. */
  datatype Consumer = Consumer(index: nat, cycle: nat)

  predicate Sees(r: Ring, c: Consumer)
    requires Shape(r)
  {
    if c.index < SLOTS then r.trbs[c.index].cycle == c.cycle else r.link == c.cycle
  }

  function Advance(c: Consumer): Consumer {
    if c.index < SLOTS then Consumer(c.index + 1, c.cycle) else Consumer(0, Flip(c.cycle))
  }

  // ---- The list it stands for ----------------------------------------------------------------------

  /** The cycle bit of lap `n`. */
  function Lap(n: nat): nat { if n % 2 == 0 then 1 else 0 }

  /**
   Everything queued since the reset; how many of those completed, in order, and how many the
   controller has fetched; and whether it still has to follow the link.
   */
  datatype List = List(all: seq<Words>, done: nat, fetched: nat, atLink: bool)

  function Position(l: List): Consumer {
    if l.atLink then Consumer(SLOTS, Flip(Lap(l.fetched / SLOTS)))
    else Consumer(l.fetched % SLOTS, Lap(l.fetched / SLOTS))
  }

  /** Descriptor `i` is where it was put, with its lap's cycle bit. */
  ghost predicate Holds(r: Ring, all: seq<Words>, i: nat)
    requires Shape(r) && i < |all|
  {
    r.trbs[i % SLOTS] == Trb(all[i], Lap(i / SLOTS))
  }

  ghost predicate Outstanding(r: Ring, l: List) {
    forall s: nat :: s in r.occupied <==> exists i: nat :: l.done <= i < |l.all| && i % SLOTS == s
  }

  ghost predicate Inv(r: Ring, l: List) {
    && Shape(r) && l.done <= l.fetched <= |l.all| <= l.done + SLOTS
    && r.next == |l.all| % SLOTS && r.cycle == Lap(|l.all| / SLOTS)
    && r.link == (if |l.all| < SLOTS then 0 else Flip(r.cycle))
    && (forall i: nat :: i < |l.all| && |l.all| <= i + SLOTS ==> Holds(r, l.all, i))
    && (forall s: nat :: |l.all| <= s < SLOTS ==> r.trbs[s].cycle == 0)
    && Outstanding(r, l)
    && (l.atLink ==> l.fetched > 0 && l.fetched % SLOTS == 0)
  }

  /** A fresh ring holds nothing: every word and cycle bit is zero. */
  lemma FreshInv()
    ensures Inv(FRESH, List([], 0, 0, false))
    ensures forall i: nat :: i < 15 ==> FRESH.trbs[i] == Trb(Words(0, 0, 0, 0), 0)
  {
  }

  lemma NextSlot(n: nat)
    ensures (n + 1) % SLOTS == if n % SLOTS + 1 < SLOTS then n % SLOTS + 1 else 0
    ensures (n + 1) / SLOTS == if n % SLOTS + 1 < SLOTS then n / SLOTS else n / SLOTS + 1
    ensures Lap(n / SLOTS + 1) == Flip(Lap(n / SLOTS))
  {
  }

  lemma SameSlot(i: nat, j: nat)
    requires i % SLOTS == j % SLOTS && i < j
    ensures i + SLOTS <= j
  {
  }

  /** The ring is full exactly when fifteen descriptors are outstanding. */
  lemma FullExact(r: Ring, l: List)
    requires Inv(r, l)
    ensures r.next in r.occupied <==> |l.all| == l.done + 15
  {
    if r.next in r.occupied {
      var i: nat :| l.done <= i < |l.all| && i % SLOTS == r.next;
      SameSlot(i, |l.all|);
    }
    if |l.all| == l.done + SLOTS { NextLap(l.done); }
  }

  lemma NextLap(n: nat)
    ensures (n + SLOTS) % SLOTS == n % SLOTS
  {
  }

  lemma QueueOutstanding(r: Ring, l: List, w: Words)
    requires Inv(r, l) && r.next !in r.occupied
    ensures Outstanding(Enqueue(r, w).value.0, l.(all := l.all + [w]))
  {
    var after, more := Enqueue(r, w).value.0, l.(all := l.all + [w]);
    forall s: nat
      ensures s in after.occupied <==> exists i: nat :: more.done <= i < |more.all| && i % SLOTS == s {
      if s in r.occupied {
        var i: nat :| l.done <= i < |l.all| && i % SLOTS == s;
        assert more.done <= i < |more.all|;
      }
      if s == r.next { assert |l.all| < |more.all| && |l.all| % SLOTS == s; }
    }
  }

  lemma QueueHolds(r: Ring, l: List, w: Words)
    requires Inv(r, l) && r.next !in r.occupied
    ensures Shape(Enqueue(r, w).value.0)
    ensures forall i: nat :: i < |l.all| + 1 && |l.all| + 1 <= i + SLOTS ==>
              Holds(Enqueue(r, w).value.0, l.all + [w], i)
  {
    var after, n := Enqueue(r, w).value.0, |l.all|;
    forall i: nat | i < n + 1 && n + 1 <= i + SLOTS ensures Holds(after, l.all + [w], i) {
      if i < n {
        assert Holds(r, l.all, i);
        if i % SLOTS == n % SLOTS { SameSlot(i, n); }
      }
    }
  }

  /**
   Queueing appends to the list, hands back the slot of its entry, and rewrites no descriptor that is
   still outstanding.
   */
  lemma QueueAppends(r: Ring, l: List, w: Words)
    requires Inv(r, l) && |l.all| < l.done + SLOTS
    ensures
      var q := Enqueue(r, w);
      && q.Some? && Inv(q.value.0, l.(all := l.all + [w])) && q.value.1 == |l.all| % SLOTS
      && forall s: nat :: s in r.occupied ==> q.value.0.trbs[s] == r.trbs[s]
  {
    FullExact(r, l);
    NextSlot(|l.all|);
    QueueOutstanding(r, l, w);
    QueueHolds(r, l, w);
  }

  lemma RetireOutstanding(r: Ring, l: List)
    requires Inv(r, l) && l.done < |l.all|
    ensures l.done % SLOTS in r.occupied
    ensures Outstanding(Retire(r, l.done % SLOTS).0, l.(done := l.done + 1))
  {
    var c, less := Retire(r, l.done % SLOTS).0, l.(done := l.done + 1);
    assert l.done % SLOTS in r.occupied;
    forall s: nat
      ensures s in c.occupied <==> exists i: nat :: less.done <= i < |less.all| && i % SLOTS == s {
      if s in c.occupied {
        var i: nat :| l.done <= i < |l.all| && i % SLOTS == s;
        assert less.done <= i < |less.all| && i % SLOTS == s;
      }
      if exists i: nat :: less.done <= i < |less.all| && i % SLOTS == s {
        var i: nat :| less.done <= i < |less.all| && i % SLOTS == s;
        assert l.done <= i < |l.all| && i % SLOTS == s;
        if s == l.done % SLOTS { SameSlot(l.done, i); }
      }
    }
  }

  /** The event for the oldest outstanding descriptor frees exactly its slot. */
  lemma CompleteOldest(r: Ring, l: List)
    requires Inv(r, l) && l.done < l.fetched
    ensures
      var c := Retire(r, l.done % SLOTS);
      c.1 && Inv(c.0, l.(done := l.done + 1))
  {
    RetireOutstanding(r, l);
    var c := Retire(r, l.done % SLOTS).0;
    forall i: nat | i < |l.all| && |l.all| <= i + SLOTS ensures Holds(c, l.all, i) { assert Holds(r, l.all, i); }
  }

  /** An event for anything not outstanding is ignored. */
  lemma CompleteStranger(r: Ring, l: List, slot: nat)
    requires Inv(r, l) && forall i: nat :: l.done <= i < |l.all| ==> i % SLOTS != slot
    ensures Retire(r, slot) == (r, false)
  {
    assert r.occupied - {slot} == r.occupied;
  }

  lemma FetchedHolds(r: Ring, l: List)
    requires Inv(r, l) && l.fetched < |l.all|
    ensures Holds(r, l.all, l.fetched)
  {
  }

  lemma LapsDiffer(n: nat)
    requires n >= SLOTS
    ensures Lap((n - SLOTS) / SLOTS) != Lap(n / SLOTS) && (n - SLOTS) % SLOTS == n % SLOTS
  {
    assert (n - SLOTS) / SLOTS == n / SLOTS - 1;
  }

  /** The controller finds a descriptor exactly when one is queued that it has not fetched, and it is that one. */
  lemma SeesNext(r: Ring, l: List)
    requires Inv(r, l) && !l.atLink
    ensures Sees(r, Position(l)) <==> l.fetched < |l.all|
    ensures l.fetched < |l.all| ==> r.trbs[l.fetched % SLOTS].words == l.all[l.fetched]
  {
    var n := |l.all|;
    if l.fetched < n {
      FetchedHolds(r, l);
    } else if n >= SLOTS {
      LapsDiffer(n);
      assert Holds(r, l.all, n - SLOTS);
    } else {
      assert r.trbs[n].cycle == 0;
    }
  }

  /** Fetching it moves on by one, to the link after the last slot. */
  lemma FetchAdvances(r: Ring, l: List)
    requires Inv(r, l) && !l.atLink && l.fetched < |l.all|
    ensures
      var m := l.(fetched := l.fetched + 1, atLink := (l.fetched + 1) % SLOTS == 0);
      Inv(r, m) && Position(m) == Advance(Position(l))
  {
    NextSlot(l.fetched);
  }

  lemma LapOf(f: nat, n: nat)
    requires f % SLOTS == 0 && f <= n <= f + SLOTS
    ensures n / SLOTS == if n < f + SLOTS then f / SLOTS else f / SLOTS + 1
    ensures Lap(f / SLOTS + 1) == Flip(Lap(f / SLOTS))
  {
  }

  /**
   The link can be followed unless a whole further lap was queued before the controller got to it: the
   last descriptor of that lap rewrites the link for the lap after.
   */
  lemma LinkExact(r: Ring, l: List)
    requires Inv(r, l) && l.atLink
    ensures Sees(r, Position(l)) <==> |l.all| < l.fetched + SLOTS
  {
    LapOf(l.fetched, |l.all|);
  }

  lemma LinkAdvances(r: Ring, l: List)
    requires Inv(r, l) && l.atLink
    ensures Inv(r, l.(atLink := false)) && Position(l.(atLink := false)) == Advance(Position(l))
  {
  }

  /** With at most fourteen outstanding the controller is never stopped by the link. */
  lemma LinkFollowed(r: Ring, l: List)
    requires Inv(r, l) && l.atLink && |l.all| < l.done + SLOTS
    ensures Sees(r, Position(l))
  {
    LinkExact(r, l);
  }

  /** Fifteen descriptors queued and nothing completed meanwhile. */
  lemma FillLap(r: Ring, l: List) returns (q: Ring, m: List)
    requires Inv(r, l) && l.done == |l.all|
    ensures Inv(q, m) && |m.all| == |l.all| + SLOTS
    ensures m.done == l.done && m.fetched == l.fetched && m.atLink == l.atLink
    ensures q == EnqueueMany(r, SLOTS)
  {
    q, m := r, l;
    for i := 0 to SLOTS
      invariant Inv(q, m) && |m.all| == |l.all| + i && m == l.(all := m.all) && q == EnqueueMany(r, i)
    {
      QueueAppends(q, m, BLANK);
      q, m := Enqueue(q, BLANK).value.0, m.(all := m.all + [BLANK]);
    }
  }

  /** A ring after `n` blank descriptors were queued. */
  function EnqueueMany(r: Ring, n: nat): Ring
    requires Shape(r)
    ensures Shape(EnqueueMany(r, n))
  {
    if n == 0 then r
    else
      var q := EnqueueMany(r, n - 1);
      if Enqueue(q, BLANK).Some? then Enqueue(q, BLANK).value.0 else q
  }

  function RetireMany(r: Ring, n: nat): Ring
    requires Shape(r)
    ensures Shape(RetireMany(r, n))
  {
    if n == 0 then r else Retire(RetireMany(r, n - 1), (n - 1) % SLOTS).0
  }

  /** The controller fetches and finishes the first lap, in order, and stops at the link. */
  lemma FinishLap(r: Ring, l: List) returns (q: Ring, m: List)
    requires Inv(r, l) && |l.all| == SLOTS && l.done == l.fetched == 0 && !l.atLink
    ensures Inv(q, m) && m.all == l.all && m.done == m.fetched == SLOTS && m.atLink && q == RetireMany(r, SLOTS)
  {
    q, m := r, l;
    for i := 0 to SLOTS
      invariant Inv(q, m) && m.all == l.all && m.done == m.fetched == i && m.atLink == (i == SLOTS)
      invariant q == RetireMany(r, i)
    {
      FetchAdvances(q, m);
      m := m.(fetched := m.fetched + 1, atLink := (m.fetched + 1) % SLOTS == 0);
      CompleteOldest(q, m);
      q, m := Retire(q, m.done % SLOTS).0, m.(done := m.done + 1);
    }
  }

  /**
   With fifteen it can be, and a fresh ring gets there: fifteen queued, fetched and finished in order,
   fifteen more queued, and the controller, still at the link, finds it rewritten.
   */
  lemma LinkOvertaken() returns (l: List)
    ensures
      var r := EnqueueMany(RetireMany(EnqueueMany(FRESH, SLOTS), SLOTS), SLOTS);
      Inv(r, l) && l.atLink && l.done == l.fetched == SLOTS && |l.all| == 2 * SLOTS && !Sees(r, Position(l))
  {
    FreshInv();
    var r;
    r, l := FillLap(FRESH, List([], 0, 0, false));
    r, l := FinishLap(r, l);
    r, l := FillLap(r, l);
    LinkExact(r, l);
  }

  // ---- The driver's half --------------------------------------------------------------------------------

  class Endpoint {
    const words: array<Words>
    const bits: array<nat>
    var link: nat
    var next: nat
    var cycle: nat
    var occupied: set<nat>

    ghost predicate Valid()
      reads this, words, bits
    {
      words.Length == SLOTS && bits.Length == SLOTS && Shape(View())
    }

    ghost function View(): Ring
      requires words.Length == SLOTS && bits.Length == SLOTS
      reads this, words, bits
    {
      Ring(next, cycle, occupied, Pairs(words[..], bits[..]), link)
    }

    constructor ()
      ensures Valid() && View() == FRESH && fresh(words) && fresh(bits)
    {
      words := new Words[SLOTS](_ => BLANK);
      bits := new nat[SLOTS](_ => 0);
      link, next, cycle, occupied := 0, 0, 1, {};
    }

    /** Software state and every descriptor start over. */
    method Reset()
      requires Valid()
      modifies this, words, bits
      ensures Valid() && View() == FRESH
    {
      for i := 0 to SLOTS
        modifies words, bits
        invariant forall j: nat :: j < i ==> words[j] == BLANK && bits[j] == 0
      {
        words[i], bits[i] := BLANK, 0;
      }
      link, next, cycle, occupied := 0, 0, 1, {};
    }

    /** The control word with its cycle bit goes in last, after the rest of the descriptor. */
    method Queue(w: Words) returns (pointer: Option<nat>)
      requires Valid()
      modifies this, words, bits
      ensures Valid()
      ensures
        var q := Enqueue(old(View()), w);
        if q.None? then pointer == None && View() == old(View())
        else pointer == Some(q.value.1) && View() == q.value.0
    {
      if next in occupied { return None; }
      var slot := next;
      ghost var before := View();
      occupied := occupied + {next};
      words[next] := w;
      bits[next] := cycle;
      assert View().trbs == before.trbs[slot := Trb(w, cycle)];
      next := next + 1;
      if next == SLOTS {
        link := cycle;
        next, cycle := 0, Flip(cycle);
      }
      return Some(slot);
    }

    method Complete(slot: nat) returns (outstanding: bool)
      requires Valid()
      modifies this`occupied
      ensures Valid() && (View(), outstanding) == Retire(old(View()), slot)
    {
      outstanding := slot < SLOTS && slot in occupied;
      occupied := occupied - {slot};
    }
  }

  function Pairs(words: seq<Words>, bits: seq<nat>): (t: seq<Trb>)
    requires |words| == |bits|
    ensures |t| == |words| && forall i: nat :: i < |words| ==> t[i] == Trb(words[i], bits[i])
  {
    seq(|words|, i requires 0 <= i < |words| => Trb(words[i], bits[i]))
  }
}
