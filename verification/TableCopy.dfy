/**
 ets_base::table_elementwise_copy (src/intel/include/tbb/enumerable_thread_specific.h): the copy of a
 container gets one table, of the size of the original's root, that takes in the entries of all tables.
 Nobody else uses either container meanwhile.
 */
module TableCopy {
  import opened Buckets
  import opened ThreadTable

  /** What holds of the copy c while it fills up; its element number i is a copy of element added[i]. */
  ghost predicate Copying(other: State, c: State, added: seq<int>, start: (nat, nat) -> nat)
    requires other.tables != []
  {
    && Lengths(c) && c.threads == other.threads && c.ticket == other.ticket && c.count == other.count
    && |c.tables| == 1 && c.tables[0].lg == other.tables[Root(other)].lg
    && TableOk(c, start, 0) && LocalsOk(c) && LocalsInTable(c) && AreCopies(other, c, added)
  }

  /** The threads with an element are those with an entry in the table. */
  ghost predicate LocalsInTable(c: State)
    requires Lengths(c) && |c.tables| == 1
  {
    forall t {:trigger Absent(c.tables[0], t)} | 0 <= t < |c.threads| ::
      && (c.local[t] == EMPTY <==> Absent(c.tables[0], t))
      && c.made[t] == (if c.local[t] == EMPTY then 0 else 1)
  }

  /** Each copied element belongs to the owner of the original, and there are no other elements. */
  ghost predicate AreCopies(other: State, c: State, added: seq<int>) {
    && |c.local| == |other.local| && c.pointers == |added|
    && (forall t | 0 <= t < |c.local| && c.local[t] != EMPTY ::
          0 <= c.local[t] < |added| && added[c.local[t]] == other.local[t] != EMPTY)
    && (forall i | 0 <= i < |added| :: i in c.local)
  }

  /** The threads with an entry among the first n slots have an element in c. */
  predicate Covered(c: State, slots: seq<Slot>, n: nat)
    requires n <= |slots|
  {
    forall j | 0 <= j < n && 0 <= slots[j].key < |c.local| :: c.local[slots[j].key] != EMPTY
  }

  /** The threads with an entry in a table from r on have an element in c. */
  predicate CoveredFrom(other: State, c: State, r: int) {
    forall q {:trigger other.tables[q]} | 0 <= q < |other.tables| && r <= q ::
      Covered(c, other.tables[q].slots, |other.tables[q].slots|)
  }

  /** The container whose only table is tab. */
  function Holding(other: State, tab: Table, local: seq<int>, made: seq<nat>, elements: nat): (c: State) {
    State([tab], other.count, other.threads, other.ticket, local, made, elements)
  }

  /** Slot j gets an entry for thread k with a new element. */
  function With(c: State, j: nat, k: nat): (c': State)
    requires |c.tables| == 1 && j < |c.tables[0].slots| && k < |c.local| == |c.made|
  {
    c.(tables := [c.tables[0].(slots := c.tables[0].slots[j := Slot(k, c.pointers)])],
       local := c.local[k := c.pointers], made := c.made[k := 1], pointers := c.pointers + 1)
  }

  /** An entry of a settled container: its pointer is its owner's, who is entitled to a place in the root. */
  lemma EntryOfSettled(s: State, start: (nat, nat) -> nat, r: nat, j: nat)
    requires Settled(s, start) && r < |s.tables| && j < |s.tables[r].slots| && s.tables[r].slots[j].key != EMPTY
    ensures (var slot := s.tables[r].slots[j];
             && 0 <= slot.key < |s.threads| && slot.ptr == s.local[slot.key] != EMPTY
             && 1 <= s.ticket[slot.key] <= Size(s.tables[Root(s)]) / 2)
  {
    var k := s.tables[r].slots[j].key;
    assert TableOk(s, start, r) && SlotOk(s, start, r, j);
    assert ThreadOk(s, start, k);
    if r < Root(s) {
      Pow2Grows(s.tables[r].lg, s.tables[Root(s)].lg);
    }
  }

  lemma NothingCopied(other: State, c: State, start: (nat, nat) -> nat)
    requires Settled(other, start) && other.tables != []
    requires c == Holding(other, Fresh(other.tables[Root(other)].lg),
                          seq(|other.local|, _ => EMPTY), seq(|other.made|, _ => 0), 0)
    ensures Copying(other, c, [], start)
  {
    assert TableOk(other, start, Root(other));
    assert forall j | 0 <= j < |c.tables[0].slots| :: SlotOk(c, start, 0, j);
  }

  /** An entry in the first empty slot of its probe sequence leaves every entry within reach of its own. */
  lemma AddKeepsTable(c: State, start: (nat, nat) -> nat, k: nat, d: nat)
    requires Lengths(c) && |c.tables| == 1 && TableOk(c, start, 0) && k < |c.threads|
    requires forall t | 0 <= t < |c.threads| :: c.threads[t].Idle?
    requires 1 <= c.ticket[k] <= Size(c.tables[0]) / 2 && Absent(c.tables[0], k)
    requires Passed(c.tables[0], start, k, d) && !FullAt(c.tables[0], start, k, d)
    ensures TableOk(With(c, Pos(start, k, c.tables[0].lg, d), k), start, 0)
  {
    var j := Pos(start, k, c.tables[0].lg, d);
    var c' := With(c, j, k);
    var tab, tab' := c.tables[0], c'.tables[0];
    forall i | 0 <= i < |tab'.slots| ensures SlotOk(c', start, 0, i) {
      if i == j {
        OwnPathKept(tab, tab', start, k, d);
      } else if tab.slots[i].key != EMPTY {
        var u := tab.slots[i].key;
        assert SlotOk(c, start, 0, i);
        var e := EntryAt(c, start, 0, u, i);
        PassedKept(tab, tab', start, k, u, e);
      }
    }
  }

  lemma OwnPathKept(tab: Table, tab': Table, start: (nat, nat) -> nat, k: nat, d: nat)
    requires |tab.slots| == Size(tab) && Passed(tab, start, k, d) && !FullAt(tab, start, k, d)
    requires exists ptr :: tab' == tab.(slots := tab.slots[Pos(start, k, tab.lg, d) := Slot(k, ptr)])
    ensures |tab'.slots| == Size(tab') && Passed(tab', start, k, d)
  {
    forall e | 0 <= e < d ensures FullAt(tab', start, k, e) && !HasAt(tab', start, k, e) {
      assert FullAt(tab, start, k, e);
    }
  }

  lemma AddKeepsLocals(c: State, j: nat, k: nat)
    requires Lengths(c) && |c.tables| == 1 && LocalsOk(c) && LocalsInTable(c) && k < |c.threads|
    requires j < |c.tables[0].slots| && c.tables[0].slots[j].key == EMPTY
    ensures LocalsOk(With(c, j, k)) && LocalsInTable(With(c, j, k))
  {
    var c' := With(c, j, k);
    forall t | 0 <= t < |c'.threads|
      ensures (c'.local[t] == EMPTY <==> Absent(c'.tables[0], t))
      ensures c'.made[t] == (if c'.local[t] == EMPTY then 0 else 1)
    {
      if t == k {
        assert c'.tables[0].slots[j].key == t;
      } else {
        AbsentKept(c.tables[0], c'.tables[0], k, t);
      }
    }
  }

  lemma AddKeepsCopies(other: State, c: State, added: seq<int>, j: nat, k: nat)
    requires |c.tables| == 1 && AreCopies(other, c, added) && k < |c.local| == |c.made| && c.local[k] == EMPTY
    requires j < |c.tables[0].slots| && other.local[k] != EMPTY
    ensures AreCopies(other, With(c, j, k), added + [other.local[k]])
  {
    var c', added' := With(c, j, k), added + [other.local[k]];
    forall i | 0 <= i < |added'| ensures i in c'.local {
      if i == |added| {
        assert c'.local[k] == i;
      } else {
        assert i in c.local;
        var t :| 0 <= t < |c.local| && c.local[t] == i;
        assert c'.local[t] == i;
      }
    }
  }

  /** When every entry was looked at, each thread has a copy of its element, and the copy is fit for use. */
  lemma CopyIsSettled(other: State, c: State, added: seq<int>, start: (nat, nat) -> nat)
    requires Settled(other, start) && other.tables != [] && Copying(other, c, added, start)
    requires CoveredFrom(other, c, 0)
    ensures Settled(c, start)
    ensures forall t | 0 <= t < |c.local| :: c.local[t] == EMPTY <==> other.local[t] == EMPTY
  {
    forall t | 0 <= t < |c.local| ensures c.local[t] == EMPTY <==> other.local[t] == EMPTY {
      if other.local[t] != EMPTY {
        assert ThreadOk(other, start, t);
        var q :| 0 <= q < |other.tables| && !Absent(other.tables[q], t);
        var j :| 0 <= j < |other.tables[q].slots| && other.tables[q].slots[j].key == t;
        assert Covered(c, other.tables[q].slots, |other.tables[q].slots|);
      }
    }
    forall t | 0 <= t < |c.threads| ensures ThreadOk(c, start, t) {
      assert c.local[t] == EMPTY <==> Absent(c.tables[0], t);
    }
  }

  /** No element is copied twice. */
  lemma CopiedOnce(other: State, c: State, added: seq<int>)
    requires Lengths(other) && LocalsOk(other) && AreCopies(other, c, added)
    ensures forall i, k | 0 <= i < k < |added| :: added[i] != added[k]
  {
    forall i, k | 0 <= i < k < |added| ensures added[i] != added[k] {
      assert i in c.local && k in c.local;
      var t :| 0 <= t < |c.local| && c.local[t] == i;
      var u :| 0 <= u < |c.local| && c.local[u] == k;
      assert added[i] == other.local[t] && added[k] == other.local[u];
      assert t < u || u < t;
    }
  }

  /** The next slot of a probe sequence, as the loops compute it. */
  lemma PosNext(start: (nat, nat) -> nat, k: nat, lg: nat, d: nat)
    ensures Pos(start, k, lg, d + 1) == (Pos(start, k, lg, d) + 1) % Pow2(lg)
  {
    NextMod(start(k, lg) + d, Pow2(lg));
  }

  lemma NextMod(x: nat, m: nat)
    requires m > 0
    ensures (x + 1) % m == (x % m + 1) % m
  {
    var q, r := x / m, x % m;
    assert x + 1 == m * q + (r + 1);
    ModShift(m, q, r + 1);
  }

  lemma PassOn(c: State, start: (nat, nat) -> nat, k: nat, d: nat)
    requires Lengths(c) && TicketsOk(c) && |c.tables| == 1 && TableOk(c, start, 0)
    requires Passed(c.tables[0], start, k, d)
    requires FullAt(c.tables[0], start, k, d) && !HasAt(c.tables[0], start, k, d)
    ensures Passed(c.tables[0], start, k, d + 1) && d < Size(c.tables[0])
  {
    PassedMore(c.tables[0], start, k, d);
    PassedIsShort(c, start, 0, k, d + 1);
  }

  /** Looks for thread k's place in the new table: its entry, or the first empty slot of its probe sequence. */
  method FindPlace(root: array<Slot>, lg: nat, start: (nat, nat) -> nat, k: nat, ghost c: State)
    returns (j: nat, ghost d: nat)
    requires Lengths(c) && TicketsOk(c) && c.tables == [Table(lg, root[..])] && TableOk(c, start, 0)
    ensures j < root.Length && j == Pos(start, k, lg, d) && Passed(c.tables[0], start, k, d)
    ensures root[j].key == EMPTY || root[j].key == k
  {
    j, d := Pos(start, k, lg, 0), 0;
    while root[j].key != EMPTY && root[j].key != k
      invariant 0 <= j < root.Length && j == Pos(start, k, lg, d) && Passed(c.tables[0], start, k, d)
      decreases Pow2(lg) - d
    {
      PassOn(c, start, k, d);
      PosNext(start, k, lg, d);
      j, d := (j + 1) % Pow2(lg), d + 1;
    }
  }

  lemma AddKeepsCopying(other: State, c: State, added: seq<int>, start: (nat, nat) -> nat, k: nat, d: nat)
    requires Settled(other, start) && other.tables != [] && Copying(other, c, added, start)
    requires k < |c.threads| && 1 <= c.ticket[k] <= Size(c.tables[0]) / 2 && other.local[k] != EMPTY
    requires Passed(c.tables[0], start, k, d) && !FullAt(c.tables[0], start, k, d)
    ensures Copying(other, With(c, Pos(start, k, c.tables[0].lg, d), k), added + [other.local[k]], start)
    ensures c.local[k] == EMPTY
  {
    var j := Pos(start, k, c.tables[0].lg, d);
    EmptyEndsTable(c, start, 0, k, d);
    AddKeepsTable(c, start, k, d);
    AddKeepsLocals(c, j, k);
    AddKeepsCopies(other, c, added, j, k);
  }

  /** Takes thread k's entry over, unless it has one already. */
  method CopyEntry(root: array<Slot>, lg: nat, start: (nat, nat) -> nat, s1: Slot, added: seq<int>,
                   ghost other: State, ghost c: State)
    returns (added': seq<int>, ghost c': State)
    requires Settled(other, start) && other.tables != [] && Copying(other, c, added, start)
    requires c.tables == [Table(lg, root[..])]
    requires 0 <= s1.key < |c.threads| && s1.ptr == other.local[s1.key] != EMPTY
    requires 1 <= c.ticket[s1.key] <= Pow2(lg) / 2
    modifies root
    ensures Copying(other, c', added', start) && c'.tables == [Table(lg, root[..])]
    ensures c'.local[s1.key] != EMPTY
    ensures forall t | 0 <= t < |c.local| && c.local[t] != EMPTY :: c'.local[t] == c.local[t]
  {
    var j, d := FindPlace(root, lg, start, s1.key, c);
    assert c.tables[0].slots[j] == root[j];
    added', c' := added, c;
    if root[j].key == EMPTY {
      AddKeepsCopying(other, c, added, start, s1.key, d);
      c' := With(c, j, s1.key);
      root[j] := Slot(s1.key, |added|);
      added' := added + [s1.ptr];
    } else {
      assert !Absent(c.tables[0], s1.key);
    }
  }

  /** Takes the entries of the original's table r over. */
  method CopyTable(root: array<Slot>, lg: nat, start: (nat, nat) -> nat, other: State, r: nat, added: seq<int>,
                   ghost c: State)
    returns (added': seq<int>, ghost c': State)
    requires Settled(other, start) && r < |other.tables| && lg == other.tables[Root(other)].lg
    requires Copying(other, c, added, start) && c.tables == [Table(lg, root[..])] && CoveredFrom(other, c, r + 1)
    modifies root
    ensures Copying(other, c', added', start) && c'.tables == [Table(lg, root[..])] && CoveredFrom(other, c', r)
  {
    added', c' := added, c;
    var slots := other.tables[r].slots;
    for i := 0 to |slots|
      invariant Copying(other, c', added', start) && c'.tables == [Table(lg, root[..])]
      invariant CoveredFrom(other, c', r + 1) && Covered(c', slots, i)
    {
      if slots[i].key != EMPTY {
        ghost var before := c';
        EntryOfSettled(other, start, r, i);
        added', c' := CopyEntry(root, lg, start, slots[i], added', other, c');
        CoveredMore(other, before, c', r + 1);
      }
    }
  }

  /** The original's elements and nothing else, each once, in a container of their owners that is fit for use. */
  method TableElementwiseCopy(other: State, start: (nat, nat) -> nat)
    returns (root: array?<Slot>, count: nat, added: seq<int>, ghost copy: State)
    requires Settled(other, start)
    ensures (root == null <==> other.tables == []) && (root != null ==> fresh(root))
    ensures copy.tables == if root == null then [] else [Table(other.tables[Root(other)].lg, root[..])]
    ensures copy.count == count == if root == null then 0 else other.count
    ensures copy.threads == other.threads && copy.ticket == other.ticket
    ensures Settled(copy, start) && AreCopies(other, copy, added)
    ensures forall t | 0 <= t < |other.local| :: copy.local[t] == EMPTY <==> other.local[t] == EMPTY
    ensures forall i, k | 0 <= i < k < |added| :: added[i] != added[k]
  {
    count, added := 0, [];
    if other.tables == [] {
      root := null;
      copy := State([], 0, other.threads, other.ticket, other.local, other.made, 0);
      NoTables(other, copy, start);
      return;
    }
    var lg := other.tables[|other.tables| - 1].lg;
    var table := new Slot[Pow2(lg)](_ => Slot(EMPTY, EMPTY));
    count := other.count;
    copy := Holding(other, Fresh(lg), seq(|other.local|, _ => EMPTY), seq(|other.made|, _ => 0), 0);
    NothingCopied(other, copy, start);
    assert table[..] == Fresh(lg).slots;
    var r := |other.tables| - 1;
    while r >= 0
      invariant -1 <= r < |other.tables|
      invariant Copying(other, copy, added, start) && copy.tables == [Table(lg, table[..])]
      invariant CoveredFrom(other, copy, r + 1)
    {
      added, copy := CopyTable(table, lg, start, other, r, added, copy);
      r := r - 1;
    }
    CopyIsSettled(other, copy, added, start);
    CopiedOnce(other, copy, added);
    root := table;
  }

  lemma CoveredMore(other: State, c: State, c': State, r: int)
    requires CoveredFrom(other, c, r) && |c'.local| == |c.local|
    requires forall t | 0 <= t < |c.local| && c.local[t] != EMPTY :: c'.local[t] == c.local[t]
    ensures CoveredFrom(other, c', r)
  {
  }

  /** A container without a table has no elements. */
  lemma NoTables(other: State, copy: State, start: (nat, nat) -> nat)
    requires Settled(other, start) && other.tables == []
    requires copy == State([], 0, other.threads, other.ticket, other.local, other.made, 0)
    ensures Settled(copy, start) && AreCopies(other, copy, [])
  {
    forall t | 0 <= t < |copy.threads| ensures ThreadOk(copy, start, t) && copy.local[t] == EMPTY {
      assert ThreadOk(other, start, t);
    }
  }

  predicate BeginsWith(h: History, s: State) {
    match h
    case Begun(s0) => s0 == s
    case Then(past, _) => BeginsWith(past, s)
  }

  /**
   However the copy is used, a lookup of a thread that had an element returns the copy of this element
   and says that it was there.
   */
  lemma {:induction false} LookupInCopy(other: State, copy: State, added: seq<int>, h: History,
                                        start: (nat, nat) -> nat, t: nat)
    requires Settled(copy, start) && AreCopies(other, copy, added) && BeginsWith(h, copy) && Begins(h, start)
    requires t < |copy.threads| && copy.local[t] != EMPTY
    ensures Threads(h) == |copy.threads|
    ensures (var s := After(h, start);
             && 0 <= s.local[t] < |added| && added[s.local[t]] == other.local[t]
             && !s.threads[t].Creating?
             && (s.threads[t].Returning? ==> s.threads[t].found == s.local[t] && s.threads[t].known))
  {
    BegunIsPast(h, copy, start);
    HadBefore(Begun(copy), h, start, t);
    RunKnows(h, start, t);
    ElementIsStable(Begun(copy), h, start, t);
    assert ThreadOk(After(h, start), start, t);
  }

  lemma {:induction false} BegunIsPast(h: History, s: State, start: (nat, nat) -> nat)
    requires BeginsWith(h, s) && Begins(h, start)
    ensures Extends(h, Begun(s)) && Threads(h) == |s.threads|
  {
    if h.Then? {
      BegunIsPast(h.past, s, start);
    }
  }
}
