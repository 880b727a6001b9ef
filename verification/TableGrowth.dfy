/**
 ets_base::table_lookup (src/intel/include/tbb/enumerable_thread_specific.h): the sizes of the tables.
 Each table is meant to be half the size of the one swapped in over it.  When it is, and when not.
 */
module TableGrowth {
  import opened Buckets
  import opened ThreadTable

  /** Table r has half the size of the one that was swapped in over it. */
  predicate HalfAt(tables: seq<Table>, r: nat)
    requires r + 1 < |tables|
  {
    2 * Size(tables[r]) == Size(tables[r + 1])
  }

  ghost predicate Halves(tables: seq<Table>) {
    forall r {:trigger HalfAt(tables, r)} | 0 <= r < |tables| - 1 :: HalfAt(tables, r)
  }

  /** Thread t is about to swap in its table over the root it has read, which is still the root. */
  predicate Swaps(s: State, t: nat)
    requires t < |s.threads|
  {
    s.threads[t].Growing? && s.threads[t].root == Root(s) != EMPTY
  }

  // ---------- how large the new table is ----------

  /** The new table is no larger than its ticket needs. */
  predicate Tight(ph: Phase) {
    ph.Growing? && ph.lg > 2 ==> ph.c > Pow2(ph.lg - 2)
  }

  ghost predicate AllTight(s: State) {
    forall t {:trigger s.threads[t]} | 0 <= t < |s.threads| :: Tight(s.threads[t])
  }

  lemma SizingTight(s: State, start: (nat, nat) -> nat, t: nat)
    requires Lengths(s) && t < |s.threads| && s.threads[t].Sizing?
    requires s.tables != [] ==> s.tables[Root(s)].lg >= 2
    ensures Tight(Step(s, start, t).threads[t])
  {
    if s.tables != [] {
      assert Size(s.tables[Root(s)]) == 2 * Pow2(s.tables[Root(s)].lg - 1);
    }
  }

  lemma GrowingTight(s: State, start: (nat, nat) -> nat, t: nat)
    requires Lengths(s) && t < |s.threads| && s.threads[t].Growing? && Tight(s.threads[t])
    ensures Tight(Step(s, start, t).threads[t])
  {
  }

  lemma AtTableTight(s: State, start: (nat, nat) -> nat, t: nat)
    requires Lengths(s) && t < |s.threads|
    requires s.threads[t].Scan? || s.threads[t].Probing? || s.threads[t].Claiming? || s.threads[t].Writing?
    ensures !Step(s, start, t).threads[t].Growing?
  {
  }

  lemma OwnTight(s: State, start: (nat, nat) -> nat, t: nat)
    requires Lengths(s) && t < |s.threads| && Tight(s.threads[t]) && !s.threads[t].Sizing?
    ensures Tight(Step(s, start, t).threads[t])
  {
    var ph := s.threads[t];
    if ph.Growing? {
      GrowingTight(s, start, t);
    } else if ph.Scan? || ph.Probing? || ph.Claiming? || ph.Writing? {
      AtTableTight(s, start, t);
    }
  }

  lemma StepTight(s: State, start: (nat, nat) -> nat, t: nat)
    requires Inv(s, start) && AllTight(s) && t < |s.threads|
    ensures AllTight(Step(s, start, t))
  {
    StepOthersSame(s, start, t);
    if s.threads[t].Sizing? {
      if s.tables != [] {
        assert TableOk(s, start, Root(s));
      }
      SizingTight(s, start, t);
    } else {
      OwnTight(s, start, t);
    }
  }

  lemma {:induction false} RunTight(h: History, start: (nat, nat) -> nat)
    requires Begins(h, start)
    ensures AllTight(After(h, start))
  {
    match h
    case Begun(_) =>
    case Then(past, t) =>
      RunTight(past, start);
      StepTight(After(past, start), start, t);
  }

  lemma NextPower(a: nat, b: nat)
    ensures 2 * Pow2(a) == Pow2(b) <==> b == a + 1
  {
    if b < a + 1 {
      Pow2Grows(b, a);
    } else if b > a + 1 {
      Pow2Grows(a + 1, b);
    }
  }

  /** The root becomes half of the new root if and only if its size is at least the ticket that made it too small. */
  lemma SwapHalves(h: History, start: (nat, nat) -> nat, t: nat)
    requires Begins(h, start) && t < Threads(h) && Swaps(After(h, start), t)
    ensures (var s, s' := After(h, start), Step(After(h, start), start, t);
             && |s'.tables| == |s.tables| + 1
             && (HalfAt(s'.tables, Root(s)) <==> s.threads[t].c <= Size(s.tables[Root(s)])))
  {
    RunTight(h, start);
    SwapSizes(After(h, start), start, t);
  }

  lemma SwapSizes(s: State, start: (nat, nat) -> nat, t: nat)
    requires Inv(s, start) && AllTight(s) && t < |s.threads| && Swaps(s, t)
    ensures (var tables' := Step(s, start, t).tables;
             && |tables'| == |s.tables| + 1
             && (HalfAt(tables', Root(s)) <==> s.threads[t].c <= Size(s.tables[Root(s)]))
             && (Halves(tables') <==> Halves(s.tables) && HalfAt(tables', Root(s))))
  {
    assert ThreadOk(s, start, t) && Tight(s.threads[t]) && TableOk(s, start, Root(s));
    HalfIff(s.tables[Root(s)], s.threads[t].c, s.threads[t].lg);
    SwapAdds(s, start, t);
    OneMore(s.tables, Fresh(s.threads[t].lg));
  }

  lemma OneMore(tables: seq<Table>, tab: Table)
    requires tables != []
    ensures Halves(tables + [tab]) <==> Halves(tables) && HalfAt(tables + [tab], |tables| - 1)
  {
    forall r | 0 <= r < |tables| - 1 ensures HalfAt(tables + [tab], r) <==> HalfAt(tables, r) {
    }
  }

  /** Such a step puts a new table behind the others. */
  lemma SwapAdds(s: State, start: (nat, nat) -> nat, t: nat)
    requires Lengths(s) && t < |s.threads| && s.threads[t].Growing? && s.threads[t].root == Root(s)
    ensures (var s', ph := Step(s, start, t), s.threads[t];
             s' == Move(s.(tables := s.tables + [Fresh(ph.lg)]), t, Inserting(ph.found, false)))
  {
  }

  lemma HalfIff(root: Table, c: nat, lg: nat)
    requires root.lg < lg && 2 < lg && Pow2(lg - 2) < c <= Pow2(lg - 1)
    ensures 2 * Size(root) == Size(Fresh(lg)) <==> c <= Size(root)
  {
    NextPower(root.lg, lg);
    if c <= Size(root) && lg != root.lg + 1 {
      Pow2Grows(root.lg, lg - 2);
    }
  }

  // ---------- over a whole run ----------

  /** Whatever was swapped in over a root, its ticket was at most the size of that root. */
  ghost predicate SwapsInTime(h: History, start: (nat, nat) -> nat)
    requires Begins(h, start)
  {
    match h
    case Begun(_) => true
    case Then(past, t) =>
      var s := After(past, start);
      SwapsInTime(past, start) && (Swaps(s, t) ==> s.threads[t].c <= Size(s.tables[Root(s)]))
  }

  function First(h: History): (s: State) {
    match h
    case Begun(s0) => s0
    case Then(past, _) => First(past)
  }

  /** A step that swaps nothing in over a root. */
  lemma StepSameSizes(s: State, start: (nat, nat) -> nat, t: nat)
    requires Inv(s, start) && t < |s.threads| && !Swaps(s, t)
    ensures Halves(Step(s, start, t).tables) <==> Halves(s.tables)
  {
    var s' := Step(s, start, t);
    StepEvolves(s, start, t);
    if s.tables != [] {
      assert |s'.tables| == |s.tables|;
      forall r | 0 <= r < |s.tables| - 1 ensures HalfAt(s'.tables, r) <==> HalfAt(s.tables, r) {
        assert s'.tables[r].lg == s.tables[r].lg && s'.tables[r + 1].lg == s.tables[r + 1].lg;
      }
    }
  }

  /** Each table is half the size of the next one if and only if no swap of the run came too late for that. */
  lemma {:induction false} HalvesIff(h: History, start: (nat, nat) -> nat)
    requires Begins(h, start)
    ensures Halves(After(h, start).tables) <==> Halves(First(h).tables) && SwapsInTime(h, start)
  {
    match h
    case Begun(_) =>
    case Then(past, t) =>
      HalvesIff(past, start);
      if Swaps(After(past, start), t) {
        RunTight(past, start);
        SwapSizes(After(past, start), start, t);
      } else {
        StepSameSizes(After(past, start), start, t);
      }
  }

  // ---------- up to four threads ----------

  /** The threads that have a ticket. */
  function Drawn(ticket: seq<nat>): (f: set<nat>) {
    set t: nat | t < |ticket| && ticket[t] != 0
  }

  lemma {:induction false} DrawnFits(ticket: seq<nat>)
    ensures |Drawn(ticket)| <= |ticket|
  {
    if ticket != [] {
      var n := |ticket| - 1;
      DrawnFits(ticket[..n]);
      assert Drawn(ticket) <= Drawn(ticket[..n]) + {n};
      SubsetSize(Drawn(ticket), Drawn(ticket[..n]) + {n});
    }
  }

  lemma StepDraws(s: State, start: (nat, nat) -> nat, t: nat)
    requires Lengths(s) && t < |s.threads| && s.count == |Drawn(s.ticket)|
    requires s.threads[t].Counting? ==> s.ticket[t] == 0
    ensures Step(s, start, t).count == |Drawn(Step(s, start, t).ticket)|
  {
    if s.threads[t].Counting? {
      assert Drawn(s.ticket[t := s.count + 1]) == Drawn(s.ticket) + {t};
    } else if !s.threads[t].Creating? {
      NoHistory(s, start, t);
    }
  }

  /** From a new container on, every ticket is some thread's. */
  lemma {:induction false} CountIsDrawn(h: History, start: (nat, nat) -> nat)
    requires Begins(h, start) && Start(First(h))
    ensures After(h, start).count == |Drawn(After(h, start).ticket)|
  {
    match h
    case Begun(s0) =>
      assert Drawn(s0.ticket) == {};
    case Then(past, t) =>
      CountIsDrawn(past, start);
      assert ThreadOk(After(past, start), start, t);
      StepDraws(After(past, start), start, t);
  }

  lemma TicketsFit(h: History, start: (nat, nat) -> nat)
    requires Begins(h, start) && Start(First(h))
    ensures After(h, start).count <= Threads(h)
  {
    CountIsDrawn(h, start);
    DrawnFits(After(h, start).ticket);
  }

  lemma {:induction false} FewSwapInTime(h: History, start: (nat, nat) -> nat)
    requires Begins(h, start) && Start(First(h)) && Threads(h) <= 4
    ensures SwapsInTime(h, start)
  {
    match h
    case Begun(_) =>
    case Then(past, t) =>
      FewSwapInTime(past, start);
      var s := After(past, start);
      TicketsFit(past, start);
      if Swaps(s, t) {
        assert ThreadOk(s, start, t) && TableOk(s, start, Root(s));
        Pow2Grows(2, s.tables[Root(s)].lg);
      }
  }

  // ---------- five threads ----------

  /** Some run of the new container s0 ends in s. */
  ghost predicate Reached(s0: State, start: (nat, nat) -> nat, s: State) {
    exists h :: Begins(h, start) && First(h) == s0 && After(h, start) == s
  }

  lemma NewReached(s0: State, start: (nat, nat) -> nat)
    requires Start(s0)
    ensures Reached(s0, start, s0)
  {
    NewIsSettled(s0, start);
    var h := Begun(s0);
    assert Begins(h, start) && First(h) == s0 && After(h, start) == s0;
  }

  lemma StepReached(s0: State, start: (nat, nat) -> nat, s: State, t: nat)
    requires Reached(s0, start, s) && t < |s.threads| == |s.ticket| == |s.local| == |s.made|
    ensures Reached(s0, start, Step(s, start, t))
  {
    var h :| Begins(h, start) && First(h) == s0 && After(h, start) == s;
    var h' := Then(h, t);
    assert Begins(h', start) && First(h') == s0 && After(h', start) == Step(s, start, t);
  }

  /** The first n threads have drawn their tickets in order, and there is no table yet. */
  predicate Queue(s: State, n: nat) {
    && Lengths(s) && s.tables == [] && s.count == n <= |s.threads|
    && (forall t | 0 <= t < n :: s.threads[t].Sizing? && s.threads[t].c == t + 1)
    && (forall t | n <= t < |s.threads| :: s.threads[t].Idle?)
  }

  /** Without a table, thread n came to phase ph, and the next ticket is count + 1. */
  predicate Moved(s: State, s': State, n: nat, ph: Phase, count: nat)
    requires n < |s.threads|
  {
    Lengths(s') && s'.tables == [] && s'.count == count && s'.threads == s.threads[n := ph]
  }

  lemma JoinStep(s: State, start: (nat, nat) -> nat, n: nat)
    requires Lengths(s) && s.tables == [] && n < |s.threads|
    ensures s.threads[n].Idle? ==> Moved(s, Step(s, start, n), n, Creating, s.count)
    ensures s.threads[n].Creating? ==> Moved(s, Step(s, start, n), n, Counting(s.pointers), s.count)
    ensures s.threads[n].Counting? ==>
      Moved(s, Step(s, start, n), n, Sizing(s.threads[n].found, s.count + 1), s.count + 1)
  {
  }

  /** Three steps of thread n. */
  function Thrice(s: State, start: (nat, nat) -> nat, n: nat): (s': State)
    requires Lengths(s) && n < |s.threads|
    ensures Lengths(s') && |s'.threads| == |s.threads|
  {
    StepOthersSame(s, start, n);
    StepOthersSame(Step(s, start, n), start, n);
    StepOthersSame(Step(Step(s, start, n), start, n), start, n);
    Step(Step(Step(s, start, n), start, n), start, n)
  }

  lemma ThriceReached(s0: State, start: (nat, nat) -> nat, s: State, n: nat)
    requires Reached(s0, start, s) && Lengths(s) && n < |s.threads|
    ensures Reached(s0, start, Thrice(s, start, n))
  {
    StepOthersSame(s, start, n);
    StepReached(s0, start, s, n);
    var s1 := Step(s, start, n);
    StepOthersSame(s1, start, n);
    StepReached(s0, start, s1, n);
    StepReached(s0, start, Step(s1, start, n), n);
  }

  /** Thread n comes, finds no table, makes its element and takes a ticket. */
  lemma Join(s: State, start: (nat, nat) -> nat, n: nat)
    requires Queue(s, n) && n < |s.threads|
    ensures Queue(Thrice(s, start, n), n + 1)
  {
    JoinStep(s, start, n);
    var s1 := Step(s, start, n);
    JoinStep(s1, start, n);
    var s2 := Step(s1, start, n);
    JoinStep(s2, start, n);
    assert Moved(s, s2, n, Counting(s1.pointers), n);
    assert Moved(s, Step(s2, start, n), n, Sizing(s1.pointers, n + 1), n + 1);
  }

  lemma JoinReached(s0: State, start: (nat, nat) -> nat, s: State, n: nat) returns (s': State)
    requires Reached(s0, start, s) && Queue(s, n) && n < |s.threads|
    ensures Reached(s0, start, s') && Queue(s', n + 1) && |s'.threads| == |s.threads|
  {
    Join(s, start, n);
    ThriceReached(s0, start, s, n);
    s' := Thrice(s, start, n);
  }

  lemma {:induction false} AllJoin(s0: State, start: (nat, nat) -> nat, n: nat) returns (s: State)
    requires Start(s0) && n <= |s0.threads|
    ensures Reached(s0, start, s) && Queue(s, n) && |s.threads| == |s0.threads|
  {
    if n == 0 {
      NewReached(s0, start);
      s := s0;
    } else {
      s := AllJoin(s0, start, n - 1);
      s := JoinReached(s0, start, s, n - 1);
    }
  }

  lemma FitExamples()
    ensures Fit(1, 2) == 2 && Fit(5, 2) == 4 && Pow2(2) == 4 && Pow2(4) == 16
  {
    assert Pow2(1) == 2 && Pow2(2) == 4 && Pow2(3) == 8 && Pow2(4) == 16;
    assert Fit(5, 4) == 4 && Fit(5, 3) == 4;
  }

  lemma SizingGrows(s: State, start: (nat, nat) -> nat, t: nat)
    requires Lengths(s) && t < |s.threads| && s.threads[t].Sizing?
    requires s.tables == [] || (s.tables[Root(s)].lg >= 1 && s.threads[t].c > Size(s.tables[Root(s)]) / 2)
    ensures Step(s, start, t) ==
            Move(s, t, Growing(s.threads[t].found, s.threads[t].c,
                               Fit(s.threads[t].c, if s.tables == [] then 2 else s.tables[Root(s)].lg), Root(s)))
  {
  }

  /** Thread t, whose ticket is too large for the root, swaps in a new one. */
  function Grown(s: State, start: (nat, nat) -> nat, t: nat): (s': State)
    requires Lengths(s) && t < |s.threads| && s.threads[t].Sizing?
    requires s.tables == [] || (s.tables[Root(s)].lg >= 1 && s.threads[t].c > Size(s.tables[Root(s)]) / 2)
    ensures Lengths(s') && |s'.threads| == |s.threads|
    ensures s'.tables ==
            s.tables + [Fresh(Fit(s.threads[t].c, if s.tables == [] then 2 else s.tables[Root(s)].lg))]
    ensures forall u | 0 <= u < |s.threads| && u != t :: s'.threads[u] == s.threads[u]
  {
    SizingGrows(s, start, t);
    SwapAdds(Step(s, start, t), start, t);
    Step(Step(s, start, t), start, t)
  }

  lemma GrownReached(s0: State, start: (nat, nat) -> nat, s: State, t: nat)
    requires Reached(s0, start, s) && Lengths(s) && t < |s.threads| && s.threads[t].Sizing?
    requires s.tables == [] || (s.tables[Root(s)].lg >= 1 && s.threads[t].c > Size(s.tables[Root(s)]) / 2)
    ensures Reached(s0, start, Grown(s, start, t))
  {
    SizingGrows(s, start, t);
    StepReached(s0, start, s, t);
    StepReached(s0, start, Step(s, start, t), t);
  }

  lemma GrowTwice(s: State, start: (nat, nat) -> nat)
    requires Queue(s, 5)
    ensures (var s1 := Grown(s, start, 0); s1.threads[4] == s.threads[4] && s1.tables == [Fresh(2)])
    ensures Grown(Grown(s, start, 0), start, 4).tables == [Fresh(2), Fresh(4)]
  {
    FitExamples();
  }

  /**
   Five first lookups take their tickets before there is a table.  The first one swaps in a table of 4
   slots; the last, with ticket 5, swaps in one of 16 slots over it.
   */
  lemma FromFourToSixteen(s0: State, start: (nat, nat) -> nat) returns (s: State)
    requires Start(s0) && |s0.threads| >= 5
    ensures Reached(s0, start, s) && |s.tables| == 2 && Size(s.tables[0]) == 4 && Size(s.tables[1]) == 16
  {
    var s1 := AllJoin(s0, start, 5);
    GrowTwice(s1, start);
    GrownReached(s0, start, s1, 0);
    FitExamples();
    GrownReached(s0, start, Grown(s1, start, 0), 4);
    s := Grown(Grown(s1, start, 0), start, 4);
  }

  lemma {:induction false} FirstThreads(h: History)
    ensures Threads(h) == |First(h).threads|
  {
    match h
    case Begun(_) =>
    case Then(past, _) => FirstThreads(past);
  }

  /** In a new container the sizes can fall apart if and only if five threads use it. */
  lemma HalvesFailIff(s0: State, start: (nat, nat) -> nat)
    requires Start(s0)
    ensures (exists s :: Reached(s0, start, s) && !Halves(s.tables)) <==> |s0.threads| >= 5
  {
    if |s0.threads| >= 5 {
      var s := FromFourToSixteen(s0, start);
      assert !HalfAt(s.tables, 0);
    } else {
      forall s | Reached(s0, start, s) ensures Halves(s.tables) {
        var h :| Begins(h, start) && First(h) == s0 && After(h, start) == s;
        FirstThreads(h);
        FewSwapInTime(h, start);
        HalvesIff(h, start);
      }
    }
  }
}
