/**
 ConcurrentLRUCache (src/caches/facebook/concurrent-lru-cache.h): when inserts wait for each other.  Each
 holds the write lock of its own element while its eviction waits for that of the next one.
 */
module LruCircles {
  import opened LruThreads
  import opened LruWaits

  /** Thread t waits for the lock that thread u holds on its own element. */
  predicate WaitsFor(s: State, t: nat, u: nat)
    requires t < |s.threads| && u < |s.threads|
  {
    var ph := s.threads[t];
    && t != u && HasVictim(ph) && ph.stage.Lookup? && ph.victim in s.keyOf
    && Inserting(s.threads[u]) && s.threads[u].key == s.keyOf[ph.victim]
  }

  /** The one that the i-th of n threads waits for. */
  function Next(i: nat, n: nat): (j: nat)
    requires i < n
    ensures j < n
  {
    if i + 1 < n then i + 1 else 0
  }

  predicate Circle(s: State, ts: seq<nat>) {
    && |ts| >= 2
    && (forall i | 0 <= i < |ts| :: ts[i] < |s.threads|)
    && (forall i | 0 <= i < |ts| :: WaitsFor(s, ts[i], ts[Next(i, |ts|)]))
  }

  // ---------- a circle never ends ----------

  lemma Blocked(s: State, t: nat, u: nat, choice: Choice)
    requires t < |s.threads| && u < |s.threads| && WaitsFor(s, t, u)
    ensures Effect(s, t, choice) == s
  {
    SumAtLeast(s.threads, u, Writers(s.threads[u].key));
  }

  lemma WaitKept(s: State, t: nat, u: nat, v: nat, choice: Choice)
    requires t < |s.threads| && u < |s.threads| && v < |s.threads| && v != t && v != u && WaitsFor(s, t, u)
    ensures (var s' := Effect(s, v, choice); |s'.threads| == |s.threads| && WaitsFor(s', t, u))
    ensures Effect(s, v, choice).threads[t] == s.threads[t]
  {
    Moves(s, v, choice);
  }

  lemma CircleKept(s: State, ts: seq<nat>, v: nat, choice: Choice)
    requires v < |s.threads| && Circle(s, ts)
    ensures (var s' := Effect(s, v, choice);
             && Circle(s', ts) && |s'.threads| == |s.threads|
             && forall i | 0 <= i < |ts| :: s'.threads[ts[i]] == s.threads[ts[i]])
  {
    if i :| 0 <= i < |ts| && ts[i] == v {
      Blocked(s, v, ts[Next(i, |ts|)], choice);
    } else {
      forall i | 0 <= i < |ts|
        ensures (var s' := Effect(s, v, choice);
                 && |s'.threads| == |s.threads| && s'.threads[ts[i]] == s.threads[ts[i]]
                 && WaitsFor(s', ts[i], ts[Next(i, |ts|)]))
      {
        WaitKept(s, ts[i], ts[Next(i, |ts|)], v, choice);
      }
    }
  }

  /** Whatever any thread does, those of a circle stay where they are. */
  lemma {:induction false} CircleIsForEver(h: History, later: History, ts: seq<nat>)
    requires Extends(later, h) && Circle(After(h), ts)
    ensures Circle(After(later), ts)
    ensures forall i | 0 <= i < |ts| :: After(later).threads[ts[i]] == After(h).threads[ts[i]]
  {
    if later != h {
      CircleIsForEver(h, later.past, ts);
      if later.t < |After(later.past).threads| {
        CircleKept(After(later.past), ts, later.t, later.choice);
      }
    }
  }

  // ---------- who is in a circle has lowered m_size ----------

  predicate Trims(ph: Phase) {
    ph.SizeTaken? || ph.Trimming?
  }

  /** The node of an insert that waits before its push is in no list, so nobody evicts it. */
  lemma WaitedForTrims(s: State, t: nat, u: nat)
    requires Inv(s) && t < |s.threads| && u < |s.threads| && WaitsFor(s, t, u) && HasVictim(s.threads[u])
    ensures s.threads[u].Trimming?
  {
    assert PhaseOk(s, s.threads[t]) && PhaseOk(s, s.threads[u]);
    if t < u {
      HeldOnce(s, t, u, s.threads[t].victim);
    } else {
      HeldOnce(s, u, t, s.threads[t].victim);
    }
  }

  lemma CircleTrims(s: State, ts: seq<nat>)
    requires Inv(s) && Circle(s, ts)
    ensures ts[0] < |s.threads| && ts[1] < |s.threads| && ts[0] != ts[1]
    ensures s.threads[ts[0]].Trimming? && s.threads[ts[1]].Trimming?
  {
    var last := |ts| - 1;
    assert Next(0, |ts|) == 1 && Next(last, |ts|) == 0;
    assert WaitsFor(s, ts[0], ts[1]) && WaitsFor(s, ts[last], ts[0]) && WaitsFor(s, ts[1], ts[Next(1, |ts|)]);
    WaitedForTrims(s, ts[0], ts[1]);
    WaitedForTrims(s, ts[last], ts[0]);
  }

  // ---------- two inserters: one at a time lowers m_size ----------

  predicate AtMostTwo(s: State) {
    s.limit <= 2 || |s.threads| <= 2
  }

  predicate OneTrims(s: State) {
    forall t, u | 0 <= t < u < |s.threads| :: !(Trims(s.threads[t]) && Trims(s.threads[u]))
  }

  /** While one insert evicts for the size it took, m_size is maxSize, and nobody is about to raise it. */
  predicate Exact(s: State) {
    && s.size + Sum(s.threads, Growing(s.maxSize)) <= s.maxSize + 1 && OneTrims(s)
    && forall t | 0 <= t < |s.threads| && Trims(s.threads[t]) ::
         s.size == s.maxSize && Sum(s.threads, Growing(s.maxSize)) == 0
  }

  lemma {:induction false} SumFits(ths: seq<Phase>)
    ensures Sum(ths, InInsert) <= |ths|
  {
    if ths != [] {
      SumFits(ths[..|ths| - 1]);
    }
  }

  /** Who is to load a size below maxSize is not alone with at most one other. */
  lemma RoomForOne(s: State, t: nat)
    requires Inv(s) && AtMostTwo(s) && t < |s.threads| && s.threads[t].Inserted?
    ensures Sum(s.threads, Growing(s.maxSize)) <= 1
  {
    SumFits(s.threads);
    SumStrictlyBelow(s.threads, t, Growing(s.maxSize), InInsert);
  }

  /** m_size stays, nobody trims that did not before, and as many threads as before are about to raise it. */
  predicate Calm(s: State, s': State, t: nat)
    requires t < |s.threads|
  {
    && |s'.threads| == |s.threads| && s'.threads == s.threads[t := s'.threads[t]]
    && s'.size == s.size && s'.maxSize == s.maxSize && s'.limit == s.limit
    && (Trims(s'.threads[t]) ==> Trims(s.threads[t]))
    && Amount(Growing(s.maxSize), s'.threads[t]) == Amount(Growing(s.maxSize), s.threads[t])
  }

  lemma CalmExact(s: State, s': State, t: nat)
    requires Exact(s) && t < |s.threads| && Calm(s, s', t)
    ensures Exact(s')
  {
    SumUpdate(s.threads, t, s'.threads[t], Growing(s.maxSize));
  }

  lemma LoadExact(s: State, t: nat)
    requires Inv(s) && AtMostTwo(s) && Exact(s) && t < |s.threads| && s.threads[t].Inserted?
    ensures Exact(Advance(s, t))
  {
    SumUpdate(s.threads, t, Advance(s, t).threads[t], Growing(s.maxSize));
    RoomForOne(s, t);
  }

  lemma CountExact(s: State, t: nat)
    requires Exact(s) && t < |s.threads| && s.threads[t].Uncounted?
    ensures Exact(Advance(s, t))
  {
    SumUpdate(s.threads, t, Advance(s, t).threads[t], Growing(s.maxSize));
    SumAtLeast(s.threads, t, Growing(s.maxSize));
  }

  lemma CompareExact(s: State, t: nat)
    requires Exact(s) && t < |s.threads| && s.threads[t].Checking?
    ensures Exact(Advance(s, t))
  {
    SumUpdate(s.threads, t, Advance(s, t).threads[t], Growing(s.maxSize));
  }

  lemma VictimCalm(s: State, t: nat)
    requires t < |s.threads| && HasVictim(s.threads[t])
    ensures Calm(s, DropVictim(s, t), t)
  {
  }

  lemma AdvanceCalm(s: State, t: nat)
    requires t < |s.threads| && (s.threads[t].Done? || s.threads[t].Rejected? || s.threads[t].Reading?)
    ensures Calm(s, Advance(s, t), t)
  {
  }

  lemma BeginCalm(s: State, t: nat, choice: Choice)
    requires t < |s.threads| && s.threads[t].Idle?
    ensures Calm(s, Begin(s, t, choice), t)
  {
  }

  lemma ListCalm(s: State, t: nat, choice: Choice)
    requires t < |s.threads| && !s.threads[t].Idle? && !HasVictim(s.threads[t])
    requires AtPush(s, s.threads[t]) || !AtCounter(s.threads[t])
    ensures Calm(s, Effect(s, t, choice), t)
  {
  }

  /** No other step changes m_size, or lets an insert take from it or plan to add to it. */
  lemma OtherCalm(s: State, t: nat, choice: Choice)
    requires t < |s.threads|
    requires !s.threads[t].Inserted? && !s.threads[t].Uncounted? && !s.threads[t].Checking?
    ensures Calm(s, Effect(s, t, choice), t)
  {
    var ph := s.threads[t];
    if ph.Idle? {
      BeginCalm(s, t, choice);
    } else if HasVictim(ph) {
      VictimCalm(s, t);
    } else if AtPush(s, ph) || !AtCounter(ph) {
      ListCalm(s, t, choice);
    } else {
      AdvanceCalm(s, t);
    }
  }

  lemma StepExact(s: State, t: nat, choice: Choice)
    requires Inv(s) && AtMostTwo(s) && Exact(s) && t < |s.threads|
    ensures Exact(Effect(s, t, choice)) && AtMostTwo(Effect(s, t, choice))
  {
    if s.threads[t].Inserted? {
      LoadExact(s, t);
    } else if s.threads[t].Uncounted? {
      CountExact(s, t);
    } else if s.threads[t].Checking? {
      CompareExact(s, t);
    } else {
      OtherCalm(s, t, choice);
      CalmExact(s, Effect(s, t, choice), t);
    }
  }

  lemma {:induction false} RunExact(h: History)
    requires Fresh(h) && AtMostTwo(First(h))
    ensures Exact(After(h)) && AtMostTwo(After(h))
  {
    match h
    case Begun(s0) => SumZero(s0.threads, Growing(s0.maxSize));
    case Then(past, t, choice) =>
      RunExact(past);
      RunKeepsInv(past);
      if t < |After(past).threads| {
        StepExact(After(past), t, choice);
      }
  }

  lemma NoCircle(s0: State, s: State, ts: seq<nat>)
    requires Start(s0) && Reached(s0, s) && Circle(s, ts)
    ensures s0.maxSize >= 1 && s0.limit >= 3 && |s0.threads| >= 3
  {
    var h :| Fresh(h) && First(h) == s0 && After(h) == s;
    RunKeepsInv(h);
    CircleTrims(s, ts);
    if s0.maxSize == 0 {
      RunNeverOver(h);
    }
    if AtMostTwo(s0) {
      RunExact(h);
    }
  }

  // ---------- three inserters: a run to a circle ----------

  /** Three threads see room for the last element. */
  lemma EnterThree(s0: State, s: State, n: nat) returns (s': State)
    requires Reached(s0, s) && Resting(s, n) && s.limit >= 3 && |s.threads| >= 3
    ensures Reached(s0, s') && SameCache(s, s') && s'.size == s.size && Unused(s', n + 3)
    ensures s'.threads ==
            s.threads[0 := Loaded(n, n, s.size)][1 := Loaded(n + 1, n + 1, s.size)][2 := Loaded(n + 2, n + 2, s.size)]
  {
    SumZero(s.threads, InInsert);
    var s1 := Enter(s0, s, 0, n);
    SumUpdate(s.threads, 0, s1.threads[0], InInsert);
    var s2 := Enter(s0, s1, 1, n + 1);
    SumUpdate(s1.threads, 1, s2.threads[1], InInsert);
    s' := Enter(s0, s2, 2, n + 2);
  }

  lemma FinishThree(s0: State, s: State, ths: seq<Phase>) returns (s': State)
    requires Reached(s0, s) && 3 <= |s.threads| == |ths|
    requires forall t | 0 <= t < 3 :: ths[t].Idle? && s.threads[t].Loaded? && s.threads[t].size < s.maxSize
    requires forall t | 3 <= t < |ths| :: s.threads[t] == ths[t]
    ensures Reached(s0, s') && SameCache(s, s') && s'.size == s.size + 3 && s'.threads == ths
    ensures s'.entries == s.entries && s'.keyOf == s.keyOf
  {
    var s1 := Finish(s0, s, 0);
    var s2 := Finish(s0, s1, 1);
    s' := Finish(s0, s2, 2);
  }

  /** All three count their elements. */
  lemma OverfillByTwo(s0: State, s: State, n: nat) returns (s': State)
    requires Reached(s0, s) && Resting(s, n) && s.size + 1 == s.maxSize && s.limit >= 3 && |s.threads| >= 3
    ensures Reached(s0, s') && SameCache(s, s') && Resting(s', n + 3) && s'.size == s.maxSize + 2
  {
    var s1 := EnterThree(s0, s, n);
    s' := FinishThree(s0, s1, s.threads);
  }

  /** Threads 0 and 1 have lowered m_size, and their nodes, n and m, are the last ones of the list. */
  predicate Ready(s: State, n: nat, m: nat) {
    && |s.threads| >= 2 && s.threads[0] == SizeTaken(n) && s.threads[1] == SizeTaken(m)
    && n in s.keyOf && s.keyOf[n] == n && m in s.keyOf && s.keyOf[m] == m
    && |s.list| >= 3 && s.list[|s.list| - 1] == n && s.list[|s.list| - 2] == m
  }

  /** As `Ready`, but the two nodes are the first ones. */
  predicate Lowered(s: State, n: nat, m: nat) {
    && |s.threads| >= 3 && s.threads[0] == SizeTaken(n) && s.threads[1] == SizeTaken(m) && s.threads[2].Idle?
    && n in s.keyOf && s.keyOf[n] == n && m in s.keyOf && s.keyOf[m] == m
    && |s.list| >= 3 && s.list[0] == m && s.list[1] == n && FreeBehind(s, 1)
  }

  /** Two inserts lower m_size one after the other. */
  lemma LowerTwice(s0: State, s: State, n: nat) returns (s': State)
    requires Reached(s0, s) && Resting(s, n) && s.size == s.maxSize + 2 && s.maxSize >= 1
    requires s.limit >= 3 && |s.threads| >= 3
    ensures Reached(s0, s') && Lowered(s', n, n + 1)
  {
    ReachedOk(s0, s);
    QuietFree(s);
    var s1 := Lower(s0, s, 0, n, -1);
    SumUpdate(s.threads, 0, SizeTaken(n), InInsert);
    s' := Lower(s0, s1, 1, n + 1, 0);
  }

  lemma TurnedReady(s: State, n: nat, m: nat)
    requires Lowered(s, n, m)
    ensures Ready(s.(list := Turned(s.list, 1)), n, m)
  {
    TurnedIs(s.list, 1);
  }

  /** Finds bring their nodes to the end of the list. */
  lemma BringToEnd(s0: State, s: State, n: nat, m: nat) returns (s': State)
    requires Reached(s0, s) && Lowered(s, n, m)
    ensures Reached(s0, s') && Ready(s', n, m)
  {
    FindAll(s0, s, 2, 1);
    TurnedReady(s, n, m);
    s' := s.(list := Turned(s.list, 1));
  }

  /** Two threads wait for each other. */
  predicate Mutual(s: State) {
    |s.threads| >= 2 && WaitsFor(s, 0, 1) && WaitsFor(s, 1, 0)
  }

  lemma MutualIsCircle(s: State)
    requires Mutual(s)
    ensures Circle(s, [0, 1])
  {
    assert Next(0, 2) == 1 && Next(1, 2) == 0;
  }

  lemma EachOthers(s: State, n: nat, m: nat)
    requires |s.threads| >= 2 && n in s.keyOf && s.keyOf[n] == n && m in s.keyOf && s.keyOf[m] == m
    requires s.threads[0] == Trimming(n, m, Lookup) && s.threads[1] == Trimming(m, n, Lookup)
    ensures Mutual(s)
  {
  }

  /** An insert that has lowered m_size takes the last node. */
  lemma TakesLast(s: State, t: nat, n: nat, m: nat)
    requires t < |s.threads| && s.threads[t] == SizeTaken(n) && s.list != [] && s.list[|s.list| - 1] == m
    ensures Became(s, TakeVictim(s, t), s.list[..|s.list| - 1], s.size, t, Trimming(n, m, Lookup))
    ensures TakeVictim(s, t) == Effect(s, t, LruThreads.Next(true))
  {
  }

  /** Each of the two takes the other's node. */
  lemma TakeEachOther(s: State, n: nat, m: nat)
    requires Ready(s, n, m)
    ensures (var s1 := TakeVictim(s, 1);
             && |s1.threads| == |s.threads| && s1.threads[0] == SizeTaken(n) && s1.list != []
             && s1.list[|s1.list| - 1] == m && Mutual(TakeVictim(s1, 0)))
  {
    TakesLast(s, 1, m, n);
    var s1 := TakeVictim(s, 1);
    TakesLast(s1, 0, n, m);
    EachOthers(TakeVictim(s1, 0), n, m);
  }

  lemma TakeReached(s0: State, s: State, t: nat, n: nat, m: nat)
    requires Reached(s0, s)
    requires t < |s.threads| && s.threads[t] == SizeTaken(n) && s.list != [] && s.list[|s.list| - 1] == m
    ensures Reached(s0, TakeVictim(s, t))
  {
    TakesLast(s, t, n, m);
    StepReached(s0, s, t, LruThreads.Next(true));
  }

  /** A cache with two elements too many. */
  lemma ReachesOver(s0: State) returns (s: State)
    requires Start(s0) && s0.maxSize >= 1 && s0.limit >= 3 && |s0.threads| >= 3
    ensures Reached(s0, s) && SameCache(s0, s) && Resting(s, s0.maxSize + 2) && s.size == s0.maxSize + 2
  {
    var s1 := FillUp(s0, s0.maxSize - 1);
    s := OverfillByTwo(s0, s1, s0.maxSize - 1);
  }

  lemma ReachesLowered(s0: State) returns (s: State, n: nat)
    requires Start(s0) && s0.maxSize >= 1 && s0.limit >= 3 && |s0.threads| >= 3
    ensures Reached(s0, s) && Lowered(s, n, n + 1)
  {
    n := s0.maxSize + 2;
    var s1 := ReachesOver(s0);
    s := LowerTwice(s0, s1, n);
  }

  lemma ReachesReady(s0: State) returns (s: State, n: nat)
    requires Start(s0) && s0.maxSize >= 1 && s0.limit >= 3 && |s0.threads| >= 3
    ensures Reached(s0, s) && Ready(s, n, n + 1)
  {
    var s1;
    s1, n := ReachesLowered(s0);
    s := BringToEnd(s0, s1, n, n + 1);
  }

  /** With three inserters, two of them can end up with each other's node. */
  lemma ReachesCircle(s0: State) returns (s: State)
    requires Start(s0) && s0.maxSize >= 1 && s0.limit >= 3 && |s0.threads| >= 3
    ensures Reached(s0, s) && Mutual(s)
  {
    var s1, n := ReachesReady(s0);
    TakeEachOther(s1, n, n + 1);
    TakeReached(s0, s1, 1, n + 1, n);
    TakeReached(s0, TakeVictim(s1, 1), 0, n, n + 1);
    s := TakeVictim(TakeVictim(s1, 1), 0);
  }

  /**
   Exactly when inserts can end up waiting for each other, for ever: there is room for an element, and
   three threads may be inside insert at once.
   */
  lemma CircleIff(s0: State)
    requires Start(s0)
    ensures (exists s, ts :: Reached(s0, s) && Circle(s, ts))
            <==> s0.maxSize >= 1 && s0.limit >= 3 && |s0.threads| >= 3
  {
    if s0.maxSize >= 1 && s0.limit >= 3 && |s0.threads| >= 3 {
      var s := ReachesCircle(s0);
      MutualIsCircle(s);
    }
    forall s, ts | Reached(s0, s) && Circle(s, ts)
      ensures s0.maxSize >= 1 && s0.limit >= 3 && |s0.threads| >= 3
    {
      NoCircle(s0, s, ts);
    }
  }
}
