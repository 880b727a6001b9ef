/**
 ConcurrentLRUCache (src/caches/facebook/concurrent-lru-cache.h): when an insert waits for itself.  An
 insert that lowered m_size evicts the last node of the list while it still holds the write lock of its
 own element; if that node is its own, the lookup in evict() waits for this very lock.
 */
module LruWaits {
  import opened LruThreads

  /** Thread t waits for the lock of an element that it has locked itself. */
  predicate WaitsForItself(s: State, t: nat)
    requires t < |s.threads|
  {
    var ph := s.threads[t];
    HasVictim(ph) && ph.stage.Lookup? && ph.victim in s.keyOf && s.keyOf[ph.victim] == ph.key
  }

  // ---------- one step ----------

  /** Only thread v moves, and nodes keep their keys. */
  predicate OnlyMoves(s: State, s': State, v: nat)
    requires v < |s.threads|
  {
    && |s'.threads| == |s.threads| && s'.threads == s.threads[v := s'.threads[v]]
    && forall n | n in s.keyOf :: n in s'.keyOf && s'.keyOf[n] == s.keyOf[n]
  }

  lemma BeginMoves(s: State, v: nat, choice: Choice)
    requires v < |s.threads| && s.threads[v].Idle?
    ensures OnlyMoves(s, Begin(s, v, choice), v)
  {
  }

  lemma VictimMoves(s: State, v: nat)
    requires v < |s.threads| && HasVictim(s.threads[v])
    ensures OnlyMoves(s, DropVictim(s, v), v)
  {
  }

  lemma Moves(s: State, v: nat, choice: Choice)
    requires v < |s.threads|
    ensures OnlyMoves(s, Effect(s, v, choice), v)
  {
    if s.threads[v].Idle? {
      BeginMoves(s, v, choice);
    } else if HasVictim(s.threads[v]) {
      VictimMoves(s, v);
    }
  }

  // ---------- such a wait never ends ----------

  lemma Stuck(s: State, t: nat, choice: Choice)
    requires t < |s.threads| && WaitsForItself(s, t)
    ensures Effect(s, t, choice) == s
  {
    SumAtLeast(s.threads, t, Writers(s.threads[t].key));
  }

  lemma OthersDoNotHelp(s: State, t: nat, u: nat, choice: Choice)
    requires t < |s.threads| && u < |s.threads| && u != t && WaitsForItself(s, t)
    ensures (var s' := Effect(s, u, choice);
             |s'.threads| == |s.threads| && s'.threads[t] == s.threads[t] && WaitsForItself(s', t))
  {
  }

  /** Whatever any thread does, thread t stays where it is, and nobody gets at its element. */
  lemma {:induction false} WaitIsForEver(h: History, later: History, t: nat)
    requires Extends(later, h) && t < |After(h).threads| && WaitsForItself(After(h), t)
    ensures t < |After(later).threads| && After(later).threads[t] == After(h).threads[t]
    ensures WaitsForItself(After(later), t) && !Unlocked(After(later), After(h).threads[t].key)
  {
    if later != h {
      WaitIsForEver(h, later.past, t);
      if later.t == t {
        Stuck(After(later.past), t, later.choice);
      } else if later.t < |After(later.past).threads| {
        OthersDoNotHelp(After(later.past), t, later.t, later.choice);
      }
    }
    SumAtLeast(After(later).threads, t, Writers(After(h).threads[t].key));
  }

  // ---------- one inserter at a time: m_size is never above maxSize ----------

  predicate OneInserter(s: State) {
    forall t, u | 0 <= t < u < |s.threads| :: !(Inserting(s.threads[t]) && Inserting(s.threads[u]))
  }

  /** The sizes that thread t has seen or goes by. */
  predicate InBounds(s: State, ph: Phase) {
    && !ph.SizeTaken? && !ph.Trimming?
    && (ph.Loaded? || ph.Evicting? || ph.Evicted? || ph.Checking? ==> ph.size <= s.maxSize)
    && ((ph.Loaded? && ph.size < s.maxSize) || ph.Uncounted? ==> s.size < s.maxSize)
  }

  predicate NeverOver(s: State) {
    && s.size <= s.maxSize && (s.maxSize == 0 || OneInserter(s))
    && forall t | 0 <= t < |s.threads| :: InBounds(s, s.threads[t])
  }

  /** At most one thread is inside insert, or there is no room at all. */
  predicate Uncrowded(s: State) {
    s.maxSize == 0 || s.limit == 1 || |s.threads| == 1
  }

  lemma BeginAlone(s: State, t: nat, choice: Choice)
    requires Uncrowded(s) && NeverOver(s) && t < |s.threads| && s.threads[t].Idle?
    ensures NeverOver(Begin(s, t, choice))
  {
    var s' := Begin(s, t, choice);
    if s.maxSize != 0 && s'.threads[t] != s.threads[t] && Inserting(s'.threads[t]) && |s.threads| > 1 {
      forall u | 0 <= u < |s.threads| ensures !Inserting(s.threads[u]) {
        SumAtLeast(s.threads, u, InInsert);
      }
    }
  }

  /** Thread t moves on and the size stays as it is. */
  predicate SameSize(s: State, s': State, t: nat)
    requires t < |s.threads|
  {
    && |s'.threads| == |s.threads| && s'.threads == s.threads[t := s'.threads[t]]
    && s'.size == s.size && s'.maxSize == s.maxSize && s'.limit == s.limit
    && InBounds(s', s'.threads[t]) && (Inserting(s'.threads[t]) ==> Inserting(s.threads[t]))
  }

  lemma MoveNeverOver(s: State, s': State, t: nat)
    requires NeverOver(s) && t < |s.threads| && SameSize(s, s', t)
    ensures NeverOver(s')
  {
  }

  lemma VictimSameSize(s: State, t: nat)
    requires t < |s.threads| && InBounds(s, s.threads[t]) && HasVictim(s.threads[t])
    ensures SameSize(s, DropVictim(s, t), t)
  {
  }

  lemma AdvanceSameSize(s: State, t: nat)
    requires t < |s.threads| && InBounds(s, s.threads[t]) && s.size <= s.maxSize
    requires AtCounter(s.threads[t]) && !s.threads[t].Uncounted?
    ensures SameSize(s, Advance(s, t), t)
  {
  }

  lemma OtherSameSize(s: State, t: nat, choice: Choice)
    requires t < |s.threads| && InBounds(s, s.threads[t])
    requires !s.threads[t].Idle? && !HasVictim(s.threads[t]) && (AtPush(s, s.threads[t]) || !AtCounter(s.threads[t]))
    ensures SameSize(s, Effect(s, t, choice), t)
  {
  }

  lemma StepNeverOver(s: State, t: nat, choice: Choice)
    requires Uncrowded(s) && NeverOver(s) && t < |s.threads|
    ensures NeverOver(Effect(s, t, choice)) && Uncrowded(Effect(s, t, choice))
  {
    var ph := s.threads[t];
    assert InBounds(s, ph);
    if ph.Idle? {
      BeginAlone(s, t, choice);
    } else if ph.Uncounted? {
      CountAlone(s, t);
    } else {
      if HasVictim(ph) {
        VictimSameSize(s, t);
      } else if AtPush(s, ph) || !AtCounter(ph) {
        OtherSameSize(s, t, choice);
      } else {
        AdvanceSameSize(s, t);
      }
      MoveNeverOver(s, Effect(s, t, choice), t);
    }
  }

  /** The only inserter counts its element: nobody else goes by the size. */
  lemma CountAlone(s: State, t: nat)
    requires NeverOver(s) && t < |s.threads| && s.threads[t].Uncounted?
    ensures NeverOver(Advance(s, t))
  {
    forall u | 0 <= u < |s.threads| && u != t ensures InBounds(Advance(s, t), s.threads[u]) {
      assert InBounds(s, s.threads[u]) && InBounds(s, s.threads[t]);
      assert !Inserting(s.threads[if u < t then u else t]) || !Inserting(s.threads[if u < t then t else u]);
    }
  }

  function First(h: History): (s: State) {
    match h
    case Begun(s0) => s0
    case Then(past, _, _) => First(past)
  }

  lemma {:induction false} RunNeverOver(h: History)
    requires Fresh(h) && Uncrowded(First(h))
    ensures NeverOver(After(h)) && Uncrowded(After(h))
  {
    match h
    case Begun(_) =>
    case Then(past, t, choice) =>
      RunNeverOver(past);
      if t < |After(past).threads| {
        StepNeverOver(After(past), t, choice);
      }
  }

  // ---------- two inserters: a run to such a wait ----------

  /** Some run from the new cache s0 ends in s. */
  ghost predicate Reached(s0: State, s: State) {
    exists h :: Fresh(h) && First(h) == s0 && After(h) == s
  }

  lemma StartReached(s0: State)
    requires Start(s0)
    ensures Reached(s0, s0)
  {
    var h := Begun(s0);
    assert Fresh(h) && First(h) == s0 && After(h) == s0;
  }

  lemma StepReached(s0: State, s: State, t: nat, choice: Choice)
    requires Reached(s0, s) && t < |s.threads|
    ensures Reached(s0, Effect(s, t, choice))
  {
    var h :| Fresh(h) && First(h) == s0 && After(h) == s;
    var h' := Then(h, t, choice);
    assert Fresh(h') && First(h') == s0 && After(h') == Effect(s, t, choice);
  }

  lemma ReachedOk(s0: State, s: State)
    requires Reached(s0, s)
    ensures Inv(s)
  {
    var h :| Fresh(h) && First(h) == s0 && After(h) == s;
    RunKeepsInv(h);
  }

  /** The same cache with the same threads. */
  predicate SameCache(s: State, s': State) {
    s'.maxSize == s.maxSize && s'.limit == s.limit && |s'.threads| == |s.threads|
  }

  /** s' is s but for the list, the size, and thread t, which is in phase ph now. */
  predicate Became(s: State, s': State, list: seq<nat>, size: nat, t: nat, ph: Phase)
    requires t < |s.threads|
  {
    s' == s.(list := list, size := size, threads := s.threads[t := ph])
  }

  lemma DoBegin(s0: State, s: State, t: nat, key: int, node: nat) returns (s': State)
    requires Reached(s0, s) && t < |s.threads| && s.threads[t].Idle? && Sum(s.threads, InInsert) < s.limit
    requires key !in s.entries && node !in s.keyOf
    ensures Reached(s0, s')
    ensures s' == s.(entries := s.entries[key := node], keyOf := s.keyOf[node := key],
                     threads := s.threads[t := Inserted(key, node)])
  {
    s' := Effect(s, t, Insert(key, node));
    StepReached(s0, s, t, Insert(key, node));
  }

  lemma DoLoad(s0: State, s: State, t: nat) returns (s': State)
    requires Reached(s0, s) && t < |s.threads| && s.threads[t].Inserted?
    ensures Reached(s0, s')
    ensures Became(s, s', s.list, s.size, t, Loaded(s.threads[t].key, s.threads[t].node, s.size))
  {
    s' := Effect(s, t, Next(true));
    StepReached(s0, s, t, Next(true));
  }

  /** The push of an insert that saw room, or that has evicted. */
  lemma DoPush(s0: State, s: State, t: nat) returns (s': State)
    requires Reached(s0, s) && t < |s.threads| && AtPush(s, s.threads[t])
    requires s.threads[t].Evicted? ==> !s.threads[t].metEmpty
    ensures Reached(s0, s')
    ensures (var ph := s.threads[t];
             Became(s, s', [ph.node] + s.list, s.size, t,
                    if ph.Loaded? then Uncounted(ph.key) else Checking(ph.key, ph.size)))
  {
    s' := Effect(s, t, Next(true));
    StepReached(s0, s, t, Next(true));
  }

  lemma DoCount(s0: State, s: State, t: nat) returns (s': State)
    requires Reached(s0, s) && t < |s.threads| && s.threads[t].Uncounted?
    ensures Reached(s0, s') && Became(s, s', s.list, s.size + 1, t, Checking(s.threads[t].key, s.size))
  {
    s' := Effect(s, t, Next(true));
    StepReached(s0, s, t, Next(true));
  }

  /** The comparison of the size that was seen with m_maxSize, and the compare-and-exchange. */
  lemma DoCompare(s0: State, s: State, t: nat) returns (s': State)
    requires Reached(s0, s) && t < |s.threads| && s.threads[t].Checking?
    ensures Reached(s0, s')
    ensures (var ph := s.threads[t];
             if ph.size > s.maxSize && s.size == ph.size then Became(s, s', s.list, s.size - 1, t, SizeTaken(ph.key))
             else Became(s, s', s.list, s.size, t, Done(ph.key)))
  {
    s' := Effect(s, t, Next(true));
    StepReached(s0, s, t, Next(true));
  }

  lemma DoReturn(s0: State, s: State, t: nat) returns (s': State)
    requires Reached(s0, s) && t < |s.threads| && (s.threads[t].Done? || s.threads[t].Reading?)
    ensures Reached(s0, s') && Became(s, s', s.list, s.size, t, Idle)
  {
    s' := Effect(s, t, Next(true));
    StepReached(s0, s, t, Next(true));
  }

  lemma DoTake(s0: State, s: State, t: nat) returns (s': State)
    requires Reached(s0, s) && t < |s.threads| && s.list != []
    requires (s.threads[t].Loaded? && s.threads[t].size >= s.maxSize) || s.threads[t].SizeTaken?
    ensures Reached(s0, s')
    ensures (var ph, last := s.threads[t], |s.list| - 1;
             Became(s, s', s.list[..last], s.size, t,
                    if ph.Loaded? then Evicting(ph.key, ph.node, ph.size, s.list[last], Lookup)
                    else Trimming(ph.key, s.list[last], Lookup)))
  {
    s' := Effect(s, t, Next(true));
    StepReached(s0, s, t, Next(true));
  }

  /** Keys and nodes from n on have not been used. */
  predicate Unused(s: State, n: nat) {
    (forall k | k in s.entries :: 0 <= k < n) && (forall x | x in s.keyOf :: x < n)
  }

  predicate Resting(s: State, n: nat) {
    |s.threads| >= 2 && Quiet(s) && Unused(s, n)
  }

  /** A call from its first step to the loaded m_size. */
  lemma Enter(s0: State, s: State, t: nat, n: nat) returns (s': State)
    requires Reached(s0, s) && t < |s.threads| && s.threads[t].Idle? && Sum(s.threads, InInsert) < s.limit
    requires Unused(s, n)
    ensures Reached(s0, s') && Unused(s', n + 1)
    ensures s' == s.(entries := s.entries[n := n], keyOf := s.keyOf[n := n],
                     threads := s.threads[t := Loaded(n, n, s.size)])
  {
    var s1 := DoBegin(s0, s, t, n, n);
    s' := DoLoad(s0, s1, t);
  }

  /** An insert that saw room: push, count, compare, return. */
  lemma Finish(s0: State, s: State, t: nat) returns (s': State)
    requires Reached(s0, s) && t < |s.threads| && s.threads[t].Loaded? && s.threads[t].size < s.maxSize
    ensures Reached(s0, s')
    ensures Became(s, s', [s.threads[t].node] + s.list, s.size + 1, t, Idle)
  {
    var s1 := DoPush(s0, s, t);
    var s2 := DoCount(s0, s1, t);
    var s3 := DoCompare(s0, s2, t);
    s' := DoReturn(s0, s3, t);
  }

  /** One insert after the other until there are n elements. */
  lemma {:induction false} FillUp(s0: State, n: nat) returns (s: State)
    requires Start(s0) && |s0.threads| >= 2 && n < s0.maxSize
    ensures Reached(s0, s) && SameCache(s0, s) && Resting(s, n) && s.size == n
  {
    if n == 0 {
      s := s0;
      StartReached(s0);
    } else {
      var past := FillUp(s0, n - 1);
      SumZero(past.threads, InInsert);
      var s1 := Enter(s0, past, 0, n - 1);
      s := Finish(s0, s1, 0);
    }
  }

  /** Two threads both see room for the last element. */
  lemma Overfill(s0: State, s: State, n: nat) returns (s': State)
    requires Reached(s0, s) && Resting(s, n) && s.size + 1 == s.maxSize && s.limit >= 2
    ensures Reached(s0, s') && SameCache(s, s') && Resting(s', n + 2) && s'.size == s.maxSize + 1
  {
    SumZero(s.threads, InInsert);
    var s1 := Enter(s0, s, 0, n);
    SumUpdate(s.threads, 0, s1.threads[0], InInsert);
    var s2 := Enter(s0, s1, 1, n + 1);
    var s3 := Finish(s0, s2, 0);
    s' := Finish(s0, s3, 1);
  }

  /** Node n is that of the map element of its key, and nobody has locked it. */
  predicate FreeEntry(s: State, n: nat) {
    n in s.keyOf && s.keyOf[n] in s.entries && s.entries[s.keyOf[n]] == n && Unlocked(s, s.keyOf[n])
  }

  /** A full cache evicts another element before the new node goes to the front. */
  lemma EvictOther(s0: State, s: State, t: nat, n: nat) returns (s': State)
    requires Reached(s0, s) && t < |s.threads| && s.threads[t].Loaded? && s.threads[t].size >= s.maxSize
    requires Unused(s, n) && s.list != [] && FreeEntry(s, s.list[|s.list| - 1])
    ensures Reached(s0, s') && SameCache(s, s') && s'.size == s.size && Unused(s', n) && s'.keyOf == s.keyOf
    ensures s'.list == s.list[..|s.list| - 1]
    ensures (var ph := s.threads[t]; s'.threads == s.threads[t := Evicted(ph.key, ph.node, ph.size, false)])
  {
    var s1 := DoTake(s0, s, t);
    StillFree(s, s1, t, s.list[|s.list| - 1]);
    s' := DropFree(s0, s1, t, n);
  }

  lemma StillFree(s: State, s': State, t: nat, n: nat)
    requires t < |s.threads| && FreeEntry(s, n) && s.threads[t].Loaded?
    requires (var ph := s.threads[t];
              Became(s, s', s'.list, s.size, t, Evicting(ph.key, ph.node, ph.size, n, Lookup)))
    ensures FreeEntry(s', n)
  {
    SumUpdate(s.threads, t, s'.threads[t], Writers(s.keyOf[n]));
    SumUpdate(s.threads, t, s'.threads[t], Readers(s.keyOf[n]));
  }

  lemma DropFree(s0: State, s: State, t: nat, n: nat) returns (s': State)
    requires Reached(s0, s) && t < |s.threads| && Unused(s, n)
    requires s.threads[t].Evicting? && s.threads[t].stage.Lookup? && FreeEntry(s, s.threads[t].victim)
    ensures Reached(s0, s') && SameCache(s, s') && s'.size == s.size && s'.list == s.list && Unused(s', n)
    ensures s'.keyOf == s.keyOf
    ensures (var ph := s.threads[t]; s'.threads == s.threads[t := Evicted(ph.key, ph.node, ph.size, false)])
  {
    var k := s.keyOf[s.threads[t].victim];
    var s1 := DoLookup(s0, s, t, k);
    var s2 := DoErase(s0, s1, t, k);
    s' := DoFree(s0, s2, t);
  }

  lemma DoLookup(s0: State, s: State, t: nat, k: int) returns (s': State)
    requires Reached(s0, s) && t < |s.threads| && s.threads[t].Evicting? && s.threads[t].stage.Lookup?
    requires s.threads[t].victim in s.keyOf && k == s.keyOf[s.threads[t].victim] && k in s.entries && Unlocked(s, k)
    ensures Reached(s0, s')
    ensures (var ph := s.threads[t];
             Became(s, s', s.list, s.size, t, Evicting(ph.key, ph.node, ph.size, ph.victim, Erase(k))))
  {
    s' := Effect(s, t, Next(true));
    StepReached(s0, s, t, Next(true));
  }

  lemma DoErase(s0: State, s: State, t: nat, k: int) returns (s': State)
    requires Reached(s0, s) && t < |s.threads| && s.threads[t].Evicting? && s.threads[t].stage == Erase(k)
    ensures Reached(s0, s')
    ensures (var ph := s.threads[t];
             s' == s.(entries := s.entries - {k},
                      threads := s.threads[t := Evicting(ph.key, ph.node, ph.size, ph.victim, Free)]))
  {
    s' := Effect(s, t, Next(true));
    StepReached(s0, s, t, Next(true));
  }

  lemma DoFree(s0: State, s: State, t: nat) returns (s': State)
    requires Reached(s0, s) && t < |s.threads| && s.threads[t].Evicting? && s.threads[t].stage.Free?
    ensures Reached(s0, s')
    ensures (var ph := s.threads[t];
             s' == s.(freed := s.freed + {ph.victim},
                      threads := s.threads[t := Evicted(ph.key, ph.node, ph.size, false)]))
  {
    s' := Effect(s, t, Next(true));
    StepReached(s0, s, t, Next(true));
  }

  /** A listed node that no thread holds belongs to the map element of its key. */
  lemma ListedEntry(s: State, n: nat)
    requires Inv(s) && n in s.list && n in s.keyOf && Unlocked(s, s.keyOf[n])
    ensures FreeEntry(s, n)
  {
    assert Sum(s.threads, HoldingEntry(n)) <= 1;
  }

  /** The elements of the nodes behind the i-th one are free. */
  predicate FreeBehind(s: State, i: int) {
    forall j | 0 <= j && i < j < |s.list| :: FreeEntry(s, s.list[j])
  }

  /** An insert into an overfull cache, up to the lowered m_size. */
  lemma Lower(s0: State, s: State, t: nat, n: nat, i: int) returns (s': State)
    requires Reached(s0, s) && t < |s.threads| && s.threads[t].Idle? && Sum(s.threads, InInsert) < s.limit
    requires Unused(s, n) && s.size > s.maxSize && -1 <= i < |s.list| - 1 && FreeBehind(s, i)
    ensures Reached(s0, s') && SameCache(s, s') && Unused(s', n + 1) && s'.keyOf == s.keyOf[n := n]
    ensures s'.list == [n] + s.list[..|s.list| - 1] && s'.size == s.size - 1 && FreeBehind(s', i + 1)
    ensures s'.threads == s.threads[t := SizeTaken(n)]
  {
    var s1 := Enter(s0, s, t, n);
    EnteredFree(s, s1, t, n, s.list[|s.list| - 1]);
    var s2 := EvictOther(s0, s1, t, n + 1);
    var s3 := DoPush(s0, s2, t);
    s' := DoCompare(s0, s3, t);
    ReachedOk(s0, s');
    LoweredBehind(s, s', t, n, i);
  }

  lemma LoweredBehind(s: State, s': State, t: nat, n: nat, i: int)
    requires Inv(s') && Unused(s, n) && t < |s.threads| && s.threads[t].Idle? && -1 <= i < |s.list| - 1
    requires s'.threads == s.threads[t := SizeTaken(n)] && s'.keyOf == s.keyOf[n := n]
    requires s'.list == [n] + s.list[..|s.list| - 1] && FreeBehind(s, i)
    ensures FreeBehind(s', i + 1)
  {
    forall j | 0 <= j && i + 1 < j < |s'.list| ensures FreeEntry(s', s'.list[j]) {
      assert s'.list[j] == s.list[j - 1] && FreeEntry(s, s.list[j - 1]);
      LoweredFree(s, s', t, n, s.list[j - 1]);
    }
  }

  lemma LoweredFree(s: State, s': State, t: nat, n: nat, m: nat)
    requires Inv(s') && Unused(s, n) && t < |s.threads| && s.threads[t].Idle? && FreeEntry(s, m) && m in s'.list
    requires s'.threads == s.threads[t := SizeTaken(n)] && s'.keyOf == s.keyOf[n := n]
    ensures FreeEntry(s', m)
  {
    var k := s.keyOf[m];
    SumUpdate(s.threads, t, SizeTaken(n), Writers(k));
    SumUpdate(s.threads, t, SizeTaken(n), Readers(k));
    ListedEntry(s', m);
  }

  lemma EnteredFree(s: State, s': State, t: nat, n: nat, m: nat)
    requires t < |s.threads| && s.threads[t].Idle? && FreeEntry(s, m) && Unused(s, n)
    requires s' == s.(entries := s.entries[n := n], keyOf := s.keyOf[n := n],
                      threads := s.threads[t := Loaded(n, n, s.size)])
    ensures FreeEntry(s', m)
  {
    SumUpdate(s.threads, t, s'.threads[t], Writers(s.keyOf[m]));
    SumUpdate(s.threads, t, s'.threads[t], Readers(s.keyOf[m]));
  }

  /** A find of an element that nobody has locked moves its node to the front. */
  lemma Refresh(s0: State, s: State, t: nat, n: nat) returns (s': State)
    requires Reached(s0, s) && t < |s.threads| && s.threads[t].Idle? && FreeEntry(s, n) && n in s.list
    ensures Reached(s0, s') && s' == s.(list := [n] + Without(s.list, n))
  {
    var s1 := DoFind(s0, s, t, s.keyOf[n]);
    var s2 := DoTouch(s0, s1, t);
    s' := DoReturn(s0, s2, t);
  }

  lemma DoFind(s0: State, s: State, t: nat, key: int) returns (s': State)
    requires Reached(s0, s) && t < |s.threads| && s.threads[t].Idle? && key in s.entries && Unlocked(s, key)
    ensures Reached(s0, s') && Became(s, s', s.list, s.size, t, Found(key, s.entries[key]))
  {
    s' := Effect(s, t, Find(key));
    StepReached(s0, s, t, Find(key));
  }

  lemma DoTouch(s0: State, s: State, t: nat) returns (s': State)
    requires Reached(s0, s) && t < |s.threads| && s.threads[t].Found? && s.threads[t].node in s.list
    ensures Reached(s0, s')
    ensures (var ph := s.threads[t];
             Became(s, s', [ph.node] + Without(s.list, ph.node), s.size, t, Reading(ph.key)))
  {
    s' := Effect(s, t, Next(true));
    StepReached(s0, s, t, Next(true));
  }

  lemma {:induction false} WithoutLast(list: seq<nat>)
    requires list != [] && Distinct(list)
    ensures Without(list, list[|list| - 1]) == list[..|list| - 1]
  {
    if |list| > 1 {
      WithoutLast(list[1..]);
      assert list[1..][..|list| - 2] == list[1..|list| - 1];
    }
  }

  function LastFirst(list: seq<nat>): (r: seq<nat>)
    requires list != []
    ensures |r| == |list|
  {
    [list[|list| - 1]] + list[..|list| - 1]
  }

  /** The list after finds that bring what is behind the i-th node to the front. */
  function Turned(list: seq<nat>, i: nat): (r: seq<nat>)
    requires i < |list|
    decreases |list| - i
  {
    if i + 1 == |list| then list else Turned(LastFirst(list), i + 1)
  }

  lemma TurnedOnce(list: seq<nat>, l: seq<nat>, i: nat)
    requires i + 1 < |list| && l == LastFirst(list)
    ensures l[i + 2..] + l[..i + 2] == list[i + 1..] + list[..i + 1]
  {
    var x := list[|list| - 1];
    assert l[i + 2..] == list[i + 1..|list| - 1];
    assert l[..i + 2] == [x] + list[..i + 1];
    assert list[i + 1..] == list[i + 1..|list| - 1] + [x];
  }

  lemma {:induction false} TurnedIs(list: seq<nat>, i: nat)
    requires i < |list|
    ensures Turned(list, i) == list[i + 1..] + list[..i + 1]
    decreases |list| - i
  {
    if i + 1 < |list| {
      var l := LastFirst(list);
      TurnedIs(l, i + 1);
      TurnedOnce(list, l, i);
    }
  }

  /** A find of the last element, and every node is one place further behind. */
  lemma FindLast(s0: State, s: State, t: nat, i: nat)
    requires Reached(s0, s) && t < |s.threads| && s.threads[t].Idle? && i + 1 < |s.list| && FreeBehind(s, i)
    ensures (var s' := s.(list := LastFirst(s.list)); Reached(s0, s') && FreeBehind(s', i + 1))
  {
    ReachedOk(s0, s);
    WithoutLast(s.list);
    var s' := Refresh(s0, s, t, s.list[|s.list| - 1]);
    ShiftedFree(s, s', i);
  }

  lemma ShiftedFree(s: State, s': State, i: nat)
    requires i + 1 < |s.list| && FreeBehind(s, i)
    requires s' == s.(list := LastFirst(s.list))
    ensures FreeBehind(s', i + 1)
  {
    forall j | 0 <= j && i + 1 < j < |s'.list| ensures FreeEntry(s', s'.list[j]) {
      assert FreeEntry(s, s.list[j - 1]);
    }
  }

  /** One find after the other, and the i-th node is the last one. */
  lemma {:induction false} FindAll(s0: State, s: State, t: nat, i: nat)
    requires Reached(s0, s) && t < |s.threads| && s.threads[t].Idle? && i < |s.list| && FreeBehind(s, i)
    ensures Reached(s0, s.(list := Turned(s.list, i)))
    decreases |s.list| - i
  {
    if i + 1 < |s.list| {
      FindLast(s0, s, t, i);
      FindAll(s0, s.(list := LastFirst(s.list)), t, i + 1);
    }
  }

  /** While nobody does anything, nothing is locked. */
  lemma QuietFree(s: State)
    requires Inv(s) && Quiet(s)
    ensures FreeBehind(s, -1) && Sum(s.threads, InInsert) == 0 && |s.list| >= s.size
  {
    QuietCounts(s);
    SumZero(s.threads, InInsert);
    forall j | 0 <= j < |s.list| ensures FreeEntry(s, s.list[j]) {
      SumZero(s.threads, Writers(s.keyOf[s.list[j]]));
      SumZero(s.threads, Readers(s.keyOf[s.list[j]]));
      ListedEntry(s, s.list[j]);
    }
  }

  /** With room for an element and two inserters, some run ends in an insert that waits for itself. */
  lemma ReachesWait(s0: State) returns (s: State)
    requires Start(s0) && s0.maxSize >= 1 && s0.limit >= 2 && |s0.threads| >= 2
    ensures Reached(s0, s) && 0 < |s.threads| && WaitsForItself(s, 0)
  {
    var n := s0.maxSize - 1;
    var s1 := FillUp(s0, n);
    var s2 := Overfill(s0, s1, n);
    ReachedOk(s0, s2);
    QuietFree(s2);
    var s3 := Lower(s0, s2, 0, n + 2, -1);
    FindAll(s0, s3, 1, 0);
    TurnedIs(s3.list, 0);
    s := DoTake(s0, s3.(list := Turned(s3.list, 0)), 0);
  }

  /** Before its push an insert never takes its own node, and after it only if m_size was above maxSize. */
  lemma NoWait(s0: State, s: State, t: nat)
    requires Start(s0) && Reached(s0, s) && t < |s.threads| && WaitsForItself(s, t)
    ensures s0.maxSize >= 1 && s0.limit >= 2 && |s0.threads| >= 2
  {
    var h :| Fresh(h) && First(h) == s0 && After(h) == s;
    RunKeepsInv(h);
    assert PhaseOk(s, s.threads[t]);
    Owned(s, t);
    SameThreads(h);
    if Uncrowded(s0) {
      RunNeverOver(h);
    }
  }

  lemma {:induction false} SameThreads(h: History)
    requires Fresh(h)
    ensures |After(h).threads| == |First(h).threads|
  {
    if h.Then? {
      SameThreads(h.past);
      RunKeepsInv(h.past);
      if h.t < |After(h.past).threads| {
        StepKeepsInv(After(h.past), h.t, h.choice);
      }
    }
  }

  /**
   Exactly when inserts can end up waiting for themselves, for ever: there is room for an element, and
   two threads may be inside insert at once.
   */
  lemma SelfWaitIff(s0: State)
    requires Start(s0)
    ensures (exists s, t :: Reached(s0, s) && 0 <= t < |s.threads| && WaitsForItself(s, t))
            <==> s0.maxSize >= 1 && s0.limit >= 2 && |s0.threads| >= 2
  {
    if s0.maxSize >= 1 && s0.limit >= 2 && |s0.threads| >= 2 {
      var s := ReachesWait(s0);
      assert Reached(s0, s) && WaitsForItself(s, 0);
    }
    forall s, t | Reached(s0, s) && 0 <= t < |s.threads| && WaitsForItself(s, t)
      ensures s0.maxSize >= 1 && s0.limit >= 2 && |s0.threads| >= 2
    {
      NoWait(s0, s, t);
    }
  }
}
