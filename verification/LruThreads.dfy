/**
 ConcurrentLRUCache (src/caches/facebook/concurrent-lru-cache.h) under any number of threads.  The
 hash map is abstract: a map whose elements carry a reader-writer lock.  A step is one atomic
 operation, one map operation or one region under the list mutex.  An accessor that a caller of find
 keeps is a thread of its own here.
 */
module LruThreads {

  /** How far evict() has come with the node it took off the list. */
  datatype Stage =
    | Lookup
    | Erase(held: int)  // has the write lock of the map element `held`
    | Free

  datatype Phase =
    | Idle
    // insert: the element for `key` is in the map, write-locked, and `node` is its list node
    | Inserted(key: int, node: nat)
    | Loaded(key: int, node: nat, size: nat)
    | Evicting(key: int, node: nat, size: nat, victim: nat, stage: Stage)
    | Evicted(key: int, node: nat, size: nat, metEmpty: bool)
    | Uncounted(key: int)               // pushed without an eviction, m_size++ still to come
    | Checking(key: int, size: nat)     // about to compare size with m_maxSize
    | SizeTaken(key: int)               // the compare-and-exchange succeeded
    | Trimming(key: int, victim: nat, stage: Stage)
    | Done(key: int)                    // about to release the accessor
    | Rejected(key: int, node: nat)     // insert met an element of its key
    // find: the element is read-locked
    | Found(key: int, node: nat)
    | Reading(key: int)

  datatype State = State(
    maxSize: nat,
    limit: nat,                // how many threads may be inside insert at once
    size: nat,                 // m_size
    entries: map<int, nat>,    // m_map: each key's list node
    list: seq<nat>,            // most recently used first
    keyOf: map<nat, int>,      // m_key of every node ever allocated
    freed: set<nat>,
    threads: seq<Phase>,
    empties: nat)              // evictions that met an empty list, a pre-push one counted from its push on

  // ---------- sums over the threads ----------

  /** What one may count over the threads. */
  datatype Quantity =
    | InInsert
    | Delinking                // delinked a victim, own node not pushed yet
    | Counting                 // pushed, not yet counted in m_size
    | Taking                   // lowered m_size, not yet evicted for it
    | Growing(maxSize: nat)    // loaded a size below maxSize, not yet incremented
    | NewEntries               // in the map, on the way into the list
    | OldEntries               // in the map, taken off the list
    | Holding(n: nat)          // threads that hold node n outside the list
    | HoldingEntry(n: nat)     // those among them for which n is still in the map
    | Writers(k: int)
    | Readers(k: int)

  function One(b: bool): (r: nat) {
    if b then 1 else 0
  }

  predicate HasNew(ph: Phase) {
    ph.Inserted? || ph.Loaded? || ph.Evicting? || ph.Evicted?
  }

  predicate HasVictim(ph: Phase) {
    ph.Evicting? || ph.Trimming?
  }

  predicate Inserting(ph: Phase) {
    !ph.Idle? && !ph.Found? && !ph.Reading?
  }

  function Amount(q: Quantity, ph: Phase): (r: nat) {
    match q
    case InInsert => One(Inserting(ph))
    case Delinking => One(ph.Evicting? || (ph.Evicted? && !ph.metEmpty))
    case Counting => One(ph.Uncounted?)
    case Taking => One(ph.SizeTaken?)
    case Growing(m) => One((ph.Loaded? && ph.size < m) || ph.Uncounted?)
    case NewEntries => One(HasNew(ph))
    case OldEntries => One(HasVictim(ph) && !ph.stage.Free?)
    case Holding(n) => One((HasNew(ph) || ph.Rejected?) && ph.node == n) + One(HasVictim(ph) && ph.victim == n)
    case HoldingEntry(n) =>
      One(HasNew(ph) && ph.node == n) + One(HasVictim(ph) && ph.victim == n && !ph.stage.Free?)
    case Writers(k) => One(Inserting(ph) && ph.key == k) + One(HasVictim(ph) && ph.stage == Erase(k))
    case Readers(k) => One((ph.Found? || ph.Reading?) && ph.key == k)
  }

  function Sum(ths: seq<Phase>, q: Quantity): (r: nat) {
    if ths == [] then 0 else Sum(ths[..|ths| - 1], q) + Amount(q, ths[|ths| - 1])
  }

  lemma {:induction false} SumUpdate(ths: seq<Phase>, t: nat, ph: Phase, q: Quantity)
    requires t < |ths|
    ensures Sum(ths[t := ph], q) == Sum(ths, q) - Amount(q, ths[t]) + Amount(q, ph)
  {
    var n := |ths| - 1;
    if t < n {
      SumUpdate(ths[..n], t, ph, q);
      assert ths[t := ph][..n] == ths[..n][t := ph];
    } else {
      assert ths[t := ph][..n] == ths[..n];
    }
  }

  lemma {:induction false} SumAtLeast(ths: seq<Phase>, t: nat, q: Quantity)
    requires t < |ths|
    ensures Amount(q, ths[t]) <= Sum(ths, q)
  {
    if t < |ths| - 1 {
      SumAtLeast(ths[..|ths| - 1], t, q);
    }
  }

  lemma {:induction false} SumTwo(ths: seq<Phase>, t: nat, u: nat, q: Quantity)
    requires t < u < |ths|
    ensures Amount(q, ths[t]) + Amount(q, ths[u]) <= Sum(ths, q)
  {
    var n := |ths| - 1;
    if u < n {
      SumTwo(ths[..n], t, u, q);
    } else {
      SumAtLeast(ths[..n], t, q);
    }
  }

  lemma {:induction false} SumZero(ths: seq<Phase>, q: Quantity)
    requires forall t | 0 <= t < |ths| :: Amount(q, ths[t]) == 0
    ensures Sum(ths, q) == 0
  {
    if ths != [] {
      SumZero(ths[..|ths| - 1], q);
    }
  }

  lemma {:induction false} SumBelow(ths: seq<Phase>, q: Quantity, r: Quantity)
    requires forall ph :: Amount(q, ph) <= Amount(r, ph)
    ensures Sum(ths, q) <= Sum(ths, r)
  {
    if ths != [] {
      SumBelow(ths[..|ths| - 1], q, r);
    }
  }

  /** If thread t counts for r but not for q, the sums differ by at least one. */
  lemma {:induction false} SumStrictlyBelow(ths: seq<Phase>, t: nat, q: Quantity, r: Quantity)
    requires t < |ths|
    requires forall ph :: Amount(q, ph) <= Amount(r, ph)
    requires Amount(q, ths[t]) < Amount(r, ths[t])
    ensures Sum(ths, q) < Sum(ths, r)
  {
    var n := |ths| - 1;
    if t < n {
      SumStrictlyBelow(ths[..n], t, q, r);
    } else {
      SumBelow(ths[..n], q, r);
    }
  }

  // ---------- the steps of thread t ----------

  /** What is not settled by where the thread stands: the call it makes, and whether try_lock succeeds. */
  datatype Choice = Insert(key: int, newNode: nat) | Find(key: int) | Next(locked: bool)

  predicate Unlocked(s: State, k: int) {
    Sum(s.threads, Writers(k)) == 0 && Sum(s.threads, Readers(k)) == 0
  }

  /** s with thread t in phase ph. */
  function Move(s: State, t: nat, ph: Phase): (s': State)
    requires t < |s.threads|
  {
    s.(threads := s.threads[t := ph])
  }

  /** The list without node n. */
  function Without(list: seq<nat>, n: nat): (r: seq<nat>)
    ensures n !in list ==> r == list
  {
    if list == [] then []
    else if list[0] == n then list[1..]
    else [list[0]] + Without(list[1..], n)
  }

  /** A thread calls insert or find; where the map makes it wait, nothing happens. */
  function Begin(s: State, t: nat, choice: Choice): (s': State)
    requires t < |s.threads| && s.threads[t].Idle?
  {
    match choice
    case Insert(key, newNode) =>
      if newNode in s.keyOf || Sum(s.threads, InInsert) >= s.limit then s
      else if key !in s.entries then
        Move(s.(entries := s.entries[key := newNode], keyOf := s.keyOf[newNode := key]), t, Inserted(key, newNode))
      else if Unlocked(s, key) then Move(s.(keyOf := s.keyOf[newNode := key]), t, Rejected(key, newNode))
      else s
    case Find(key) =>
      if key in s.entries && Sum(s.threads, Writers(key)) == 0 then Move(s, t, Found(key, s.entries[key])) else s
    case Next(_) => s
  }

  /** evict() up to lock.unlock(). */
  function TakeVictim(s: State, t: nat): (s': State)
    requires t < |s.threads| && (s.threads[t].Loaded? || s.threads[t].SizeTaken?)
  {
    var ph := s.threads[t];
    if s.list == [] then
      if ph.Loaded? then Move(s, t, Evicted(ph.key, ph.node, ph.size, true))
      else Move(s.(empties := s.empties + 1), t, Done(ph.key))
    else
      var last := |s.list| - 1;
      Move(s.(list := s.list[..last]), t,
           if ph.Loaded? then Evicting(ph.key, ph.node, ph.size, s.list[last], Lookup)
           else Trimming(ph.key, s.list[last], Lookup))
  }

  /** Where an insert goes on once its evict() has returned. */
  function AfterEvict(ph: Phase): (ph': Phase)
    requires HasVictim(ph)
  {
    if ph.Evicting? then Evicted(ph.key, ph.node, ph.size, false) else Done(ph.key)
  }

  /** The rest of evict(): find the victim's element and lock it, erase it, delete the node. */
  function DropVictim(s: State, t: nat): (s': State)
    requires t < |s.threads| && HasVictim(s.threads[t])
  {
    var ph := s.threads[t];
    match ph.stage
    case Lookup =>
      if ph.victim !in s.keyOf || !Unlocked(s, s.keyOf[ph.victim]) then s
      else if s.keyOf[ph.victim] in s.entries then Move(s, t, ph.(stage := Erase(s.keyOf[ph.victim])))
      else Move(s, t, AfterEvict(ph))
    case Erase(held) => Move(s.(entries := s.entries - {held}), t, ph.(stage := Free))
    case Free => Move(s.(freed := s.freed + {ph.victim}), t, AfterEvict(ph))
  }

  predicate AtPush(s: State, ph: Phase) {
    ph.Evicted? || (ph.Loaded? && ph.size < s.maxSize)
  }

  function Push(s: State, t: nat): (s': State)
    requires t < |s.threads| && AtPush(s, s.threads[t])
  {
    var ph := s.threads[t];
    Move(s.(list := [ph.node] + s.list, empties := s.empties + One(ph.Evicted? && ph.metEmpty)), t,
         if ph.Loaded? then Uncounted(ph.key) else Checking(ph.key, ph.size))
  }

  /** The part of find under the list mutex, skipped when try_lock fails. */
  function Touch(s: State, t: nat, locked: bool): (s': State)
    requires t < |s.threads| && s.threads[t].Found?
  {
    var ph := s.threads[t];
    var list := if locked && ph.node in s.list then [ph.node] + Without(s.list, ph.node) else s.list;
    Move(s.(list := list), t, Reading(ph.key))
  }

  predicate AtCounter(ph: Phase) {
    ph.Inserted? || ph.Uncounted? || ph.Checking? || ph.Done? || ph.Rejected? || ph.Reading?
  }

  /** The steps on m_size and the returns. */
  function Advance(s: State, t: nat): (s': State)
    requires t < |s.threads| && AtCounter(s.threads[t])
  {
    match s.threads[t]
    case Inserted(key, node) => Move(s, t, Loaded(key, node, s.size))
    case Uncounted(key) => Move(s.(size := s.size + 1), t, Checking(key, s.size))
    case Checking(key, size) =>
      if size > s.maxSize && s.size == size then Move(s.(size := size - 1), t, SizeTaken(key))
      else Move(s, t, Done(key))
    case Rejected(_, node) => Move(s.(freed := s.freed + {node}), t, Idle)
    case Done(_) => Move(s, t, Idle)
    case Reading(_) => Move(s, t, Idle)
  }

  /** The next step of thread t. */
  function Effect(s: State, t: nat, choice: Choice): (s': State)
    requires t < |s.threads|
  {
    var ph := s.threads[t];
    if ph.Idle? then Begin(s, t, choice)
    else if HasVictim(ph) then DropVictim(s, t)
    else if AtPush(s, ph) then Push(s, t)
    else if AtCounter(ph) then Advance(s, t)
    else if ph.Found? then Touch(s, t, choice.Next? && choice.locked)
    else TakeVictim(s, t)
  }

  // ---------- the invariant ----------

  predicate Start(s: State) {
    && s.size == 0 && s.entries == map[] && s.list == [] && s.keyOf == map[] && s.freed == {} && s.empties == 0
    && s.limit >= 1
    && forall t | 0 <= t < |s.threads| :: s.threads[t].Idle?
  }

  /** The conservation laws for m_size, the list and the map. */
  predicate Flow(s: State) {
    && |s.list| + Sum(s.threads, Delinking)
       == s.size + Sum(s.threads, Counting) + Sum(s.threads, Taking) + s.empties
    && |s.entries| == |s.list| + Sum(s.threads, NewEntries) + Sum(s.threads, OldEntries)
  }

  /** How far the cache can be overfilled. */
  predicate Bounded(s: State) {
    && 1 <= s.limit
    && Sum(s.threads, InInsert) <= s.limit
    && s.size + Sum(s.threads, Growing(s.maxSize)) <= s.maxSize - 1 + s.limit
    && (s.limit <= s.maxSize ==> s.empties == 0)
  }

  ghost predicate Locks(s: State) {
    forall k {:trigger Sum(s.threads, Writers(k))} ::
      && Sum(s.threads, Writers(k)) <= 1
      && (Sum(s.threads, Writers(k)) == 0 || Sum(s.threads, Readers(k)) == 0)
      && (k !in s.entries ==> Unlocked(s, k))
  }

  /** What a thread relies on while it stands between two steps. */
  predicate PhaseOk(s: State, ph: Phase) {
    && (HasNew(ph) ==> ph.key in s.entries && s.entries[ph.key] == ph.node)
    && (HasNew(ph) || ph.Rejected? ==> ph.node in s.keyOf && s.keyOf[ph.node] == ph.key)
    && (HasVictim(ph) ==>
          && ph.victim in s.keyOf
          && (!ph.stage.Free? ==> s.keyOf[ph.victim] in s.entries && s.entries[s.keyOf[ph.victim]] == ph.victim)
          && (ph.stage.Erase? ==> ph.stage.held == s.keyOf[ph.victim]))
    && (ph.Found? ==> ph.key in s.entries && s.entries[ph.key] == ph.node)
    && (ph.Evicted? && s.limit <= s.maxSize ==> !ph.metEmpty)
    && ((ph.Loaded? && ph.size >= s.maxSize) || ph.Evicting? || ph.Evicted? || ph.SizeTaken? ==> s.size >= s.maxSize)
  }

  ghost predicate PhasesOk(s: State) {
    forall t {:trigger s.threads[t]} | 0 <= t < |s.threads| :: PhaseOk(s, s.threads[t])
  }

  predicate Distinct(list: seq<nat>) {
    forall i, j | 0 <= i < j < |list| :: list[i] != list[j]
  }

  /** Every node ever allocated is in exactly one place: the list, one thread's hands, or freed. */
  ghost predicate Places(s: State) {
    && s.freed <= s.keyOf.Keys
    && (forall n | n in s.list :: n in s.keyOf)
    && Distinct(s.list)
    && (forall n {:trigger Sum(s.threads, Holding(n))} | n in s.keyOf ::
          One(n in s.list) + Sum(s.threads, Holding(n)) + One(n in s.freed) == 1)
  }

  /** A node is the list node of a live map element just while the list or one thread holds it as such. */
  ghost predicate Linked(s: State) {
    && (forall k | k in s.entries :: s.entries[k] in s.keyOf && s.keyOf[s.entries[k]] == k)
    && (forall n {:trigger Sum(s.threads, HoldingEntry(n))} | n in s.keyOf ::
          One(n in s.list) + Sum(s.threads, HoldingEntry(n))
          == One(s.keyOf[n] in s.entries && s.entries[s.keyOf[n]] == n))
  }

  ghost predicate Inv(s: State) {
    Flow(s) && Bounded(s) && Locks(s) && PhasesOk(s) && Places(s) && Linked(s)
  }

  // ---------- every step keeps it ----------

  lemma WithoutFacts(list: seq<nat>, n: nat)
    requires n in list
    requires Distinct(list)
    ensures |Without(list, n)| == |list| - 1 && n !in Without(list, n)
    ensures forall m :: m in Without(list, n) <==> m in list && m != n
    ensures Distinct(Without(list, n))
  {
    if list[0] == n {
      assert forall m :: m in list <==> m == n || m in list[1..];
    } else {
      WithoutFacts(list[1..], n);
      assert forall j | 0 < j < |list| - 1 :: Without(list, n)[j] in list[1..];
      assert forall m :: m in list <==> m == list[0] || m in list[1..];
    }
  }


  /** Thread t alone holds its node and its victim. */
  predicate OwnsAlone(s: State, t: nat)
    requires t < |s.threads|
  {
    var ph := s.threads[t];
    && (HasNew(ph) || ph.Rejected? ==> ph.node !in s.list && ph.node !in s.freed)
    && (HasVictim(ph) ==> ph.victim !in s.list && ph.victim !in s.freed)
    && (ph.Evicting? ==> ph.victim != ph.node)
  }

  lemma Owned(s: State, t: nat)
    requires Places(s) && t < |s.threads| && PhaseOk(s, s.threads[t])
    ensures OwnsAlone(s, t)
  {
    var ph := s.threads[t];
    if HasNew(ph) || ph.Rejected? {
      SumAtLeast(s.threads, t, Holding(ph.node));
      assert Sum(s.threads, Holding(ph.node)) <= 1;
    }
    if HasVictim(ph) {
      SumAtLeast(s.threads, t, Holding(ph.victim));
      assert Sum(s.threads, Holding(ph.victim)) <= 1;
    }
  }

  function Place(s: State, ph: Phase, n: nat): (r: int) {
    One(n in s.list) + Amount(Holding(n), ph) + One(n in s.freed)
  }

  /** Zero if n is the list node of its key's element exactly as often as it is held as such. */
  function LinkGap(s: State, ph: Phase, n: nat): (r: int) {
    var live := n in s.keyOf && s.keyOf[n] in s.entries && s.entries[s.keyOf[n]] == n;
    One(n in s.list) + Amount(HoldingEntry(n), ph) - One(live)
  }

  function FlowGap(s: State, ph: Phase): (r: int) {
    |s.list| + Amount(Delinking, ph) - s.size - Amount(Counting, ph) - Amount(Taking, ph) - s.empties
  }

  function EntryGap(s: State, ph: Phase): (r: int) {
    |s.entries| - |s.list| - Amount(NewEntries, ph) - Amount(OldEntries, ph)
  }

  /** The step from s to s' moves only thread t, and what t gains is what the shared state loses. */
  ghost predicate FlowBalanced(s: State, s': State, t: nat)
    requires t < |s.threads| && |s'.threads| == |s.threads|
  {
    var ph, ph' := s.threads[t], s'.threads[t];
    && s'.threads == s.threads[t := ph'] && s'.maxSize == s.maxSize && s'.limit == s.limit
    && FlowGap(s', ph') == FlowGap(s, ph)
    && EntryGap(s', ph') == EntryGap(s, ph)
  }

  ghost predicate PlaceBalanced(s: State, s': State, ph: Phase, ph': Phase) {
    && s'.freed <= s'.keyOf.Keys
    && (forall n | n in s'.list :: n in s'.keyOf)
    && Distinct(s'.list)
    && (forall n | n in s.keyOf :: n in s'.keyOf && s'.keyOf[n] == s.keyOf[n])
    && (forall n {:trigger Place(s', ph', n)} | n in s'.keyOf ::
          Place(s', ph', n) == if n in s.keyOf then Place(s, ph, n) else 1)
  }

  ghost predicate LinkBalanced(s: State, s': State, ph: Phase, ph': Phase) {
    && (forall k | k in s'.entries :: s'.entries[k] in s'.keyOf && s'.keyOf[s'.entries[k]] == k)
    && (forall n {:trigger LinkGap(s', ph', n)} | n in s'.keyOf ::
          LinkGap(s', ph', n) == if n in s.keyOf then LinkGap(s, ph, n) else 0)
  }

  lemma BeginFlow(s: State, t: nat, choice: Choice)
    requires t < |s.threads| && s.threads[t].Idle?
    requires PhaseOk(s, s.threads[t])
    ensures FlowBalanced(s, Begin(s, t, choice), t)
  {
  }

  lemma BeginPlace(s: State, t: nat, choice: Choice)
    requires t < |s.threads| && s.threads[t].Idle?
    requires PhaseOk(s, s.threads[t]) && OwnsAlone(s, t) && Places(s)
    ensures PlaceBalanced(s, Begin(s, t, choice), s.threads[t], Begin(s, t, choice).threads[t])
  {
  }

  lemma BeginLink(s: State, t: nat, choice: Choice)
    requires t < |s.threads| && s.threads[t].Idle?
    requires PhaseOk(s, s.threads[t]) && OwnsAlone(s, t) && Places(s) && Linked(s)
    ensures LinkBalanced(s, Begin(s, t, choice), s.threads[t], Begin(s, t, choice).threads[t])
  {
  }

  /** Nodes stay where they are. */
  lemma SamePlaces(s: State, s': State, ph: Phase, ph': Phase)
    requires Places(s) && s'.list == s.list && s'.keyOf == s.keyOf && s'.freed == s.freed
    requires forall n {:trigger Place(s', ph', n)} :: Amount(Holding(n), ph') == Amount(Holding(n), ph)
    ensures PlaceBalanced(s, s', ph, ph')
  {
    forall n | n in s'.keyOf ensures Place(s', ph', n) == Place(s, ph, n) {
    }
  }

  lemma TakeVictimFlow(s: State, t: nat)
    requires t < |s.threads| && ((s.threads[t].Loaded? && s.threads[t].size >= s.maxSize) || s.threads[t].SizeTaken?)
    requires PhaseOk(s, s.threads[t])
    ensures FlowBalanced(s, TakeVictim(s, t), t)
  {
  }

  lemma TakeVictimPlace(s: State, t: nat)
    requires t < |s.threads| && ((s.threads[t].Loaded? && s.threads[t].size >= s.maxSize) || s.threads[t].SizeTaken?)
    requires PhaseOk(s, s.threads[t]) && OwnsAlone(s, t) && Places(s)
    ensures PlaceBalanced(s, TakeVictim(s, t), s.threads[t], TakeVictim(s, t).threads[t])
  {
    var s', ph := TakeVictim(s, t), s.threads[t];
    var ph' := s'.threads[t];
    if s.list == [] {
      forall n ensures Amount(Holding(n), ph') == Amount(Holding(n), ph) {
      }
      SamePlaces(s, s', ph, ph');
    } else {
      LastTaken(s.list);
    }
  }

  lemma LastTaken(list: seq<nat>)
    requires Distinct(list) && list != []
    ensures (var last := |list| - 1;
             Distinct(list[..last]) && forall n :: n in list[..last] <==> n in list && n != list[last])
  {
    var last := |list| - 1;
    assert list == list[..last] + [list[last]];
  }

  lemma TakeVictimLink(s: State, t: nat)
    requires t < |s.threads| && ((s.threads[t].Loaded? && s.threads[t].size >= s.maxSize) || s.threads[t].SizeTaken?)
    requires PhaseOk(s, s.threads[t]) && OwnsAlone(s, t) && Places(s) && Linked(s)
    ensures LinkBalanced(s, TakeVictim(s, t), s.threads[t], TakeVictim(s, t).threads[t])
  {
  }

  lemma EraseFlow(s: State, t: nat)
    requires t < |s.threads| && HasVictim(s.threads[t]) && s.threads[t].stage.Erase?
    requires PhaseOk(s, s.threads[t])
    ensures FlowBalanced(s, DropVictim(s, t), t)
  {
    var held := s.threads[t].stage.held;
    assert s.entries.Keys == (s.entries - {held}).Keys + {held};
  }

  lemma DropVictimFlow(s: State, t: nat)
    requires t < |s.threads| && HasVictim(s.threads[t])
    requires PhaseOk(s, s.threads[t])
    ensures FlowBalanced(s, DropVictim(s, t), t)
  {
    if s.threads[t].stage.Erase? {
      EraseFlow(s, t);
    }
  }

  lemma DropVictimPlace(s: State, t: nat)
    requires t < |s.threads| && HasVictim(s.threads[t])
    requires PhaseOk(s, s.threads[t]) && OwnsAlone(s, t) && Places(s)
    ensures PlaceBalanced(s, DropVictim(s, t), s.threads[t], DropVictim(s, t).threads[t])
  {
  }

  lemma DropVictimLink(s: State, t: nat)
    requires t < |s.threads| && HasVictim(s.threads[t])
    requires PhaseOk(s, s.threads[t]) && OwnsAlone(s, t) && Places(s) && Linked(s)
    ensures LinkBalanced(s, DropVictim(s, t), s.threads[t], DropVictim(s, t).threads[t])
  {
  }

  lemma PushFlow(s: State, t: nat)
    requires t < |s.threads| && AtPush(s, s.threads[t])
    requires PhaseOk(s, s.threads[t])
    ensures FlowBalanced(s, Push(s, t), t)
  {
  }

  lemma PushPlace(s: State, t: nat)
    requires t < |s.threads| && AtPush(s, s.threads[t])
    requires PhaseOk(s, s.threads[t]) && OwnsAlone(s, t) && Places(s)
    ensures PlaceBalanced(s, Push(s, t), s.threads[t], Push(s, t).threads[t])
  {
  }

  lemma PushLink(s: State, t: nat)
    requires t < |s.threads| && AtPush(s, s.threads[t])
    requires PhaseOk(s, s.threads[t]) && OwnsAlone(s, t) && Places(s) && Linked(s)
    ensures LinkBalanced(s, Push(s, t), s.threads[t], Push(s, t).threads[t])
  {
  }

  lemma TouchFlow(s: State, t: nat, locked: bool)
    requires t < |s.threads| && s.threads[t].Found?
    requires PhaseOk(s, s.threads[t]) && Distinct(s.list)
    ensures FlowBalanced(s, Touch(s, t, locked), t)
  {
    if s.threads[t].node in s.list {
      WithoutFacts(s.list, s.threads[t].node);
    }
  }

  lemma TouchPlace(s: State, t: nat, locked: bool)
    requires t < |s.threads| && s.threads[t].Found?
    requires PhaseOk(s, s.threads[t]) && OwnsAlone(s, t) && Places(s)
    ensures PlaceBalanced(s, Touch(s, t, locked), s.threads[t], Touch(s, t, locked).threads[t])
  {
    if s.threads[t].node in s.list {
      WithoutFacts(s.list, s.threads[t].node);
    }
  }

  lemma TouchLink(s: State, t: nat, locked: bool)
    requires t < |s.threads| && s.threads[t].Found?
    requires PhaseOk(s, s.threads[t]) && OwnsAlone(s, t) && Places(s) && Linked(s)
    ensures LinkBalanced(s, Touch(s, t, locked), s.threads[t], Touch(s, t, locked).threads[t])
  {
    if s.threads[t].node in s.list {
      WithoutFacts(s.list, s.threads[t].node);
    }
  }

  lemma AdvanceFlow(s: State, t: nat)
    requires t < |s.threads| && AtCounter(s.threads[t])
    requires PhaseOk(s, s.threads[t])
    ensures FlowBalanced(s, Advance(s, t), t)
  {
  }

  lemma AdvanceHolds(s: State, t: nat, n: nat)
    requires t < |s.threads| && AtCounter(s.threads[t]) && !s.threads[t].Rejected?
    ensures Amount(Holding(n), Advance(s, t).threads[t]) == Amount(Holding(n), s.threads[t])
  {
  }

  /** The node of a rejected insert goes from the thread's hands to the freed nodes. */
  lemma RejectedPlace(s: State, t: nat)
    requires t < |s.threads| && s.threads[t].Rejected?
    requires PhaseOk(s, s.threads[t]) && OwnsAlone(s, t) && Places(s)
    ensures PlaceBalanced(s, Advance(s, t), s.threads[t], Idle)
  {
  }

  lemma AdvancePlace(s: State, t: nat)
    requires t < |s.threads| && AtCounter(s.threads[t])
    requires PhaseOk(s, s.threads[t]) && OwnsAlone(s, t) && Places(s)
    ensures PlaceBalanced(s, Advance(s, t), s.threads[t], Advance(s, t).threads[t])
  {
    var s', ph := Advance(s, t), s.threads[t];
    if ph.Rejected? {
      RejectedPlace(s, t);
    } else {
      var ph' := s'.threads[t];
      forall n ensures Amount(Holding(n), ph') == Amount(Holding(n), ph) {
        AdvanceHolds(s, t, n);
      }
      SamePlaces(s, s', ph, ph');
    }
  }

  lemma AdvanceLink(s: State, t: nat)
    requires t < |s.threads| && AtCounter(s.threads[t])
    requires PhaseOk(s, s.threads[t]) && OwnsAlone(s, t) && Places(s) && Linked(s)
    ensures LinkBalanced(s, Advance(s, t), s.threads[t], Advance(s, t).threads[t])
  {
  }

  lemma Balance(s: State, t: nat, choice: Choice)
    requires PhasesOk(s) && Places(s) && Linked(s) && t < |s.threads|
    ensures (var s' := Effect(s, t, choice);
             && FlowBalanced(s, s', t)
             && PlaceBalanced(s, s', s.threads[t], s'.threads[t])
             && LinkBalanced(s, s', s.threads[t], s'.threads[t]))
  {
    var ph := s.threads[t];
    assert PhaseOk(s, ph);
    Owned(s, t);
    if ph.Idle? {
      BeginFlow(s, t, choice);
      BeginPlace(s, t, choice);
      BeginLink(s, t, choice);
    } else if HasVictim(ph) {
      DropVictimFlow(s, t);
      DropVictimPlace(s, t);
      DropVictimLink(s, t);
    } else if AtPush(s, ph) {
      PushFlow(s, t);
      PushPlace(s, t);
      PushLink(s, t);
    } else if AtCounter(ph) {
      AdvanceFlow(s, t);
      AdvancePlace(s, t);
      AdvanceLink(s, t);
    } else if ph.Found? {
      TouchFlow(s, t, choice.Next? && choice.locked);
      TouchPlace(s, t, choice.Next? && choice.locked);
      TouchLink(s, t, choice.Next? && choice.locked);
    } else {
      TakeVictimFlow(s, t);
      TakeVictimPlace(s, t);
      TakeVictimLink(s, t);
    }
  }

  lemma FlowKept(s: State, s': State, t: nat)
    requires Flow(s) && t < |s.threads| == |s'.threads| && FlowBalanced(s, s', t)
    ensures Flow(s')
  {
    var ph' := s'.threads[t];
    SumUpdate(s.threads, t, ph', Delinking);
    SumUpdate(s.threads, t, ph', Counting);
    SumUpdate(s.threads, t, ph', Taking);
    SumUpdate(s.threads, t, ph', NewEntries);
    SumUpdate(s.threads, t, ph', OldEntries);
  }

  lemma PlacesKept(s: State, s': State, t: nat)
    requires Places(s) && PhasesOk(s) && t < |s.threads| == |s'.threads| && s'.threads == s.threads[t := s'.threads[t]]
    requires PlaceBalanced(s, s', s.threads[t], s'.threads[t])
    ensures Places(s')
  {
    var ph, ph' := s.threads[t], s'.threads[t];
    forall n | n in s'.keyOf
      ensures One(n in s'.list) + Sum(s'.threads, Holding(n)) + One(n in s'.freed) == 1
    {
      SumUpdate(s.threads, t, ph', Holding(n));
      assert Place(s', ph', n) == if n in s.keyOf then Place(s, ph, n) else 1;
      if n !in s.keyOf {
        SumZero(s.threads, Holding(n));
      } else {
        assert Sum(s.threads, Holding(n)) <= 1;
      }
    }
  }

  lemma LinkedKept(s: State, s': State, t: nat)
    requires Linked(s) && PhasesOk(s) && t < |s.threads| == |s'.threads| && s'.threads == s.threads[t := s'.threads[t]]
    requires LinkBalanced(s, s', s.threads[t], s'.threads[t])
    ensures Linked(s')
  {
    var ph, ph' := s.threads[t], s'.threads[t];
    forall n | n in s'.keyOf
      ensures One(n in s'.list) + Sum(s'.threads, HoldingEntry(n))
              == One(s'.keyOf[n] in s'.entries && s'.entries[s'.keyOf[n]] == n)
    {
      SumUpdate(s.threads, t, ph', HoldingEntry(n));
      assert LinkGap(s', ph', n) == if n in s.keyOf then LinkGap(s, ph, n) else 0;
      if n !in s.keyOf {
        SumZero(s.threads, HoldingEntry(n));
      } else {
        assert Sum(s.threads, HoldingEntry(n)) <= 1;
      }
    }
  }

  // ---------- locks, phases and bounds ----------

  /** Where thread t gains a lock of k it is free to take, and if k leaves the map t alone had locked it. */
  predicate LockMove(s: State, s': State, ph: Phase, ph': Phase, k: int) {
    var (w, w') := (Amount(Writers(k), ph), Amount(Writers(k), ph'));
    var (r, r') := (Amount(Readers(k), ph), Amount(Readers(k), ph'));
    && (w' <= w || (w' == w + 1 && r' <= r && Unlocked(s, k) && k in s'.entries))
    && (r' <= r || (w' <= w && Sum(s.threads, Writers(k)) == 0 && k in s'.entries))
    && (k in s.entries && k !in s'.entries ==> w == 1 && w' == 0 && r' == 0)
  }

  lemma LocksKept(s: State, s': State, t: nat)
    requires Locks(s) && t < |s.threads| == |s'.threads| && s'.threads == s.threads[t := s'.threads[t]]
    requires forall k :: LockMove(s, s', s.threads[t], s'.threads[t], k)
    ensures Locks(s')
  {
    var ph, ph' := s.threads[t], s'.threads[t];
    forall k
      ensures Sum(s'.threads, Writers(k)) <= 1
      ensures Sum(s'.threads, Writers(k)) == 0 || Sum(s'.threads, Readers(k)) == 0
      ensures k !in s'.entries ==> Unlocked(s', k)
    {
      SumUpdate(s.threads, t, ph', Writers(k));
      SumUpdate(s.threads, t, ph', Readers(k));
      SumAtLeast(s.threads, t, Writers(k));
      SumAtLeast(s.threads, t, Readers(k));
      assert Sum(s.threads, Writers(k)) <= 1;
      assert LockMove(s, s', ph, ph', k);
    }
  }

  /** What other threads rely on: their elements stay, and m_size does not fall below maxSize. */
  lemma PhaseKept(s: State, s': State, ph: Phase)
    requires PhaseOk(s, ph) && s'.maxSize == s.maxSize && s'.limit == s.limit
    requires forall n | n in s.keyOf :: n in s'.keyOf && s'.keyOf[n] == s.keyOf[n]
    requires HasNew(ph) || ph.Found? ==> ph.key in s'.entries && s'.entries[ph.key] == s.entries[ph.key]
    requires HasVictim(ph) && !ph.stage.Free? ==>
               (var k := s.keyOf[ph.victim]; k in s'.entries && s'.entries[k] == s.entries[k])
    requires s.size >= s.maxSize ==> s'.size >= s.maxSize
    ensures PhaseOk(s', ph)
  {
  }

  /** An element that thread t erases is one no other thread relies on. */
  lemma ErasedIsUnused(s: State, t: nat, u: nat)
    requires Locks(s) && Places(s) && PhasesOk(s) && t < |s.threads| && u < |s.threads| && t != u
    requires HasVictim(s.threads[t]) && s.threads[t].stage.Erase?
    ensures (var held, ph := s.threads[t].stage.held, s.threads[u];
             && (HasNew(ph) || ph.Found? ==> ph.key != held)
             && (HasVictim(ph) && !ph.stage.Free? ==> s.keyOf[ph.victim] != held))
  {
    var ph := s.threads[t];
    var held, victim := ph.stage.held, ph.victim;
    assert PhaseOk(s, ph) && PhaseOk(s, s.threads[u]);
    if t < u {
      SumTwo(s.threads, t, u, Holding(victim));
    } else {
      SumTwo(s.threads, u, t, Holding(victim));
    }
    assert Sum(s.threads, Holding(victim)) <= 1;
    SumAtLeast(s.threads, t, Writers(held));
    SumAtLeast(s.threads, u, Readers(held));
    assert Sum(s.threads, Writers(held)) == 0 || Sum(s.threads, Readers(held)) == 0;
  }

  /** If an eviction meets an empty list, more threads may be inside insert than the cache has room for. */
  lemma EmptyNeedsCrowd(s: State, t: nat)
    requires Flow(s) && Bounded(s) && t < |s.threads| && PhaseOk(s, s.threads[t]) && s.list == []
    requires (s.threads[t].Loaded? && s.threads[t].size >= s.maxSize) || s.threads[t].SizeTaken?
    ensures s.maxSize < s.limit
  {
    SumStrictlyBelow(s.threads, t, Delinking, InInsert);
  }

  predicate BoundMove(s: State, s': State, ph: Phase, ph': Phase) {
    && (Amount(InInsert, ph') <= Amount(InInsert, ph) || Sum(s.threads, InInsert) < s.limit)
    && (s'.size + Amount(Growing(s.maxSize), ph') <= s.size + Amount(Growing(s.maxSize), ph)
        || (s'.size == s.size < s.maxSize))
    && (s'.empties == s.empties || s.maxSize < s.limit)
    && (s.size >= s.maxSize ==> s'.size >= s.maxSize)
  }

  lemma BoundedKept(s: State, s': State, t: nat)
    requires Bounded(s) && t < |s.threads| == |s'.threads| && s'.threads == s.threads[t := s'.threads[t]]
    requires s'.maxSize == s.maxSize && s'.limit == s.limit
    requires BoundMove(s, s', s.threads[t], s'.threads[t])
    ensures Bounded(s')
  {
    SumUpdate(s.threads, t, s'.threads[t], InInsert);
    SumUpdate(s.threads, t, s'.threads[t], Growing(s.maxSize));
    SumBelow(s'.threads, Growing(s.maxSize), InInsert);
  }

  lemma BeginLock(s: State, t: nat, choice: Choice, k: int)
    requires t < |s.threads| && s.threads[t].Idle?
    requires PhaseOk(s, s.threads[t]) && Locks(s)
    ensures LockMove(s, Begin(s, t, choice), s.threads[t], Begin(s, t, choice).threads[t], k)
  {
  }

  lemma BeginBound(s: State, t: nat, choice: Choice)
    requires t < |s.threads| && s.threads[t].Idle?
    requires PhaseOk(s, s.threads[t])
    ensures BoundMove(s, Begin(s, t, choice), s.threads[t], Begin(s, t, choice).threads[t])
  {
  }

  lemma BeginPhase(s: State, t: nat, choice: Choice)
    requires t < |s.threads| && s.threads[t].Idle?
    requires PhaseOk(s, s.threads[t])
    ensures PhaseOk(Begin(s, t, choice), Begin(s, t, choice).threads[t])
  {
  }

  lemma TakeVictimLock(s: State, t: nat, k: int)
    requires t < |s.threads| && ((s.threads[t].Loaded? && s.threads[t].size >= s.maxSize) || s.threads[t].SizeTaken?)
    requires PhaseOk(s, s.threads[t])
    ensures LockMove(s, TakeVictim(s, t), s.threads[t], TakeVictim(s, t).threads[t], k)
  {
  }

  lemma TakeVictimBound(s: State, t: nat)
    requires t < |s.threads| && ((s.threads[t].Loaded? && s.threads[t].size >= s.maxSize) || s.threads[t].SizeTaken?)
    requires PhaseOk(s, s.threads[t]) && Flow(s) && Bounded(s)
    ensures BoundMove(s, TakeVictim(s, t), s.threads[t], TakeVictim(s, t).threads[t])
  {
    if s.list == [] {
      EmptyNeedsCrowd(s, t);
    }
  }

  lemma TakeVictimPhase(s: State, t: nat)
    requires t < |s.threads| && ((s.threads[t].Loaded? && s.threads[t].size >= s.maxSize) || s.threads[t].SizeTaken?)
    requires PhaseOk(s, s.threads[t]) && Flow(s) && Bounded(s) && Linked(s) && Places(s)
    ensures PhaseOk(TakeVictim(s, t), TakeVictim(s, t).threads[t])
  {
    if s.list == [] {
      EmptyNeedsCrowd(s, t);
    } else {
      var victim := s.list[|s.list| - 1];
      assert victim in s.list;
      assert One(true) + Sum(s.threads, HoldingEntry(victim))
             == One(s.keyOf[victim] in s.entries && s.entries[s.keyOf[victim]] == victim);
    }
  }

  lemma DropVictimLock(s: State, t: nat, k: int)
    requires t < |s.threads| && HasVictim(s.threads[t])
    requires PhaseOk(s, s.threads[t]) && Locks(s)
    ensures LockMove(s, DropVictim(s, t), s.threads[t], DropVictim(s, t).threads[t], k)
  {
    var ph := s.threads[t];
    if ph.stage.Erase? {
      SumAtLeast(s.threads, t, Writers(ph.stage.held));
      assert Sum(s.threads, Writers(ph.stage.held)) <= 1;
    }
  }

  lemma DropVictimBound(s: State, t: nat)
    requires t < |s.threads| && HasVictim(s.threads[t])
    requires PhaseOk(s, s.threads[t])
    ensures BoundMove(s, DropVictim(s, t), s.threads[t], DropVictim(s, t).threads[t])
  {
  }

  lemma DropVictimPhase(s: State, t: nat)
    requires t < |s.threads| && HasVictim(s.threads[t])
    requires PhaseOk(s, s.threads[t]) && OwnsAlone(s, t) && Linked(s)
    ensures PhaseOk(DropVictim(s, t), DropVictim(s, t).threads[t])
  {
  }

  lemma PushLock(s: State, t: nat, k: int)
    requires t < |s.threads| && AtPush(s, s.threads[t])
    requires PhaseOk(s, s.threads[t])
    ensures LockMove(s, Push(s, t), s.threads[t], Push(s, t).threads[t], k)
  {
  }

  lemma PushBound(s: State, t: nat)
    requires t < |s.threads| && AtPush(s, s.threads[t])
    requires PhaseOk(s, s.threads[t])
    ensures BoundMove(s, Push(s, t), s.threads[t], Push(s, t).threads[t])
  {
  }

  lemma PushPhase(s: State, t: nat)
    requires t < |s.threads| && AtPush(s, s.threads[t])
    requires PhaseOk(s, s.threads[t])
    ensures PhaseOk(Push(s, t), Push(s, t).threads[t])
  {
  }

  lemma TouchLock(s: State, t: nat, locked: bool, k: int)
    requires t < |s.threads| && s.threads[t].Found?
    requires PhaseOk(s, s.threads[t])
    ensures LockMove(s, Touch(s, t, locked), s.threads[t], Touch(s, t, locked).threads[t], k)
  {
  }

  lemma TouchBound(s: State, t: nat, locked: bool)
    requires t < |s.threads| && s.threads[t].Found?
    requires PhaseOk(s, s.threads[t])
    ensures BoundMove(s, Touch(s, t, locked), s.threads[t], Touch(s, t, locked).threads[t])
  {
  }

  lemma TouchPhase(s: State, t: nat, locked: bool)
    requires t < |s.threads| && s.threads[t].Found?
    requires PhaseOk(s, s.threads[t])
    ensures PhaseOk(Touch(s, t, locked), Touch(s, t, locked).threads[t])
  {
  }

  lemma AdvanceLock(s: State, t: nat, k: int)
    requires t < |s.threads| && AtCounter(s.threads[t])
    requires PhaseOk(s, s.threads[t])
    ensures LockMove(s, Advance(s, t), s.threads[t], Advance(s, t).threads[t], k)
  {
  }

  lemma AdvanceBound(s: State, t: nat)
    requires t < |s.threads| && AtCounter(s.threads[t])
    requires PhaseOk(s, s.threads[t])
    ensures BoundMove(s, Advance(s, t), s.threads[t], Advance(s, t).threads[t])
  {
  }

  lemma AdvancePhase(s: State, t: nat)
    requires t < |s.threads| && AtCounter(s.threads[t])
    requires PhaseOk(s, s.threads[t])
    ensures PhaseOk(Advance(s, t), Advance(s, t).threads[t])
  {
  }

  // ---------- runs ----------

  lemma ElementsStay(s: State, t: nat, choice: Choice, k: int)
    requires t < |s.threads| && k in s.entries
    ensures (var s', ph := Effect(s, t, choice), s.threads[t];
             (k in s'.entries && s'.entries[k] == s.entries[k]) || (HasVictim(ph) && ph.stage == Erase(k)))
  {
  }

  lemma OtherPhaseKept(s: State, t: nat, choice: Choice, u: nat)
    requires Inv(s) && t < |s.threads| && u < |s.threads| && t != u
    requires (var s' := Effect(s, t, choice);
              && s'.maxSize == s.maxSize && s'.limit == s.limit && (s.size >= s.maxSize ==> s'.size >= s.maxSize)
              && forall n | n in s.keyOf :: n in s'.keyOf && s'.keyOf[n] == s.keyOf[n])
    ensures PhaseOk(Effect(s, t, choice), s.threads[u])
  {
    var ph := s.threads[u];
    assert PhaseOk(s, ph);
    if HasVictim(s.threads[t]) && s.threads[t].stage.Erase? {
      ErasedIsUnused(s, t, u);
    }
    if HasNew(ph) || ph.Found? {
      ElementsStay(s, t, choice, ph.key);
    }
    if HasVictim(ph) && !ph.stage.Free? {
      ElementsStay(s, t, choice, s.keyOf[ph.victim]);
    }
    PhaseKept(s, Effect(s, t, choice), ph);
  }

  lemma MoveLocal(s: State, t: nat, choice: Choice, k: int)
    requires Inv(s) && t < |s.threads|
    ensures (var s' := Effect(s, t, choice);
             && LockMove(s, s', s.threads[t], s'.threads[t], k)
             && BoundMove(s, s', s.threads[t], s'.threads[t])
             && PhaseOk(s', s'.threads[t]))
  {
    var ph := s.threads[t];
    assert PhaseOk(s, ph);
    Owned(s, t);
    if ph.Idle? {
      BeginLock(s, t, choice, k);
      BeginBound(s, t, choice);
      BeginPhase(s, t, choice);
    } else if HasVictim(ph) {
      DropVictimLock(s, t, k);
      DropVictimBound(s, t);
      DropVictimPhase(s, t);
    } else if AtPush(s, ph) {
      PushLock(s, t, k);
      PushBound(s, t);
      PushPhase(s, t);
    } else if AtCounter(ph) {
      AdvanceLock(s, t, k);
      AdvanceBound(s, t);
      AdvancePhase(s, t);
    } else if ph.Found? {
      TouchLock(s, t, choice.Next? && choice.locked, k);
      TouchBound(s, t, choice.Next? && choice.locked);
      TouchPhase(s, t, choice.Next? && choice.locked);
    } else {
      TakeVictimLock(s, t, k);
      TakeVictimBound(s, t);
      TakeVictimPhase(s, t);
    }
  }

  /** Every step of every thread keeps the invariant, and a full cache stays full. */
  lemma StepKeepsInv(s: State, t: nat, choice: Choice)
    requires Inv(s) && t < |s.threads|
    ensures Inv(Effect(s, t, choice))
    ensures |Effect(s, t, choice).threads| == |s.threads|
    ensures s.size >= s.maxSize ==> Effect(s, t, choice).size >= s.maxSize
  {
    var s' := Effect(s, t, choice);
    Balance(s, t, choice);
    FlowKept(s, s', t);
    PlacesKept(s, s', t);
    LinkedKept(s, s', t);
    forall k ensures LockMove(s, s', s.threads[t], s'.threads[t], k) {
      MoveLocal(s, t, choice, k);
    }
    LocksKept(s, s', t);
    MoveLocal(s, t, choice, 0);
    BoundedKept(s, s', t);
    forall u | 0 <= u < |s'.threads| ensures PhaseOk(s', s'.threads[u]) {
      if u != t {
        OtherPhaseKept(s, t, choice, u);
      }
    }
  }

  datatype History = Begun(start: State) | Then(past: History, t: nat, choice: Choice)

  function After(h: History): (s: State) {
    match h
    case Begun(s0) => s0
    case Then(past, t, choice) => if t < |After(past).threads| then Effect(After(past), t, choice) else After(past)
  }

  predicate Fresh(h: History) {
    match h
    case Begun(s0) => Start(s0)
    case Then(past, _, _) => Fresh(past)
  }

  lemma StartInv(s: State)
    requires Start(s)
    ensures Inv(s)
  {
    forall q ensures Sum(s.threads, q) == 0 {
      SumZero(s.threads, q);
    }
    forall k ensures Sum(s.threads, Writers(k)) == 0 && Unlocked(s, k) {
      assert Sum(s.threads, Readers(k)) == 0;
    }
  }

  lemma {:induction false} RunKeepsInv(h: History)
    requires Fresh(h)
    ensures Inv(After(h))
  {
    match h
    case Begun(s0) => StartInv(s0);
    case Then(past, t, choice) =>
      RunKeepsInv(past);
      if t < |After(past).threads| {
        StepKeepsInv(After(past), t, choice);
      }
  }

  // ---------- what holds in every run ----------

  /**
   Conservation.  The list is as long as m_size says, up to inserts caught between their list and
   their counter operations and up to evictions that found nothing to evict.
   */
  lemma Conservation(h: History)
    requires Fresh(h)
    ensures (var s := After(h);
             |s.list| + Sum(s.threads, Delinking)
             == s.size + Sum(s.threads, Counting) + Sum(s.threads, Taking) + s.empties)
    ensures (var s := After(h);
             |s.entries| == |s.list| + Sum(s.threads, NewEntries) + Sum(s.threads, OldEntries))
  {
    RunKeepsInv(h);
  }

  /** With at most `limit` threads inside insert, m_size stays below maxSize + limit, pending increments included. */
  lemma OverfillBound(h: History)
    requires Fresh(h)
    ensures (var s := After(h); s.size + Sum(s.threads, Growing(s.maxSize)) <= s.maxSize - 1 + s.limit)
  {
    RunKeepsInv(h);
  }

  predicate Extends(later: History, h: History) {
    later == h || (later.Then? && Extends(later.past, h))
  }

  /** Once m_size has reached maxSize it never falls below it. */
  lemma {:induction false} FullStaysFull(h: History, later: History)
    requires Fresh(later) && Extends(later, h) && After(h).size >= After(h).maxSize
    ensures Fresh(h) && After(later).size >= After(later).maxSize == After(h).maxSize
  {
    if later != h {
      FullStaysFull(h, later.past);
      RunKeepsInv(later.past);
      var s := After(later.past);
      if later.t < |s.threads| {
        StepKeepsInv(s, later.t, later.choice);
        Balance(s, later.t, later.choice);
      }
    }
  }

  /** If the cache has room for every thread inside insert, no eviction ever meets an empty list. */
  lemma NoEmptyEviction(h: History, t: nat)
    requires Fresh(h) && After(h).limit <= After(h).maxSize && t < |After(h).threads|
    ensures After(h).empties == 0
    ensures (var s, ph := After(h), After(h).threads[t];
             (ph.Loaded? && ph.size >= s.maxSize) || ph.SizeTaken? ==> s.list != [])
  {
    RunKeepsInv(h);
    var s := After(h);
    assert PhaseOk(s, s.threads[t]);
    if s.list == [] && ((s.threads[t].Loaded? && s.threads[t].size >= s.maxSize) || s.threads[t].SizeTaken?) {
      EmptyNeedsCrowd(s, t);
    }
  }

  predicate Quiet(s: State) {
    forall t | 0 <= t < |s.threads| :: s.threads[t].Idle?
  }

  /**
   Between operations the map and the list hold the same elements, as many as m_size says plus the
   evictions that met an empty list; so exactly m_size of them if there is room for all inserters.
   */
  lemma Quiescence(h: History)
    requires Fresh(h) && Quiet(After(h))
    ensures (var s := After(h);
             && |s.entries| == |s.list| == s.size + s.empties
             && (s.limit <= s.maxSize ==> s.size == |s.entries|)
             && s.size <= s.maxSize - 1 + s.limit
             && Distinct(s.list)
             && (forall k | k in s.entries :: s.entries[k] in s.list)
             && (forall n | n in s.list :: n in s.keyOf && s.keyOf[n] in s.entries && s.entries[s.keyOf[n]] == n))
  {
    RunKeepsInv(h);
    QuietCounts(After(h));
    QuietLinks(After(h));
  }

  lemma QuietCounts(s: State)
    requires Quiet(s) && Flow(s) && Bounded(s)
    ensures |s.entries| == |s.list| == s.size + s.empties
    ensures (s.limit <= s.maxSize ==> s.size == |s.entries|) && s.size <= s.maxSize - 1 + s.limit
  {
    SumZero(s.threads, Delinking);
    SumZero(s.threads, Counting);
    SumZero(s.threads, Taking);
    SumZero(s.threads, NewEntries);
    SumZero(s.threads, OldEntries);
  }

  lemma QuietLinks(s: State)
    requires Quiet(s) && Places(s) && Linked(s)
    ensures forall k | k in s.entries :: s.entries[k] in s.list
    ensures forall n | n in s.list :: n in s.keyOf && s.keyOf[n] in s.entries && s.entries[s.keyOf[n]] == n
  {
    forall n | n in s.keyOf
      ensures n in s.list <==> s.keyOf[n] in s.entries && s.entries[s.keyOf[n]] == n
    {
      SumZero(s.threads, HoldingEntry(n));
    }
  }

  /** evict's map lookup always succeeds, and the element it finds is the one of its victim. */
  lemma LookupSucceeds(h: History, t: nat)
    requires Fresh(h) && t < |After(h).threads|
    requires HasVictim(After(h).threads[t]) && After(h).threads[t].stage.Lookup?
    ensures (var s, victim := After(h), After(h).threads[t].victim;
             victim in s.keyOf && s.keyOf[victim] in s.entries && s.entries[s.keyOf[victim]] == victim)
  {
    RunKeepsInv(h);
    assert PhaseOk(After(h), After(h).threads[t]);
  }

  /**
   No use after free and no double free: a node that a thread is about to push, to free or to look
   at through a map element is allocated and not freed; two threads never hold the same one; a freed
   node is neither in the list nor in the map.
   */
  lemma NodesAreLive(h: History, t: nat)
    requires Fresh(h) && t < |After(h).threads|
    ensures (var s, ph := After(h), After(h).threads[t];
             && (HasNew(ph) || ph.Rejected? || ph.Found? ==> ph.node in s.keyOf && ph.node !in s.freed)
             && (HasVictim(ph) ==> ph.victim in s.keyOf && ph.victim !in s.freed)
             && (HasNew(ph) || ph.Rejected? ==> ph.node !in s.list)
             && (HasVictim(ph) ==> ph.victim !in s.list)
             && (forall n | n in s.freed :: n !in s.list)
             && (forall k | k in s.entries :: s.entries[k] !in s.freed))
  {
    RunKeepsInv(h);
    var s := After(h);
    assert PhaseOk(s, s.threads[t]);
    Owned(s, t);
    forall k | k in s.entries ensures s.entries[k] !in s.freed {
      EntryIsLive(s, k);
    }
    forall n | n in s.freed ensures n !in s.list {
      assert Sum(s.threads, Holding(n)) >= 0;
    }
  }

  lemma EntryIsLive(s: State, k: int)
    requires Places(s) && Linked(s) && k in s.entries
    ensures s.entries[k] !in s.freed
  {
    var n := s.entries[k];
    assert One(n in s.list) + Sum(s.threads, HoldingEntry(n)) == 1;
    SumBelow(s.threads, HoldingEntry(n), Holding(n));
    assert One(n in s.list) + Sum(s.threads, Holding(n)) + One(n in s.freed) == 1;
  }

  lemma OneHolder(h: History, t: nat, u: nat, n: nat)
    requires Fresh(h) && t < u < |After(h).threads|
    ensures Amount(Holding(n), After(h).threads[t]) + Amount(Holding(n), After(h).threads[u]) <= 1
  {
    RunKeepsInv(h);
    HeldOnce(After(h), t, u, n);
  }

  lemma HeldOnce(s: State, t: nat, u: nat, n: nat)
    requires t < u < |s.threads| && Places(s) && PhaseOk(s, s.threads[t]) && PhaseOk(s, s.threads[u])
    ensures Amount(Holding(n), s.threads[t]) + Amount(Holding(n), s.threads[u]) <= 1
  {
    SumTwo(s.threads, t, u, Holding(n));
    assert n in s.keyOf ==> Sum(s.threads, Holding(n)) <= 1;
  }

  lemma ReadLockKeepsElement(s: State, t: nat)
    requires Locks(s) && t < |s.threads| && (s.threads[t].Found? || s.threads[t].Reading?)
    ensures s.threads[t].key in s.entries
  {
    var k := s.threads[t].key;
    SumAtLeast(s.threads, t, Readers(k));
    assert Sum(s.threads, Writers(k)) <= 1;
  }

  /** While a caller of find keeps its accessor, the element stays in the map. */
  lemma AccessorIsValid(h: History, t: nat)
    requires Fresh(h) && t < |After(h).threads| && (After(h).threads[t].Found? || After(h).threads[t].Reading?)
    ensures After(h).threads[t].key in After(h).entries
  {
    RunKeepsInv(h);
    ReadLockKeepsElement(After(h), t);
  }
}
