/**
 tbb::concurrent_hash_map (src/intel/include/tbb/concurrent_hash_map.h) with any number of threads:
 lookups and erasures with stale masks, while buckets are rehashed and the table grows.  A step is one
 access to my_mask or to a node_list flag, or the work done between taking and giving up the lock of a
 bucket.  A bucket that rehash_bucket has marked and not yet filled is write-locked by its rehasher.
 */
module HashThreads {
  import opened Buckets
  import opened HashMap

  datatype Op = Find | Insert(value: int) | Erase

  /**
   Where a call stands.  The mask loaded last is 2^m - 1 and the bucket is that of the key under mask
   2^i - 1; m is above i only after an erasure went on with its bucket in spite of a newer mask.
   */
  datatype Phase =
    | Idle
    | Loaded(key: int, op: Op, i: nat)         // about to take the bucket
    // these hold the lock of the bucket; `missed`: the key was looked for and is not there
    | Searched(key: int, op: Op, i: nat, m: nat, write: bool, missed: bool)         // about to load the mask
    | Checked(key: int, op: Op, i: nat, m: nat, write: bool, missed: bool, j: nat)  // loaded 2^j - 1
    | Again(key: int, i: nat, m: nat)          // an erasure, no race: about to search the bucket once more
    | Confirmed(key: int, value: int, i: nat)  // an insertion, no race: about to add the node
    | Answered(key: int, i: nat, write: bool)  // about to return false

  datatype State = State(
    level: nat,              // my_mask == 2^level - 1
    buckets: seq<Bucket>,
    busy: set<nat>,          // marked and not yet filled
    contents: map<int, int>, // what the map stands for
    threads: seq<Phase>)

  /** What a step answers or does, as the caller sees it. */
  datatype Event = Silent | Hit(key: int, value: int) | Miss(key: int) | Put(key: int, value: int) | Drop(key: int)

  datatype Choice =
    | Begin(key: int, op: Op)
    | Proceed(write: bool)  // an insertion may take its bucket for reading first, or for writing
    | Upgrade               // a reader that is alone becomes a writer
    | Contend               // it was not alone: the lock is given up, then taken for writing
    | Reload                // the wait for the lock of a node took too long: the mask is loaded again
    | Mark(b: nat)          // rehash_bucket, first part
    | Fill(b: nat)          // rehash_bucket, second part
    | Grow(newLevel: nat)   // enable_segment

  predicate Locks(ph: Phase) {
    !ph.Idle? && !ph.Loaded?
  }

  predicate Writes(ph: Phase) {
    ph.Confirmed? || ph.Again? || ((ph.Searched? || ph.Checked? || ph.Answered?) && ph.write)
  }

  /** The bucket whose lock a thread holds. */
  function Held(hash: int -> nat, ph: Phase): (b: nat)
    requires Locks(ph)
  {
    At(hash(ph.key), ph.i)
  }

  predicate HeldBy(s: State, hash: int -> nat, t: nat, b: nat)
    requires t < |s.threads|
  {
    Locks(s.threads[t]) && Held(hash, s.threads[t]) == b
  }

  /** No thread but t holds the lock of b. */
  ghost predicate FreeFor(s: State, hash: int -> nat, t: nat, b: nat) {
    forall u {:trigger HeldBy(s, hash, u, b)} | 0 <= u < |s.threads| && u != t :: !HeldBy(s, hash, u, b)
  }

  ghost predicate NoWriter(s: State, hash: int -> nat, b: nat) {
    forall u {:trigger HeldBy(s, hash, u, b)} | 0 <= u < |s.threads| && HeldBy(s, hash, u, b) :: !Writes(s.threads[u])
  }

  function Move(s: State, t: nat, ph: Phase): (s': State)
    requires t < |s.threads|
  {
    s.(threads := s.threads[t := ph])
  }

  function Removed(nodes: seq<Node>, key: int): (r: seq<Node>) {
    if nodes == [] then []
    else if nodes[0].key == key then nodes[1..]
    else [nodes[0]] + Removed(nodes[1..], key)
  }

  /**
   Acquire the bucket and search it.  Whoever takes it for writing waits for all others, a reader for
   the writers; an erasure that finds its key removes the node once it is alone.
   */
  ghost function SearchStep(s: State, hash: int -> nat, t: nat, write: bool): (r: (State, Event))
    requires t < |s.threads| && s.threads[t].Loaded?
  {
    var ph := s.threads[t];
    var b := At(hash(ph.key), ph.i);
    if !(b < |s.buckets| && Ready(s.buckets, s.busy, b)) then (s, Silent)
    else
      match Search(s.buckets[b].nodes, ph.key)
      case None =>
        var exclusive := write && !ph.op.Find?;
        if if exclusive then FreeFor(s, hash, |s.threads|, b) else NoWriter(s, hash, b) then
          (Move(s, t, Searched(ph.key, ph.op, ph.i, ph.i, exclusive, true)), Silent)
        else (s, Silent)
      case Some(n) =>
        if !ph.op.Erase? then
          if NoWriter(s, hash, b) then (Move(s, t, Idle), Hit(ph.key, n.value)) else (s, Silent)
        else if FreeFor(s, hash, |s.threads|, b) then (RemoveNode(s, t, b, ph.key), Drop(ph.key))
        else (s, Silent)
  }

  function RemoveNode(s: State, t: nat, b: nat, key: int): (s': State)
    requires t < |s.threads| && b < |s.buckets| && s.buckets[b].Chain?
  {
    var rest := Chain(Removed(s.buckets[b].nodes, key));
    Move(s.(buckets := s.buckets[b := rest], contents := s.contents - {key}), t, Idle)
  }

  /** The first bucket that splits the hash off under the newly loaded mask. */
  function Split(hash: int -> nat, ph: Phase, j: nat): (r: nat)
    requires ph.Searched? || ph.Checked?
  {
    SplitLevel(hash(ph.key), ph.m, ph.m + 1, j)
  }

  /** check_mask_race: without a bucket that splits the hash off, a miss is answered here. */
  function LoadStep(s: State, hash: int -> nat, t: nat): (r: (State, Event))
    requires t < |s.threads| && s.threads[t].Searched?
  {
    var ph := s.threads[t];
    if ph.op.Insert? && !ph.write then (s, Silent)
    else if ph.missed && !ph.op.Insert? && Split(hash, ph, s.level) == 0 then
      (Move(s, t, Answered(ph.key, ph.i, ph.write)), Miss(ph.key))
    else (Move(s, t, Checked(ph.key, ph.op, ph.i, ph.m, ph.write, ph.missed, s.level)), Silent)
  }

  /** The bucket that splits the hash off is rehashed or being rehashed. */
  predicate Race(s: State, hash: int -> nat, ph: Phase)
    requires ph.Checked?
  {
    var r := Split(hash, ph, ph.j);
    r != 0 && At(hash(ph.key), r) < |s.buckets| && s.buckets[At(hash(ph.key), r)] != RehashReq
  }

  /** check_rehashing_collision, the look at the bucket that splits the hash off, if there is one. */
  function CheckStep(s: State, hash: int -> nat, t: nat): (r: (State, Event))
    requires t < |s.threads| && s.threads[t].Checked?
  {
    var ph := s.threads[t];
    if Race(s, hash, ph) then (Move(s, t, Loaded(ph.key, ph.op, ph.j)), Silent)
    else match ph.op
      case Insert(value) => (Move(s, t, Confirmed(ph.key, value, ph.i)), Silent)
      case _ =>
        if ph.missed then (Move(s, t, Answered(ph.key, ph.i, ph.write)), Miss(ph.key))
        else (Move(s, t, Again(ph.key, ph.i, ph.j)), Silent)
  }

  /** An erasure that waited for its lock looks into the same bucket again. */
  function AgainStep(s: State, hash: int -> nat, t: nat): (r: (State, Event))
    requires t < |s.threads| && s.threads[t].Again?
  {
    var ph := s.threads[t];
    var b := At(hash(ph.key), ph.i);
    if !(b < |s.buckets| && s.buckets[b].Chain?) then (s, Silent)
    else if Search(s.buckets[b].nodes, ph.key).Some? then (RemoveNode(s, t, b, ph.key), Drop(ph.key))
    else (Move(s, t, Searched(ph.key, Erase, ph.i, ph.m, true, true)), Silent)
  }

  /** insert_new_node, still under the lock. */
  function AddStep(s: State, hash: int -> nat, t: nat): (r: (State, Event))
    requires t < |s.threads| && s.threads[t].Confirmed?
  {
    var ph := s.threads[t];
    var b := At(hash(ph.key), ph.i);
    if b < |s.buckets| && s.buckets[b].Chain? then
      (Move(s.(buckets := s.buckets[b := Chain([Node(ph.key, ph.value)] + s.buckets[b].nodes)],
               contents := s.contents[ph.key := ph.value]), t, Idle),
       Put(ph.key, ph.value))
    else (s, Silent)
  }

  /** The steps that only load the mask, or take or give up a lock. */
  ghost function LocalStep(s: State, hash: int -> nat, t: nat, choice: Choice): (s': State)
    requires t < |s.threads|
  {
    match (s.threads[t], choice)
    case (Idle, Begin(key, op)) => Move(s, t, Loaded(key, op, s.level))
    case (Loaded(key, op, i), Reload) => Move(s, t, Loaded(key, op, s.level))
    case (Loaded(key, Erase, i), Contend) =>
      var b := At(hash(key), i);
      if b < |s.buckets| && Ready(s.buckets, s.busy, b) && FreeFor(s, hash, |s.threads|, b) then
        Move(s, t, Searched(key, Erase, i, i, true, false))
      else s
    case (Searched(key, Insert(value), i, m, false, true), Contend) => Move(s, t, Loaded(key, Insert(value), i))
    case (Searched(key, Insert(value), i, m, false, true), Upgrade) =>
      if FreeFor(s, hash, t, At(hash(key), i)) then Move(s, t, Searched(key, Insert(value), i, m, true, true)) else s
    case (Answered(_, _, _), Proceed(_)) => Move(s, t, Idle)
    case _ => s
  }

  /**
   rehash_bucket needs the parent for itself only once it meets a node to move; with nothing to move it
   shares the parent with readers.
   */
  ghost predicate MayFill(s: State, hash: int -> nat, b: nat) {
    && b in s.busy && 2 <= b < |s.buckets| && Ready(s.buckets, s.busy, Parent(b))
    && (|| FreeFor(s, hash, |s.threads|, Parent(b))
        || (NoWriter(s, hash, Parent(b)) && Moved(hash, b, s.buckets[Parent(b)].nodes) == []))
  }

  /** The steps that change the table and not what it stands for. */
  ghost function TableStep(s: State, hash: int -> nat, choice: Choice): (s': State) {
    match choice
    case Mark(b) =>
      if 2 <= b < |s.buckets| && s.buckets[b].RehashReq? then
        s.(buckets := s.buckets[b := Chain([])], busy := s.busy + {b})
      else s
    case Fill(b) =>
      if MayFill(s, hash, b) then s.(buckets := Filled(s.buckets, hash, b), busy := s.busy - {b}) else s
    case Grow(newLevel) =>
      if s.level < newLevel && |s.buckets| <= Pow2(newLevel) then
        s.(buckets := Enlarged(s.buckets, newLevel), level := newLevel)
      else s
    case _ => s
  }

  predicate OfTable(choice: Choice) {
    choice.Mark? || choice.Fill? || choice.Grow?
  }

  ghost function Step(s: State, hash: int -> nat, t: nat, choice: Choice): (r: (State, Event))
    requires t < |s.threads|
  {
    if OfTable(choice) then (TableStep(s, hash, choice), Silent)
    else if !choice.Proceed? then (LocalStep(s, hash, t, choice), Silent)
    else match s.threads[t]
      case Loaded(_, _, _) => SearchStep(s, hash, t, choice.write)
      case Searched(_, _, _, _, _, _) => LoadStep(s, hash, t)
      case Checked(_, _, _, _, _, _, _) => CheckStep(s, hash, t)
      case Again(_, _, _) => AgainStep(s, hash, t)
      case Confirmed(_, _, _) => AddStep(s, hash, t)
      case _ => (LocalStep(s, hash, t, choice), Silent)
  }

  // ---------- the invariant ----------

  predicate Missing(nodes: seq<Node>, key: int) {
    Search(nodes, key).None?
  }

  /** The key's nodes, if any, are in the bucket that the thread holds. */
  ghost predicate AtHome(s: State, hash: int -> nat, ph: Phase)
    requires Locks(ph) && Closed(Ok(s.buckets, s.busy), s.level)
  {
    Home(Ok(s.buckets, s.busy), hash(ph.key), s.level) == Held(hash, ph)
  }

  /** Under a writer's lock, no bucket that splits off the hash can get its nodes meanwhile. */
  ghost predicate WriterOk(s: State, hash: int -> nat, ph: Phase)
    requires Locks(ph) && Closed(Ok(s.buckets, s.busy), s.level)
  {
    match ph
    case Searched(_, op, i, m, write, missed) => i < m || !missed ==> write && (i < m ==> AtHome(s, hash, ph))
    case Checked(_, op, i, m, write, missed, j) =>
      && (i < m || !missed || op.Insert? ==> write)
      && (i < m || Split(hash, ph, j) == 0 ==> write && AtHome(s, hash, ph))
    case Again(_, i, m) => AtHome(s, hash, ph)
    case Confirmed(_, _, _) => AtHome(s, hash, ph)
    case _ => true
  }

  predicate MasksOk(ph: Phase, level: nat) {
    && (!ph.Idle? ==> 1 <= ph.i <= level)
    && (ph.Searched? || ph.Checked? || ph.Again? ==> ph.i <= ph.m <= level)
    && ((ph.Searched? || ph.Checked?) && ph.i < ph.m ==> ph.op.Erase?)
    && ((ph.Searched? || ph.Checked?) && !ph.missed ==> ph.op.Erase?)
    && (ph.Checked? ==> ph.m <= ph.j <= level)
  }

  predicate KnowsMissing(ph: Phase) {
    ph.Confirmed? || ((ph.Searched? || ph.Checked?) && ph.missed)
  }

  ghost predicate PhaseOk(s: State, hash: int -> nat, t: nat)
    requires t < |s.threads| && Closed(Ok(s.buckets, s.busy), s.level)
  {
    var ph := s.threads[t];
    && MasksOk(ph, s.level)
    && (Locks(ph) ==>
          var b := Held(hash, ph);
          && b < |s.buckets| && Ready(s.buckets, s.busy, b)
          && (KnowsMissing(ph) ==> Missing(s.buckets[b].nodes, ph.key))
          && WriterOk(s, hash, ph))
  }

  /** With t in phase ph, t shares the lock it holds with readers only, and as a reader. */
  ghost predicate Compatible(s: State, hash: int -> nat, t: nat, ph: Phase) {
    Locks(ph) ==>
      forall u {:trigger HeldBy(s, hash, u, Held(hash, ph))} |
        0 <= u < |s.threads| && u != t && HeldBy(s, hash, u, Held(hash, ph)) ::
        !Writes(ph) && !Writes(s.threads[u])
  }

  ghost predicate Exclusive(s: State, hash: int -> nat) {
    forall t {:trigger Compatible(s, hash, t, s.threads[t])} | 0 <= t < |s.threads| ::
      Compatible(s, hash, t, s.threads[t])
  }

  ghost predicate Inv(s: State, hash: int -> nat) {
    && Holds(s.buckets, s.busy, s.level, hash, s.contents)
    && (forall t {:trigger PhaseOk(s, hash, t)} | 0 <= t < |s.threads| :: PhaseOk(s, hash, t))
    && Exclusive(s, hash)
  }

  // ---------- every step keeps it, and does what its event says ----------

  lemma Undisturbed(s: State, s': State, hash: int -> nat, u: nat)
    requires Holds(s.buckets, s.busy, s.level, hash, s.contents) && Closed(Ok(s'.buckets, s'.busy), s'.level)
    requires u < |s.threads| && u < |s'.threads| && s'.threads[u] == s.threads[u] && PhaseOk(s, hash, u)
    requires s.level <= s'.level
    requires Locks(s.threads[u]) ==>
               var b, key := Held(hash, s.threads[u]), s.threads[u].key;
               && b < |s'.buckets| && Ready(s'.buckets, s'.busy, b)
               && (Missing(s.buckets[b].nodes, key) ==> Missing(s'.buckets[b].nodes, key))
               && (Writes(s.threads[u]) && AtHome(s, hash, s.threads[u]) ==> AtHome(s', hash, s.threads[u]))
    ensures PhaseOk(s', hash, u)
  {
  }

  /** What a search missed and no split bucket can have, the map does not hold. */
  lemma MissIsFinal(s: State, hash: int -> nat, key: int, b: nat)
    requires Holds(s.buckets, s.busy, s.level, hash, s.contents)
    requires b == Home(Ok(s.buckets, s.busy), hash(key), s.level)
    requires b < |s.buckets| && s.buckets[b].Chain? && Missing(s.buckets[b].nodes, key)
    ensures key !in s.contents
  {
    assert key in s.contents ==> KeyOk(s.buckets, Ok(s.buckets, s.busy), s.level, hash, s.contents, key);
  }

  /** If the bucket that splits the hash off is not rehashed, the hash still belongs to the old bucket. */
  lemma HomeIfNoSplit(ok: seq<bool>, level: nat, c: nat, i: nat, j: nat)
    requires Closed(ok, level) && 1 <= i <= j <= level && Pow2(i) <= |ok| && ok[At(c, i)]
    requires var r := SplitLevel(c, i, i + 1, j);
             if r == 0 then Home(ok, c, level) == At(c, i) else Pow2(r) <= |ok| && !ok[At(c, r)]
    ensures Home(ok, c, level) == At(c, i)
  {
    var r := SplitLevel(c, i, i + 1, j);
    if r != 0 {
      SplitIs(c, i, i + 1, r, level);
      MovedThroughSplit(ok, level, c, i);
    }
  }

  /** The check says no race: the hash's nodes are all in the bucket that was searched. */
  lemma CheckedHome(s: State, hash: int -> nat, t: nat)
    requires Holds(s.buckets, s.busy, s.level, hash, s.contents)
    requires t < |s.threads| && s.threads[t].Checked? && PhaseOk(s, hash, t) && !Race(s, hash, s.threads[t])
    ensures AtHome(s, hash, s.threads[t])
  {
    var ph := s.threads[t];
    var r := Split(hash, ph, ph.j);
    if ph.i == ph.m && r != 0 {
      Pow2Grows(ph.i, s.level);
      Pow2Grows(r, s.level);
      HomeIfNoSplit(Ok(s.buckets, s.busy), s.level, hash(ph.key), ph.i, ph.j);
    }
  }

  /** The mask just loaded splits nothing off: again, the hash's nodes are all in the bucket that was searched. */
  lemma LoadedHome(s: State, hash: int -> nat, t: nat)
    requires Holds(s.buckets, s.busy, s.level, hash, s.contents)
    requires t < |s.threads| && s.threads[t].Searched? && PhaseOk(s, hash, t) && Split(hash, s.threads[t], s.level) == 0
    ensures AtHome(s, hash, s.threads[t])
  {
    var ph := s.threads[t];
    if ph.i == ph.m {
      Pow2Grows(ph.i, s.level);
      MovedThroughSplit(Ok(s.buckets, s.busy), s.level, hash(ph.key), ph.i);
    }
  }

  lemma ExclusiveKept(s: State, s': State, hash: int -> nat, t: nat)
    requires Exclusive(s, hash) && t < |s.threads| == |s'.threads|
    requires s'.threads == s.threads[t := s'.threads[t]] && Compatible(s, hash, t, s'.threads[t])
    ensures Exclusive(s', hash)
  {
    forall u | 0 <= u < |s.threads| ensures Compatible(s', hash, u, s'.threads[u]) {
      assert Compatible(s, hash, u, s.threads[u]);
      if Locks(s'.threads[u]) {
        var b := Held(hash, s'.threads[u]);
        forall v | 0 <= v < |s.threads| && v != u && HeldBy(s', hash, v, b)
          ensures !Writes(s'.threads[u]) && !Writes(s'.threads[v])
        {
          assert v != t ==> HeldBy(s, hash, v, b);
          assert u != t ==> HeldBy(s, hash, u, b);
        }
      }
    }
  }

  lemma StillCompatible(s: State, hash: int -> nat, t: nat, ph: Phase)
    requires Exclusive(s, hash) && t < |s.threads|
    requires Locks(ph) ==>
               && Locks(s.threads[t]) && Held(hash, ph) == Held(hash, s.threads[t])
               && (Writes(ph) ==> Writes(s.threads[t]) || FreeFor(s, hash, t, Held(hash, ph)))
    ensures Compatible(s, hash, t, ph)
  {
    assert Compatible(s, hash, t, s.threads[t]);
  }

  lemma MoveKeepsInv(s: State, hash: int -> nat, t: nat, ph: Phase)
    requires Inv(s, hash) && t < |s.threads| && Compatible(s, hash, t, ph) && PhaseOk(Move(s, t, ph), hash, t)
    ensures Inv(Move(s, t, ph), hash)
  {
    var s' := Move(s, t, ph);
    ExclusiveKept(s, s', hash, t);
    forall u | 0 <= u < |s.threads| ensures PhaseOk(s', hash, u) {
      assert PhaseOk(s, hash, u);
    }
  }

  lemma LocalPhase(s: State, hash: int -> nat, t: nat, choice: Choice)
    requires Inv(s, hash) && t < |s.threads|
    ensures (var s' := LocalStep(s, hash, t, choice);
             s' == Move(s, t, s'.threads[t]) && PhaseOk(s', hash, t))
  {
    assert PhaseOk(s, hash, t);
  }

  lemma LocalLock(s: State, hash: int -> nat, t: nat, choice: Choice)
    requires Inv(s, hash) && t < |s.threads|
    ensures Compatible(s, hash, t, LocalStep(s, hash, t, choice).threads[t])
  {
    var ph' := LocalStep(s, hash, t, choice).threads[t];
    if Locks(s.threads[t]) || !Locks(ph') {
      StillCompatible(s, hash, t, ph');
    }
  }

  lemma LocalKeepsInv(s: State, hash: int -> nat, t: nat, choice: Choice)
    requires Inv(s, hash) && t < |s.threads|
    ensures Inv(LocalStep(s, hash, t, choice), hash) && LocalStep(s, hash, t, choice).contents == s.contents
  {
    LocalPhase(s, hash, t, choice);
    LocalLock(s, hash, t, choice);
    MoveKeepsInv(s, hash, t, LocalStep(s, hash, t, choice).threads[t]);
  }

  lemma LoadPhase(s: State, hash: int -> nat, t: nat)
    requires Inv(s, hash) && t < |s.threads| && s.threads[t].Searched?
    ensures (var s' := LoadStep(s, hash, t).0; s' == Move(s, t, s'.threads[t]) && PhaseOk(s', hash, t))
  {
    assert PhaseOk(s, hash, t);
    if Split(hash, s.threads[t], s.level) == 0 {
      LoadedHome(s, hash, t);
    }
  }

  lemma LoadAnswers(s: State, hash: int -> nat, t: nat)
    requires Inv(s, hash) && t < |s.threads| && s.threads[t].Searched?
    ensures (var (s', e) := LoadStep(s, hash, t);
             && s'.contents == s.contents
             && (e == Silent || (e == Miss(s.threads[t].key) && e.key !in s.contents)))
  {
    var ph := s.threads[t];
    assert PhaseOk(s, hash, t);
    if LoadStep(s, hash, t).1.Miss? {
      LoadedHome(s, hash, t);
      MissIsFinal(s, hash, ph.key, Held(hash, ph));
    }
  }

  lemma LoadKeepsInv(s: State, hash: int -> nat, t: nat)
    requires Inv(s, hash) && t < |s.threads| && s.threads[t].Searched?
    ensures (var (s', e) := LoadStep(s, hash, t); Inv(s', hash) && Legal(s.contents, s'.contents, e))
  {
    LoadAnswers(s, hash, t);
    LoadPhase(s, hash, t);
    StillCompatible(s, hash, t, LoadStep(s, hash, t).0.threads[t]);
    MoveKeepsInv(s, hash, t, LoadStep(s, hash, t).0.threads[t]);
  }

  lemma CheckAnswers(s: State, hash: int -> nat, t: nat)
    requires Inv(s, hash) && t < |s.threads| && s.threads[t].Checked?
    ensures (var (s', e) := CheckStep(s, hash, t);
             && s'.contents == s.contents
             && (e == Silent || (e == Miss(s.threads[t].key) && e.key !in s.contents)))
  {
    var ph := s.threads[t];
    assert PhaseOk(s, hash, t);
    if CheckStep(s, hash, t).1.Miss? {
      CheckedHome(s, hash, t);
      MissIsFinal(s, hash, ph.key, Held(hash, ph));
    }
  }

  lemma CheckPhase(s: State, hash: int -> nat, t: nat)
    requires Inv(s, hash) && t < |s.threads| && s.threads[t].Checked?
    ensures (var s' := CheckStep(s, hash, t).0; s' == Move(s, t, s'.threads[t]) && PhaseOk(s', hash, t))
  {
    assert PhaseOk(s, hash, t);
    if !Race(s, hash, s.threads[t]) {
      CheckedHome(s, hash, t);
    }
  }

  lemma CheckKeepsInv(s: State, hash: int -> nat, t: nat)
    requires Inv(s, hash) && t < |s.threads| && s.threads[t].Checked?
    ensures (var (s', e) := CheckStep(s, hash, t); Inv(s', hash) && Legal(s.contents, s'.contents, e))
  {
    CheckAnswers(s, hash, t);
    CheckPhase(s, hash, t);
    assert PhaseOk(s, hash, t);
    StillCompatible(s, hash, t, CheckStep(s, hash, t).0.threads[t]);
    MoveKeepsInv(s, hash, t, CheckStep(s, hash, t).0.threads[t]);
  }

  lemma {:induction false} RemovedAt(nodes: seq<Node>, key: int) returns (i: nat)
    requires Search(nodes, key).Some?
    ensures i < |nodes| && nodes[i].key == key && Removed(nodes, key) == nodes[..i] + nodes[i + 1..]
  {
    if nodes[0].key == key {
      i := 0;
    } else {
      var j := RemovedAt(nodes[1..], key);
      i := j + 1;
      assert nodes[..i] == [nodes[0]] + nodes[1..][..j];
    }
  }

  /** Under the lock of one bucket only that bucket changes. */
  lemma OthersKept(s: State, s': State, hash: int -> nat, t: nat, b: nat)
    requires Inv(s, hash) && t < |s.threads| && b < |s.buckets| && FreeFor(s, hash, t, b)
    requires s'.threads == s.threads[t := Idle] && s'.level == s.level && s'.busy == s.busy
    requires |s'.buckets| == |s.buckets| && s'.buckets == s.buckets[b := s'.buckets[b]]
    requires s.buckets[b].Chain? && s'.buckets[b].Chain?
    requires Holds(s'.buckets, s'.busy, s'.level, hash, s'.contents)
    ensures Inv(s', hash)
  {
    assert Ok(s'.buckets, s'.busy) == Ok(s.buckets, s.busy);
    ExclusiveKept(s, s', hash, t);
    forall u | 0 <= u < |s.threads| ensures PhaseOk(s', hash, u) {
      assert PhaseOk(s, hash, u);
      if u != t {
        assert !HeldBy(s, hash, u, b);
        Undisturbed(s, s', hash, u);
      }
    }
  }

  /** Whoever is alone at a bucket removes its key's node there. */
  lemma RemoveKeepsInv(s: State, hash: int -> nat, t: nat, b: nat, key: int)
    requires Inv(s, hash) && t < |s.threads| && b < |s.buckets| && s.buckets[b].Chain? && FreeFor(s, hash, t, b)
    requires Search(s.buckets[b].nodes, key).Some?
    ensures Inv(RemoveNode(s, t, b, key), hash) && key in s.contents
  {
    var i := RemovedAt(s.buckets[b].nodes, key);
    RemoveHolds(s.buckets, s.busy, s.level, hash, s.contents, b, i);
    OthersKept(s, RemoveNode(s, t, b, key), hash, t, b);
  }

  lemma AgainKeepsInv(s: State, hash: int -> nat, t: nat)
    requires Inv(s, hash) && t < |s.threads| && s.threads[t].Again?
    ensures (var (s', e) := AgainStep(s, hash, t); Inv(s', hash) && Legal(s.contents, s'.contents, e))
  {
    var (s', e) := AgainStep(s, hash, t);
    var ph := s.threads[t];
    assert PhaseOk(s, hash, t) && Compatible(s, hash, t, ph);
    if e.Drop? {
      RemoveKeepsInv(s, hash, t, Held(hash, ph), ph.key);
    } else {
      StillCompatible(s, hash, t, s'.threads[t]);
      MoveKeepsInv(s, hash, t, s'.threads[t]);
    }
  }

  lemma SearchKeepsInv(s: State, hash: int -> nat, t: nat, write: bool)
    requires Inv(s, hash) && t < |s.threads| && s.threads[t].Loaded?
    ensures (var (s', e) := SearchStep(s, hash, t, write); Inv(s', hash) && Legal(s.contents, s'.contents, e))
  {
    var (s', e) := SearchStep(s, hash, t, write);
    var ph := s.threads[t];
    assert PhaseOk(s, hash, t);
    var b := At(hash(ph.key), ph.i);
    if s' != s {
      Pow2Grows(ph.i, s.level);
      SearchIsLookup(s.buckets, s.busy, s.level, hash, s.contents, ph.key, ph.i);
      if e.Drop? {
        RemoveKeepsInv(s, hash, t, b, ph.key);
      } else {
        SearchLock(s, hash, t, write);
        MoveKeepsInv(s, hash, t, s'.threads[t]);
      }
    }
  }

  lemma SearchLock(s: State, hash: int -> nat, t: nat, write: bool)
    requires Inv(s, hash) && t < |s.threads| && s.threads[t].Loaded?
    ensures (var (s', e) := SearchStep(s, hash, t, write);
             s' != s && !e.Drop? ==> Compatible(s, hash, t, s'.threads[t]))
  {
  }

  ghost predicate Legal(before: map<int, int>, after: map<int, int>, e: Event) {
    match e
    case Silent => after == before
    case Hit(key, value) => after == before && key in before && before[key] == value
    case Miss(key) => after == before && key !in before
    case Put(key, value) => after == before[key := value] && key !in before
    case Drop(key) => after == before - {key} && key in before
  }

  lemma AddKeepsInv(s: State, hash: int -> nat, t: nat)
    requires Inv(s, hash) && t < |s.threads| && s.threads[t].Confirmed?
    ensures (var (s', e) := AddStep(s, hash, t); Inv(s', hash) && Legal(s.contents, s'.contents, e))
  {
    var (s', e) := AddStep(s, hash, t);
    var ph := s.threads[t];
    var b := Held(hash, ph);
    assert PhaseOk(s, hash, t) && Compatible(s, hash, t, ph);
    MissIsFinal(s, hash, ph.key, b);
    AddHolds(s.buckets, s.busy, s.level, hash, s.contents, b, Node(ph.key, ph.value));
    OthersKept(s, s', hash, t, b);
  }

  lemma MarkKeepsInv(s: State, hash: int -> nat, b: nat)
    requires Inv(s, hash)
    ensures Inv(TableStep(s, hash, Mark(b)), hash)
  {
    var s' := TableStep(s, hash, Mark(b));
    if s' != s {
      MarkHolds(s.buckets, s.busy, s.level, hash, s.contents, b);
      SameThreads(s, s', hash);
      forall u | 0 <= u < |s.threads| ensures PhaseOk(s', hash, u) {
        assert PhaseOk(s, hash, u);
        Undisturbed(s, s', hash, u);
      }
    }
  }

  lemma SameThreads(s: State, s': State, hash: int -> nat)
    requires Exclusive(s, hash) && s'.threads == s.threads
    ensures Exclusive(s', hash)
  {
    if |s.threads| > 0 {
      assert s.threads[0 := s.threads[0]] == s.threads;
      assert Compatible(s, hash, 0, s.threads[0]);
      ExclusiveKept(s, s', hash, 0);
    }
  }

  /** A reader of the parent misses its key there afterwards as before; a writer's key has not moved. */
  lemma FillUndisturbed(s: State, hash: int -> nat, b: nat, u: nat)
    requires Inv(s, hash) && MayFill(s, hash, b) && u < |s.threads|
    requires (var s' := TableStep(s, hash, Fill(b)); Closed(Ok(s'.buckets, s'.busy), s'.level))
    ensures PhaseOk(TableStep(s, hash, Fill(b)), hash, u)
  {
    var s', ph := TableStep(s, hash, Fill(b)), s.threads[u];
    var ok := Ok(s.buckets, s.busy);
    assert Ok(s'.buckets, s'.busy) == ok[b := true];
    assert PhaseOk(s, hash, u);
    if Locks(ph) {
      RehashMovesHomes(ok, s.level, b, hash(ph.key));
      assert HeldBy(s, hash, u, Parent(b)) ==> !Writes(ph);
      assert Held(hash, ph) != b;
    }
    Undisturbed(s, s', hash, u);
  }

  lemma FillKeepsInv(s: State, hash: int -> nat, b: nat)
    requires Inv(s, hash)
    ensures Inv(TableStep(s, hash, Fill(b)), hash)
  {
    var s' := TableStep(s, hash, Fill(b));
    if s' != s {
      FillHolds(s.buckets, s.busy, s.level, hash, s.contents, b);
      SameThreads(s, s', hash);
      forall u | 0 <= u < |s.threads| ensures PhaseOk(s', hash, u) {
        FillUndisturbed(s, hash, b, u);
      }
    }
  }

  lemma GrowKeepsInv(s: State, hash: int -> nat, newLevel: nat)
    requires Inv(s, hash)
    ensures Inv(TableStep(s, hash, Grow(newLevel)), hash)
  {
    var s' := TableStep(s, hash, Grow(newLevel));
    if s' != s {
      GrowHolds(s.buckets, s.busy, s.level, newLevel, hash, s.contents);
      SameThreads(s, s', hash);
      assert Ok(s'.buckets, s'.busy) == Grown(Ok(s.buckets, s.busy), newLevel);
      forall u | 0 <= u < |s.threads| ensures PhaseOk(s', hash, u) {
        assert PhaseOk(s, hash, u);
        if Locks(s.threads[u]) {
          GrowKeepsHomes(Ok(s.buckets, s.busy), s.level, newLevel, hash(s.threads[u].key));
        }
        Undisturbed(s, s', hash, u);
      }
    }
  }

  lemma ProceedSound(s: State, hash: int -> nat, t: nat, write: bool)
    requires Inv(s, hash) && t < |s.threads|
    ensures (var (s', e) := Step(s, hash, t, Proceed(write));
             Inv(s', hash) && |s'.threads| == |s.threads| && Legal(s.contents, s'.contents, e))
  {
    var ph := s.threads[t];
    if ph.Loaded? {
      SearchKeepsInv(s, hash, t, write);
    } else if ph.Searched? {
      LoadKeepsInv(s, hash, t);
    } else if ph.Again? {
      AgainKeepsInv(s, hash, t);
    } else if ph.Checked? {
      CheckKeepsInv(s, hash, t);
    } else if ph.Confirmed? {
      AddKeepsInv(s, hash, t);
    } else {
      LocalKeepsInv(s, hash, t, Proceed(write));
    }
  }

  /** Every step keeps the invariant, and its event is what the same call does to a plain map at that moment. */
  lemma StepSound(s: State, hash: int -> nat, t: nat, choice: Choice)
    requires Inv(s, hash) && t < |s.threads|
    ensures (var (s', e) := Step(s, hash, t, choice);
             Inv(s', hash) && |s'.threads| == |s.threads| && Legal(s.contents, s'.contents, e))
  {
    match choice
    case Mark(b) => MarkKeepsInv(s, hash, b);
    case Fill(b) => FillKeepsInv(s, hash, b);
    case Grow(newLevel) => GrowKeepsInv(s, hash, newLevel);
    case Proceed(write) =>
      ProceedSound(s, hash, t, write);
    case _ => LocalKeepsInv(s, hash, t, choice);
  }

  // ---------- every run ----------

  datatype History = Begun(start: State) | Then(past: History, thread: nat, choice: Choice)

  /** No call is running. */
  ghost predicate Settled(s: State, hash: int -> nat) {
    Inv(s, hash) && s.busy == {} && forall t | 0 <= t < |s.threads| :: s.threads[t].Idle?
  }

  /** A new map, made for any number of buckets: they are empty and need no rehashing. */
  predicate New(s: State) {
    && s.level >= 1 && s.buckets == seq(Pow2(s.level), _ => Chain([])) && s.busy == {} && s.contents == map[]
    && forall t | 0 <= t < |s.threads| :: s.threads[t].Idle?
  }

  function Threads(h: History): (n: nat) {
    match h
    case Begun(s0) => |s0.threads|
    case Then(past, _, _) => Threads(past)
  }

  function First(h: History): (s0: State) {
    match h
    case Begun(s0) => s0
    case Then(past, _, _) => First(past)
  }

  /** Runs begin with a map that is new, or was used before. */
  ghost predicate Begins(h: History, hash: int -> nat) {
    match h
    case Begun(s0) => Settled(s0, hash)
    case Then(past, t, _) => Begins(past, hash) && t < Threads(past)
  }

  ghost function After(h: History, hash: int -> nat): (s: State)
    requires Begins(h, hash)
    ensures Inv(s, hash) && |s.threads| == Threads(h)
  {
    match h
    case Begun(s0) => s0
    case Then(past, t, choice) =>
      StepSound(After(past, hash), hash, t, choice);
      Step(After(past, hash), hash, t, choice).0
  }

  lemma NewIsSettled(s: State, hash: int -> nat)
    requires New(s)
    ensures Settled(s, hash)
  {
    Pow2Grows(1, s.level);
    var ok := Ok(s.buckets, s.busy);
    assert Closed(ok, s.level);
    assert forall t | 0 <= t < |s.threads| :: PhaseOk(s, hash, t);
    assert forall t | 0 <= t < |s.threads| :: Compatible(s, hash, t, s.threads[t]);
  }

  /** What happened to the calls: thread `thread` begins one, or the one it is in takes effect. */
  datatype Log =
    | Empty
    | Call(before: Log, thread: nat, key: int, op: Op)
    | Effect(before: Log, thread: nat, event: Event)

  function Logged(log: Log, t: nat, ph: Phase, choice: Choice, e: Event): (log': Log) {
    if ph.Idle? && choice.Begin? then Call(log, t, choice.key, choice.op)
    else if e == Silent then log
    else Effect(log, t, e)
  }

  ghost function Events(h: History, hash: int -> nat): (log: Log)
    requires Begins(h, hash)
  {
    match h
    case Begun(_) => Empty
    case Then(past, t, choice) =>
      var s := After(past, hash);
      Logged(Events(past, hash), t, s.threads[t], choice, Step(s, hash, t, choice).1)
  }

  /** A plain map that takes the events one after the other; None as soon as one would answer otherwise. */
  function Replay(log: Log, start: map<int, int>): (r: Option<map<int, int>>) {
    match log
    case Empty => Some(start)
    case Call(before, _, _, _) => Replay(before, start)
    case Effect(before, _, e) =>
      match Replay(before, start)
      case None => None
      case Some(m) =>
        match e
        case Silent => Some(m)
        case Hit(key, value) => if key in m && m[key] == value then Some(m) else None
        case Miss(key) => if key !in m then Some(m) else None
        case Put(key, value) => if key !in m then Some(m[key := value]) else None
        case Drop(key) => if key in m then Some(m - {key}) else None
  }

  /** Every run linearizes: its answers are those of a plain map to which the calls come one by one. */
  lemma {:induction false} RunLinearizes(h: History, hash: int -> nat)
    requires Begins(h, hash)
    ensures Replay(Events(h, hash), First(h).contents) == Some(After(h, hash).contents)
  {
    match h
    case Begun(_) =>
    case Then(past, t, choice) =>
      RunLinearizes(past, hash);
      StepSound(After(past, hash), hash, t, choice);
  }

  // ---------- each call takes effect once ----------

  /** The entries of thread t. */
  function Own(log: Log, t: nat): (own: Log) {
    match log
    case Empty => Empty
    case Call(before, u, key, op) => if u == t then Call(Own(before, t), u, key, op) else Own(before, t)
    case Effect(before, u, e) => if u == t then Effect(Own(before, t), u, e) else Own(before, t)
  }

  /** The answers that a call can have. */
  predicate Answers(key: int, op: Op, e: Event) {
    match op
    case Find => e == Miss(key) || (e.Hit? && e.key == key)
    case Insert(value) => e == Put(key, value) || (e.Hit? && e.key == key)
    case Erase => e == Miss(key) || e == Drop(key)
  }

  /** Calls and their effects take turns, and each effect answers the call before it. */
  predicate TakeTurns(own: Log) {
    match own
    case Empty => true
    case Call(before, _, _, _) => !before.Call? && TakeTurns(before)
    case Effect(before, _, e) => before.Call? && Answers(before.key, before.op, e) && TakeTurns(before)
  }

  /** The call has not taken effect yet. */
  predicate Pending(ph: Phase) {
    !ph.Idle? && !ph.Answered?
  }

  function OpOf(ph: Phase): (op: Op)
    requires Pending(ph)
  {
    if ph.Again? then Erase
    else if ph.Confirmed? then Insert(ph.value)
    else ph.op
  }

  /** The last entry of a thread in phase ph. */
  predicate Stands(own: Log, ph: Phase) {
    && (Pending(ph) ==> own.Call? && own.key == ph.key && own.op == OpOf(ph))
    && (!Pending(ph) ==> !own.Call?)
    && (ph.Answered? ==> own.Effect? && own.event == Miss(ph.key))
  }

  lemma LocalStands(s: State, hash: int -> nat, t: nat, choice: Choice, own: Log)
    requires t < |s.threads| && Stands(own, s.threads[t]) && !OfTable(choice) && !choice.Proceed?
    ensures Stands(Logged(own, t, s.threads[t], choice, Silent), LocalStep(s, hash, t, choice).threads[t])
  {
  }

  lemma SearchStands(s: State, hash: int -> nat, t: nat, write: bool, own: Log)
    requires t < |s.threads| && Stands(own, s.threads[t]) && s.threads[t].Loaded?
    ensures (var (s', e) := SearchStep(s, hash, t, write);
             && Stands(Logged(own, t, s.threads[t], Proceed(write), e), s'.threads[t])
             && (e != Silent ==> Answers(own.key, own.op, e)))
  {
  }

  lemma ProceedStands(s: State, hash: int -> nat, t: nat, write: bool, own: Log)
    requires t < |s.threads| && Stands(own, s.threads[t]) && MasksOk(s.threads[t], s.level)
    ensures (var (s', e) := Step(s, hash, t, Proceed(write));
             && Stands(Logged(own, t, s.threads[t], Proceed(write), e), s'.threads[t])
             && (e != Silent ==> own.Call? && Answers(own.key, own.op, e)))
  {
    if s.threads[t].Loaded? {
      SearchStands(s, hash, t, write, own);
    }
  }

  lemma OwnStep(s: State, hash: int -> nat, t: nat, choice: Choice, own: Log)
    requires t < |s.threads| && Stands(own, s.threads[t]) && TakeTurns(own) && MasksOk(s.threads[t], s.level)
    requires !OfTable(choice)
    ensures (var (s', e) := Step(s, hash, t, choice);
             var own' := Logged(own, t, s.threads[t], choice, e);
             Stands(own', s'.threads[t]) && TakeTurns(own'))
  {
    if choice.Proceed? {
      ProceedStands(s, hash, t, choice.write, own);
    } else {
      LocalStands(s, hash, t, choice, own);
    }
  }

  /** Other threads and the table do not touch t's phase. */
  lemma PhaseStays(s: State, hash: int -> nat, t: nat, u: nat, choice: Choice)
    requires t < |s.threads| && u < |s.threads| && (u != t || OfTable(choice))
    ensures (var s' := Step(s, hash, u, choice).0; t < |s'.threads| && s'.threads[t] == s.threads[t])
  {
    if choice.Proceed? {
      ProceedStaysMarked(s, hash, u, choice.write);
    }
  }

  /**
   Each call of a thread has one event, of its own key and kind, between its start and its return; only
   a call that is still on its way has none yet.
   */
  lemma {:induction false} EachCallOnce(h: History, hash: int -> nat, t: nat)
    requires Begins(h, hash) && t < Threads(h)
    ensures TakeTurns(Own(Events(h, hash), t)) && Stands(Own(Events(h, hash), t), After(h, hash).threads[t])
  {
    match h
    case Begun(_) =>
    case Then(past, u, choice) =>
      EachCallOnce(past, hash, t);
      var s := After(past, hash);
      if u != t || OfTable(choice) {
        PhaseStays(s, hash, t, u, choice);
      } else {
        assert PhaseOk(s, hash, t);
        OwnStep(s, hash, t, choice, Own(Events(past, hash), t));
      }
  }

  /** No one keeps the call from its bucket: others may read it with a reader, and no one may be there with a writer. */
  ghost predicate Admits(s: State, hash: int -> nat, ph: Phase, write: bool)
    requires ph.Loaded? && At(hash(ph.key), ph.i) < |s.buckets|
    requires Ready(s.buckets, s.busy, At(hash(ph.key), ph.i))
  {
    var b := At(hash(ph.key), ph.i);
    var alone := if Search(s.buckets[b].nodes, ph.key).None? then write && !ph.op.Find? else ph.op.Erase?;
    if alone then FreeFor(s, hash, |s.threads|, b) else NoWriter(s, hash, b)
  }

  /**
   A call that has its bucket can always take its next step; an insertion that only reads may have to
   give its bucket back for that.  One that has not waits for the rehashing of the bucket, or for others
   that hold it.
   */
  lemma CallsGoOn(h: History, hash: int -> nat, t: nat, write: bool)
    requires Begins(h, hash) && t < Threads(h)
    ensures (var s := After(h, hash);
             var ph, moved := s.threads[t], Step(s, hash, t, Proceed(write)).0.threads[t] != s.threads[t];
             match ph
             case Idle => true
             case Loaded(key, op, i) =>
               var b := At(hash(key), i);
               && b < |s.buckets|
               && (Ready(s.buckets, s.busy, b) ==> (moved <==> Admits(s, hash, ph, write)))
               && (!Ready(s.buckets, s.busy, b) ==> s.buckets[b] == RehashReq || b in s.busy)
             case Searched(_, op, _, _, writes, _) =>
               && (moved <==> !op.Insert? || writes)
               && (op.Insert? && !writes ==> Step(s, hash, t, Contend).0.threads[t] != ph)
             case _ => moved)
  {
    var s := After(h, hash);
    assert PhaseOk(s, hash, t);
    var ph := s.threads[t];
    if ph.Loaded? {
      Pow2Grows(ph.i, s.level);
      LoadedGoesOn(s, hash, t, write);
    } else if ph.Again? {
      assert s.buckets[Held(hash, ph)].Chain?;
    }
  }

  lemma LoadedGoesOn(s: State, hash: int -> nat, t: nat, write: bool)
    requires t < |s.threads| && s.threads[t].Loaded?
    ensures (var ph := s.threads[t];
             var b := At(hash(ph.key), ph.i);
             b < |s.buckets| && Ready(s.buckets, s.busy, b) ==>
               (SearchStep(s, hash, t, write).0.threads[t] != ph <==> Admits(s, hash, ph, write)))
  {
  }

  predicate Extends(later: History, h: History) {
    later == h || (later.Then? && Extends(later.past, h))
  }

  predicate Continues(later: Log, log: Log) {
    later == log || (!later.Empty? && Continues(later.before, log))
  }

  /** What has taken effect stays: a call that begins after another one returned takes effect after it. */
  lemma {:induction false} EventsContinue(h: History, later: History, hash: int -> nat)
    requires Begins(later, hash) && Extends(later, h)
    ensures Begins(h, hash) && Continues(Events(later, hash), Events(h, hash))
  {
    if later != h {
      EventsContinue(h, later.past, hash);
    }
  }

  /** No node is lost or doubled: each key of the map has one node, in the nearest rehashed bucket of its hash. */
  lemma NodesAreHome(h: History, hash: int -> nat, b: nat, n: Node)
    requires Begins(h, hash) && b < |After(h, hash).buckets| && After(h, hash).buckets[b].Chain?
    ensures (var s := After(h, hash);
             n in s.buckets[b].nodes <==>
             n.key in s.contents && s.contents[n.key] == n.value
             && b == Home(Ok(s.buckets, s.busy), hash(n.key), s.level))
  {
    var s := After(h, hash);
    var ok := Ok(s.buckets, s.busy);
    assert BucketOk(s.buckets, ok, s.level, hash, s.contents, b);
    if n.key in s.contents {
      assert KeyOk(s.buckets, ok, s.level, hash, s.contents, n.key);
    }
  }

  /** The mask load that follows a miss of a present key finds a larger mask, under which a split bucket is rehashed. */
  lemma PresentMeansRace(s: State, hash: int -> nat, t: nat)
    requires Inv(s, hash) && t < |s.threads| && s.threads[t].Searched? && s.threads[t].missed
    requires s.threads[t].key in s.contents && (s.threads[t].op.Insert? ==> s.threads[t].write)
    ensures (var s', ph := LoadStep(s, hash, t).0, s.threads[t];
             && ph.m < s.level && s'.threads[t] == Checked(ph.key, ph.op, ph.i, ph.m, ph.write, ph.missed, s.level)
             && Race(s', hash, s'.threads[t]))
  {
    var s', ph := LoadStep(s, hash, t).0, s.threads[t];
    assert PhaseOk(s, hash, t);
    LoadKeepsInv(s, hash, t);
    if Split(hash, ph, s.level) == 0 {
      LoadedHome(s, hash, t);
      MissIsFinal(s, hash, ph.key, Held(hash, ph));
    } else if !Race(s', hash, s'.threads[t]) {
      assert PhaseOk(s', hash, t);
      CheckedHome(s', hash, t);
      MissIsFinal(s', hash, ph.key, Held(hash, ph));
    }
  }

  /** A bucket that is marked stays so. */
  ghost predicate StayMarked(buckets: seq<Bucket>, buckets': seq<Bucket>) {
    && |buckets| <= |buckets'|
    && forall b | 0 <= b < |buckets| && buckets[b] != RehashReq :: buckets'[b] != RehashReq
  }

  lemma TableStaysMarked(s: State, hash: int -> nat, choice: Choice)
    ensures StayMarked(s.buckets, TableStep(s, hash, choice).buckets)
  {
  }

  lemma ProceedStaysMarked(s: State, hash: int -> nat, u: nat, write: bool)
    requires u < |s.threads|
    ensures (var s' := Step(s, hash, u, Proceed(write)).0;
             StayMarked(s.buckets, s'.buckets) && s'.threads == s.threads[u := s'.threads[u]])
  {
  }

  lemma RaceStays(s: State, hash: int -> nat, t: nat, u: nat, choice: Choice)
    requires t < |s.threads| && u < |s.threads| && s.threads[t].Checked? && Race(s, hash, s.threads[t])
    requires u != t || OfTable(choice)
    ensures (var s' := Step(s, hash, u, choice).0;
             t < |s'.threads| && s'.threads[t] == s.threads[t] && Race(s', hash, s.threads[t]))
  {
    if choice.Proceed? {
      ProceedStaysMarked(s, hash, u, choice.write);
    } else {
      TableStaysMarked(s, hash, choice);
    }
  }

  /** Thread t does nothing between h and later. */
  predicate Waits(later: History, h: History, t: nat) {
    later == h || (later.Then? && Waits(later.past, h, t) && (later.thread != t || OfTable(later.choice)))
  }

  predicate Raced(s: State, hash: int -> nat, t: nat) {
    t < |s.threads| && s.threads[t].Checked? && Race(s, hash, s.threads[t])
  }

  lemma {:induction false} RaceLasts(later: History, h: History, hash: int -> nat, t: nat)
    requires Begins(later, hash) && Waits(later, h, t)
    ensures Begins(h, hash) && Threads(later) == Threads(h)
    ensures Raced(After(h, hash), hash, t) ==>
              Raced(After(later, hash), hash, t) && After(later, hash).threads[t] == After(h, hash).threads[t]
  {
    if later != h {
      RaceLasts(later.past, h, hash, t);
      if Raced(After(h, hash), hash, t) {
        RaceStays(After(later.past, hash), hash, t, later.thread, later.choice);
      }
    }
  }

  /**
   If the key is there when the mask is loaded, although the search under an old mask missed it, then
   the look at the split bucket, whenever it comes, sends the call back with the mask just loaded.
   */
  lemma {:induction false} PresentMeansRestart(h: History, later: History, hash: int -> nat, t: nat, write: bool)
    requires Begins(later, hash) && Waits(later, Then(h, t, Proceed(write)), t)
    ensures Begins(h, hash) && t < Threads(h) == Threads(later)
    ensures (var s := After(h, hash);
             var ph := s.threads[t];
             ph.Searched? && ph.missed && (ph.op.Insert? ==> ph.write) && ph.key in s.contents ==>
               var now := After(later, hash);
               && ph.m < s.level && now.threads[t].Checked?
               && CheckStep(now, hash, t) == (Move(now, t, Loaded(ph.key, ph.op, s.level)), Silent))
  {
    RaceLasts(later, Then(h, t, Proceed(write)), hash, t);
    var s := After(h, hash);
    var ph := s.threads[t];
    if ph.Searched? && ph.missed && (ph.op.Insert? ==> ph.write) && ph.key in s.contents {
      PresentMeansRace(s, hash, t);
    }
  }
}
