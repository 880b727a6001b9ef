/**
 ConcurrentLRUCache (src/caches/facebook/concurrent-lru-cache.h): what a run under any number of threads
 means, told from the calls and steps of the run alone: what each call is about, in which order the list
 is, what the map holds, and when a call can go on.
 */
module LruOrder {
  import opened LruThreads
  import opened LruWaits

  // ---------- which call a thread is in ----------

  /** The call that thread t is in, or was in last. */
  function CallOf(h: History, t: nat): (c: Choice) {
    match h
    case Begun(_) => Next(false)
    case Then(past, u, choice) =>
      if u == t < |After(past).threads| && After(past).threads[t].Idle? then choice else CallOf(past, t)
  }

  /** The map in which that call found or did not find its key. */
  function MapAt(h: History, t: nat): (m: map<int, nat>) {
    match h
    case Begun(s0) => s0.entries
    case Then(past, u, _) =>
      if u == t < |After(past).threads| && After(past).threads[t].Idle? then After(past).entries else MapAt(past, t)
  }

  /**
   A thread in phase ph works on the key of its call c: an insert on the node it allocated for it, which
   was rejected if and only if the key was there, and a find on the node that the key then had.
   */
  predicate Serves(ph: Phase, c: Choice, m: map<int, nat>) {
    && (Inserting(ph) ==> c.Insert? && ph.key == c.key && (ph.Rejected? <==> c.key in m))
    && (HasNew(ph) || ph.Rejected? ==> c.Insert? && ph.node == c.newNode)
    && (ph.Found? || ph.Reading? ==> c.Find? && ph.key == c.key && c.key in m)
    && (ph.Found? ==> c.key in m && ph.node == m[c.key])
  }

  lemma BeginServes(s: State, t: nat, choice: Choice)
    requires t < |s.threads| && s.threads[t].Idle?
    ensures Serves(Begin(s, t, choice).threads[t], choice, s.entries)
  {
  }

  lemma VictimServes(s: State, t: nat, c: Choice, m: map<int, nat>)
    requires t < |s.threads| && HasVictim(s.threads[t]) && Serves(s.threads[t], c, m)
    ensures Serves(DropVictim(s, t).threads[t], c, m)
  {
  }

  lemma AdvanceServes(s: State, t: nat, c: Choice, m: map<int, nat>)
    requires t < |s.threads| && AtCounter(s.threads[t]) && Serves(s.threads[t], c, m)
    ensures |Advance(s, t).threads| == |s.threads| && Serves(Advance(s, t).threads[t], c, m)
  {
  }

  lemma StepServes(s: State, t: nat, choice: Choice, c: Choice, m: map<int, nat>)
    requires t < |s.threads| && !s.threads[t].Idle? && Serves(s.threads[t], c, m)
    ensures |Effect(s, t, choice).threads| == |s.threads| && Serves(Effect(s, t, choice).threads[t], c, m)
  {
    if HasVictim(s.threads[t]) {
      VictimServes(s, t, c, m);
    } else if !AtPush(s, s.threads[t]) && AtCounter(s.threads[t]) {
      AdvanceServes(s, t, c, m);
    }
  }

  lemma {:induction false} CallsAreServed(h: History, t: nat)
    requires Fresh(h) && t < |After(h).threads|
    ensures Serves(After(h).threads[t], CallOf(h, t), MapAt(h, t))
  {
    match h
    case Begun(_) =>
    case Then(past, u, choice) =>
      RunKeepsInv(past);
      var s := After(past);
      if u < |s.threads| {
        StepKeepsInv(s, u, choice);
        Moves(s, u, choice);
      }
      CallsAreServed(past, t);
      if u == t && s.threads[t].Idle? {
        BeginServes(s, t, choice);
      } else if u == t {
        StepServes(s, t, choice, CallOf(past, t), MapAt(past, t));
      }
  }

  // ---------- the list ----------

  /** What a step means for the order of the list. */
  datatype Use = Nothing | Pushes(node: nat) | Touches(node: nat) | Takes

  /**
   The next step of thread t: an insert pushes its new node if it saw room or has evicted, a find that gets
   the list mutex at once touches the node it found, and an eviction takes a node.
   */
  function UseOf(h: History, t: nat, choice: Choice): (u: Use) {
    var s, c := After(h), CallOf(h, t);
    if t >= |s.threads| then Nothing
    else match s.threads[t]
      case Found(_, _) =>
        if choice == Next(true) && c.Find? && c.key in MapAt(h, t) then Touches(MapAt(h, t)[c.key]) else Nothing
      case Loaded(_, _, size) => if size >= s.maxSize then Takes else if c.Insert? then Pushes(c.newNode) else Nothing
      case Evicted(_, _, _, _) => if c.Insert? then Pushes(c.newNode) else Nothing
      case SizeTaken(_) => Takes
      case _ => Nothing
  }

  /** The list after one more use. */
  function Used(list: seq<nat>, u: Use): (r: seq<nat>) {
    match u
    case Nothing => list
    case Pushes(n) => [n] + list
    case Touches(n) => if n in list then [n] + Others(list, n) else list
    case Takes => if list == [] then [] else list[..|list| - 1]
  }

  /** The list without n, in its order. */
  function Others(list: seq<nat>, n: nat): (r: seq<nat>) {
    if list == [] then []
    else if list[0] == n then Others(list[1..], n)
    else [list[0]] + Others(list[1..], n)
  }

  /** Most recently used first: the uses of a run, one after the other. */
  function Recency(h: History): (list: seq<nat>) {
    match h
    case Begun(_) => []
    case Then(past, t, choice) => Used(Recency(past), UseOf(past, t, choice))
  }

  lemma {:induction false} OthersIsWithout(list: seq<nat>, n: nat)
    requires Distinct(list)
    ensures Others(list, n) == Without(list, n)
  {
    if list != [] {
      OthersIsWithout(list[1..], n);
      if list[0] == n {
        assert n !in list[1..];
      }
    }
  }

  /** What the steps do to the list. */
  lemma ListAfter(s: State, t: nat, choice: Choice)
    requires t < |s.threads|
    ensures (var ph, list' := s.threads[t], Effect(s, t, choice).list;
             match ph
             case Found(_, n) =>
               list' == if choice == Next(true) && n in s.list then [n] + Without(s.list, n) else s.list
             case Loaded(_, n, size) => list' == Used(s.list, if size >= s.maxSize then Takes else Pushes(n))
             case Evicted(_, n, _, _) => list' == Used(s.list, Pushes(n))
             case SizeTaken(_) => list' == Used(s.list, Takes)
             case _ => list' == s.list)
  {
  }

  /** In every run the list is in the order of last use, and nothing else ever changes it. */
  lemma {:induction false} ListIsRecency(h: History)
    requires Fresh(h)
    ensures After(h).list == Recency(h)
  {
    match h
    case Begun(_) =>
    case Then(past, t, choice) =>
      ListIsRecency(past);
      RunKeepsInv(past);
      var s := After(past);
      if t < |s.threads| {
        CallsAreServed(past, t);
        ListAfter(s, t, choice);
        if s.threads[t].Found? {
          OthersIsWithout(s.list, s.threads[t].node);
        }
      }
  }

  function Length(h: History): (n: nat) {
    match h
    case Begun(_) => 0
    case Then(past, _, _) => 1 + Length(past)
  }

  /** The step that pushed or touched node n last. */
  function LastUse(h: History, n: nat): (k: nat)
    ensures k <= Length(h)
  {
    match h
    case Begun(_) => 0
    case Then(past, t, choice) =>
      var u := UseOf(past, t, choice);
      if u == Pushes(n) || u == Touches(n) then Length(h) else LastUse(past, n)
  }

  /** Each node was used later than all that are behind it. */
  ghost predicate Sorted(h: History, list: seq<nat>) {
    list != [] ==>
      (forall n | n in list[1..] :: LastUse(h, n) < LastUse(h, list[0])) && Sorted(h, list[1..])
  }

  lemma {:induction false} OthersHas(list: seq<nat>, n: nat, m: nat)
    ensures m in Others(list, n) <==> m in list && m != n
  {
    if list != [] {
      OthersHas(list[1..], n, m);
    }
  }

  /** The node used last goes in front. */
  lemma ConsSorted(h: History, rest: seq<nat>, n: nat)
    requires Sorted(h, rest) && forall m | m in rest :: LastUse(h, m) < LastUse(h, n)
    ensures Sorted(h, [n] + rest)
  {
    assert ([n] + rest)[1..] == rest;
  }

  lemma {:induction false} OthersSorted(past: History, h: History, list: seq<nat>, n: nat)
    requires Sorted(past, list) && forall m | m != n :: LastUse(h, m) == LastUse(past, m)
    ensures Sorted(h, Others(list, n))
  {
    if list != [] {
      OthersSorted(past, h, list[1..], n);
      if list[0] != n {
        forall m | m in Others(list[1..], n) ensures LastUse(h, m) < LastUse(h, list[0]) {
          OthersHas(list[1..], n, m);
        }
        ConsSorted(h, Others(list[1..], n), list[0]);
      }
    }
  }

  lemma {:induction false} FrontSorted(past: History, h: History, list: seq<nat>, k: nat)
    requires Sorted(past, list) && k <= |list| && forall m | m in list :: LastUse(h, m) == LastUse(past, m)
    ensures Sorted(h, list[..k])
  {
    if k > 0 {
      FrontSorted(past, h, list[1..], k - 1);
      assert list[..k] == [list[0]] + list[1..][..k - 1];
      ConsSorted(h, list[1..][..k - 1], list[0]);
    }
  }

  lemma TouchSorted(past: History, h: History, list: seq<nat>, n: nat)
    requires Sorted(past, list)
    requires forall m :: LastUse(h, m) == if m == n then Length(past) + 1 else LastUse(past, m)
    ensures Sorted(h, [n] + Others(list, n))
  {
    OthersSorted(past, h, list, n);
    forall m | m in Others(list, n) ensures m != n {
      OthersHas(list, n, m);
    }
    ConsSorted(h, Others(list, n), n);
  }

  lemma PushSorted(past: History, h: History, list: seq<nat>, n: nat)
    requires Sorted(past, list) && n !in list
    requires forall m :: LastUse(h, m) == if m == n then Length(past) + 1 else LastUse(past, m)
    ensures Sorted(h, [n] + list)
  {
    FrontSorted(past, h, list, |list|);
    assert list[..|list|] == list;
    ConsSorted(h, list, n);
  }

  /** One more use keeps the order. */
  lemma UsedSorted(past: History, t: nat, choice: Choice, list: seq<nat>)
    requires Sorted(past, list)
    requires UseOf(past, t, choice).Pushes? ==> UseOf(past, t, choice).node !in list
    ensures Sorted(Then(past, t, choice), Used(list, UseOf(past, t, choice)))
  {
    var h, u := Then(past, t, choice), UseOf(past, t, choice);
    if u.Touches? && u.node in list {
      TouchSorted(past, h, list, u.node);
    } else if u.Pushes? {
      PushSorted(past, h, list, u.node);
    } else {
      FrontSorted(past, h, list, |Used(list, u)|);
      assert Used(list, u) == list[..|Used(list, u)|];
    }
  }

  lemma {:induction false} RecencySorted(h: History)
    requires Fresh(h)
    ensures Sorted(h, Recency(h))
  {
    match h
    case Begun(_) =>
    case Then(past, t, choice) =>
      RecencySorted(past);
      ListIsRecency(past);
      RunKeepsInv(past);
      var s := After(past);
      if UseOf(past, t, choice).Pushes? {
        CallsAreServed(past, t);
        assert PhaseOk(s, s.threads[t]);
        Owned(s, t);
      }
      UsedSorted(past, t, choice, Recency(past));
  }

  lemma {:induction false} LastIsOldest(h: History, list: seq<nat>, n: nat)
    requires Sorted(h, list) && n in list
    ensures (var v := list[|list| - 1]; n != v ==> LastUse(h, v) < LastUse(h, n))
  {
    if |list| > 1 && n in list[1..] {
      LastIsOldest(h, list[1..], n);
    } else if |list| > 1 {
      assert list[|list| - 1] in list[1..];
    }
  }

  lemma TakesLast(s: State, t: nat, choice: Choice)
    requires t < |s.threads| && s.list != []
    requires s.threads[t].SizeTaken? || (s.threads[t].Loaded? && s.threads[t].size >= s.maxSize)
    ensures (var ph := Effect(s, t, choice).threads[t]; HasVictim(ph) && ph.victim == s.list[|s.list| - 1])
  {
  }

  /** An eviction takes, of the nodes in the list, the one that was used least recently. */
  lemma EvictsLeastRecent(h: History, t: nat, choice: Choice, n: nat)
    requires Fresh(h) && UseOf(h, t, choice).Takes? && After(h).list != []
    ensures (var s' := After(Then(h, t, choice));
             && t < |s'.threads| && HasVictim(s'.threads[t]) && s'.threads[t].victim in Recency(h)
             && (n in Recency(h) && n != s'.threads[t].victim ==>
                   LastUse(h, s'.threads[t].victim) < LastUse(h, n)))
  {
    ListIsRecency(h);
    RecencySorted(h);
    TakesLast(After(h), t, choice);
    Moves(After(h), t, choice);
    if n in Recency(h) {
      LastIsOldest(h, Recency(h), n);
    }
  }

  // ---------- the map ----------

  /** The call that thread t begins with this step is an insert that goes on. */
  predicate Allocates(past: History, t: nat, choice: Choice) {
    var s := After(past);
    t < |s.threads| && s.threads[t].Idle? && choice.Insert? && !After(Then(past, t, choice)).threads[t].Idle?
  }

  /** The keys that the inserts gave to their nodes. */
  function KeysGiven(h: History): (m: map<nat, int>) {
    match h
    case Begun(_) => map[]
    case Then(past, t, choice) =>
      if Allocates(past, t, choice) then KeysGiven(past)[choice.newNode := choice.key] else KeysGiven(past)
  }

  /** An insert adds its node unless its key is there; an eviction takes the key of its victim out. */
  function Contents(h: History): (m: map<int, nat>) {
    match h
    case Begun(_) => map[]
    case Then(past, t, choice) =>
      var s, m := After(past), Contents(past);
      if Allocates(past, t, choice) then if choice.key in m then m else m[choice.key := choice.newNode]
      else if t < |s.threads| && HasVictim(s.threads[t]) && s.threads[t].stage.Erase?
              && s.threads[t].victim in KeysGiven(past) then m - {KeysGiven(past)[s.threads[t].victim]}
      else m
  }

  lemma MapAfter(s: State, t: nat, choice: Choice)
    requires t < |s.threads|
    ensures (var ph, s' := s.threads[t], Effect(s, t, choice);
             match ph
             case Idle =>
               && (s'.keyOf == if choice.Insert? && !s'.threads[t].Idle? then s.keyOf[choice.newNode := choice.key]
                               else s.keyOf)
               && (s'.entries == if choice.Insert? && !s'.threads[t].Idle? && choice.key !in s.entries
                                 then s.entries[choice.key := choice.newNode] else s.entries)
             case _ =>
               && s'.keyOf == s.keyOf
               && (s'.entries == if HasVictim(ph) && ph.stage.Erase? then s.entries - {ph.stage.held} else s.entries))
  {
  }

  /** In every run the map holds what was inserted and not evicted since. */
  lemma {:induction false} MapIsContents(h: History)
    requires Fresh(h)
    ensures After(h).entries == Contents(h) && After(h).keyOf == KeysGiven(h)
  {
    match h
    case Begun(_) =>
    case Then(past, t, choice) =>
      MapIsContents(past);
      RunKeepsInv(past);
      var s := After(past);
      if t < |s.threads| {
        MapAfter(s, t, choice);
        assert PhaseOk(s, s.threads[t]);
      }
  }

  // ---------- calls go on ----------

  /** When a call can begin, and what becomes of it. */
  lemma Begins(s: State, t: nat, choice: Choice)
    requires t < |s.threads| && s.threads[t].Idle?
    ensures (var ph := Effect(s, t, choice).threads[t];
             match choice
             case Insert(k, n) =>
               && (ph.Idle? <==> n in s.keyOf || Sum(s.threads, InInsert) >= s.limit
                                 || (k in s.entries && !Unlocked(s, k)))
               && (!ph.Idle? ==> ph == if k in s.entries then Rejected(k, n) else Inserted(k, n))
             case Find(k) =>
               && (ph.Idle? <==> k !in s.entries || Sum(s.threads, Writers(k)) > 0)
               && (!ph.Idle? ==> ph == Found(k, s.entries[k]))
             case Next(_) => ph.Idle?)
  {
  }

  /** A call that has begun only ever waits for the lock of the element that its eviction is to erase. */
  lemma CallsGoOn(h: History, t: nat, choice: Choice)
    requires Fresh(h) && t < |After(h).threads| && !After(h).threads[t].Idle?
    ensures (var s := After(h);
             var ph := s.threads[t];
             Effect(s, t, choice).threads[t] == ph <==>
               HasVictim(ph) && ph.stage.Lookup? && ph.victim in s.keyOf && !Unlocked(s, s.keyOf[ph.victim]))
  {
    RunKeepsInv(h);
    assert PhaseOk(After(h), After(h).threads[t]);
  }
}
