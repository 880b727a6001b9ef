/**
 tbb::concurrent_lru_cache (src/intel/include/tbb/concurrent_lru_cache.h): what a run means to the callers
 of operator[], told from the steps of the run alone.
 */
module HandleRuns {
  import opened HandleCache
  import opened HandleThreads

  /** What a handle variable stands for: the key it was asked with, and the residency that the key then had. */
  datatype Slot = Empty | Asked(key: int, residency: nat)

  /** The residency that a key has, or is about to get. */
  function ResidencyOf(c: Cache, k: int): (r: nat) {
    if k in c.storage then c.storage[k].residency else c.residencies
  }

  /**
   The variables after a run: operator[] fills one that is empty; a handle that was returned can be moved
   to an empty one, or dropped, and leaves an empty one behind.
   */
  function Slots(h: History, f: int -> int): (slots: seq<Slot>)
    requires Limit(h) >= 1
    ensures |slots| == |After(h, f).users|
  {
    match h
    case Begun(_, handles) => seq(handles, _ => Empty)
    case Then(past, step) =>
      var slots, s := Slots(past, f), After(past, f);
      UsersKept(s, f, step);
      match step
      case Retrieve(i, k) =>
        if i < |slots| && slots[i].Empty? then slots[i := Asked(k, ResidencyOf(s.cache, k))] else slots
      case Transfer(i, j) =>
        if i < |slots| && j < |slots| && s.users[i].Live? && slots[j].Empty? then slots[i := Empty][j := slots[i]]
        else slots
      case Release(i) => if i < |slots| && s.users[i].Live? then slots[i := Empty] else slots
      case _ => slots
  }

  lemma UsersKept(s: State, f: int -> int, step: Step)
    ensures |Effect(s, f, step).users| == |s.users|
  {
  }

  /** The user is what the variable stands for. */
  predicate Fits(u: User, slot: Slot) {
    && (u.Free? <==> slot.Empty?)
    && (!u.Free? ==> u.key == slot.key && u.residency == slot.residency)
  }

  predicate AllFit(users: seq<User>, slots: seq<Slot>) {
    |users| == |slots| && forall i | 0 <= i < |users| :: Fits(users[i], slots[i])
  }

  lemma RetrieveFits(s: State, f: int -> int, i: nat, k: int)
    requires i < |s.users| && s.users[i].Free?
    ensures (var s' := Effect(s, f, Retrieve(i, k));
             && s'.users == s.users[i := s'.users[i]] && Fits(s'.users[i], Asked(k, ResidencyOf(s.cache, k))))
  {
  }

  /** A value is computed, published or waited for by a user that keeps its key. */
  lemma GoesOn(s: State, f: int -> int, step: Step, slots: seq<Slot>)
    requires AllFit(s.users, slots) && (step.Compute? || step.Publish? || step.Await?)
    ensures AllFit(Effect(s, f, step).users, slots)
  {
  }

  lemma ReleaseFits(s: State, f: int -> int, i: nat, slots: seq<Slot>)
    requires Inv(s, f) && AllFit(s.users, slots) && i < |s.users| && s.users[i].Live?
    ensures AllFit(Effect(s, f, Release(i)).users, slots[i := Empty])
  {
    CanRelease(s, f, i);
  }

  /** In every run each user is what its variable stands for. */
  lemma {:induction false} SlotsFit(h: History, f: int -> int)
    requires Limit(h) >= 1
    ensures AllFit(After(h, f).users, Slots(h, f))
  {
    match h
    case Begun(_, _) =>
    case Then(past, step) =>
      SlotsFit(past, f);
      var s := After(past, f);
      match step
      case Retrieve(i, k) =>
        if i < |s.users| && s.users[i].Free? {
          RetrieveFits(s, f, i, k);
        }
      case Release(i) =>
        if i < |s.users| && s.users[i].Live? {
          ReleaseFits(s, f, i, Slots(past, f));
        }
      case Transfer(_, _) =>
      case _ => GoesOn(s, f, step, Slots(past, f));
  }

  /**
   A handle is that of the call it came from, however often it was moved: it refers to the record that
   the key of this call had then, and reads the value of this key.  Empty handles are those that were
   not filled, or were moved away or dropped.
   */
  lemma HandleOfItsCall(h: History, f: int -> int, i: nat)
    requires Limit(h) >= 1 && i < |After(h, f).users|
    ensures (var s, u, slot := After(h, f), After(h, f).users[i], Slots(h, f)[i];
             && (u.Free? <==> slot.Empty?)
             && (slot.Asked? ==>
                   && slot.key in s.cache.storage && s.cache.storage[slot.key].residency == slot.residency
                   && (u.Live? ==> s.cache.storage[slot.key].ready && s.cache.storage[slot.key].value == f(slot.key))))
  {
    SlotsFit(h, f);
    var s := After(h, f);
    assert UserOk(s.cache, f, s.users[i]);
    if s.users[i].Live? {
      HandlesAreGood(h, f, i);
    }
  }

  // ---------- calls go on ----------

  lemma {:induction false} SomeMaker(users: seq<User>, residency: nat) returns (i: nat)
    requires Making(users, residency) >= 1
    ensures i < |users| && Makes(users[i], residency)
  {
    var n := |users| - 1;
    if Makes(users[n], residency) {
      i := n;
    } else {
      i := SomeMaker(users[..n], residency);
    }
  }

  /**
   No call is stuck: who is to compute the value does it and returns the handle in two steps, and who
   waits returns it at the next look at the flag, or some other call is about to set this flag.
   */
  lemma CallsGoOn(h: History, f: int -> int, i: nat) returns (j: nat)
    requires Limit(h) >= 1 && i < |After(h, f).users|
    ensures (var s, u := After(h, f), After(h, f).users[i];
             && (u.Fetching? && u.isNew ==> Effect(s, f, Compute(i)).users[i] == Computed(u.key, u.residency))
             && (u.Computed? ==> Effect(s, f, Publish(i)).users[i] == Live(u.key, u.residency))
             && (u.Fetching? && !u.isNew ==>
                   || Effect(s, f, Await(i)).users[i] == Live(u.key, u.residency)
                   || (j < |s.users| && j != i && Makes(s.users[j], u.residency))))
  {
    var s, u := After(h, f), After(h, f).users[i];
    j := 0;
    assert UserOk(s.cache, f, u);
    if u.Fetching? && !u.isNew {
      assert RecordOk(s.cache, s.users, f, u.key);
      if !s.cache.storage[u.key].ready {
        j := SomeMaker(s.users, u.residency);
      }
    }
  }

  // ---------- what is evicted ----------

  /** How many variables stand for key k. */
  function Holders(slots: seq<Slot>, k: int): (n: nat) {
    if slots == [] then 0
    else
      var last := slots[|slots| - 1];
      Holders(slots[..|slots| - 1], k) + if last.Asked? && last.key == k then 1 else 0
  }

  /** The step drops a handle, and it is the last one of its key. */
  predicate DropsLast(h: History, f: int -> int, step: Step)
    requires Limit(h) >= 1
    ensures DropsLast(h, f, step) ==> step.Release? && step.i < |Slots(h, f)| && Slots(h, f)[step.i].Asked?
  {
    var slots := Slots(h, f);
    && step.Release? && step.i < |slots| && After(h, f).users[step.i].Live?
    && slots[step.i].Asked? && Holders(slots, slots[step.i].key) == 1
  }

  /** How many last handles were dropped. */
  function Drops(h: History, f: int -> int): (n: nat)
    requires Limit(h) >= 1
  {
    match h
    case Begun(_, _) => 0
    case Then(past, step) => Drops(past, f) + if DropsLast(past, f, step) then 1 else 0
  }

  /** How many were dropped before the latest one of key k. */
  function DropTime(h: History, f: int -> int, k: int): (n: nat)
    requires Limit(h) >= 1
  {
    match h
    case Begun(_, _) => 0
    case Then(past, step) =>
      if DropsLast(past, f, step) && Slots(past, f)[step.i].key == k then Drops(past, f) else DropTime(past, f, k)
  }

  /** The variables of a key are the users of its record. */
  lemma {:induction false} HoldersAreUsers(c: Cache, f: int -> int, users: seq<User>, slots: seq<Slot>, k: int)
    requires AllFit(users, slots) && k in c.storage && forall u | u in users :: UserOk(c, f, u)
    requires forall l | l in c.storage && l != k :: c.storage[l].residency != c.storage[k].residency
    ensures Holders(slots, k) == Count(users, c.storage[k].residency)
  {
    if users != [] {
      var n := |users| - 1;
      assert UserOk(c, f, users[n]) && Fits(users[n], slots[n]);
      HoldersAreUsers(c, f, users[..n], slots[..n], k);
    }
  }

  lemma HoldersAreCounted(h: History, f: int -> int, k: int)
    requires Limit(h) >= 1 && k in After(h, f).cache.storage
    ensures Holders(Slots(h, f), k) == After(h, f).cache.storage[k].refCounter
  {
    var s := After(h, f);
    SlotsFit(h, f);
    HoldersAreUsers(s.cache, f, s.users, Slots(h, f), k);
    assert RecordOk(s.cache, s.users, f, k);
  }

  /** A record in the history bears the moment at which its last handle went. */
  predicate Stamped(h: History, f: int -> int, k: int)
    requires Limit(h) >= 1
  {
    var c := After(h, f).cache;
    k in c.storage && c.storage[k].listed ==> c.storage[k].released == DropTime(h, f, k)
  }

  /** Other steps leave the stamps alone, and put nothing into the history. */
  lemma OtherStamps(s: State, f: int -> int, step: Step, k: int)
    requires Inv(s, f)
    requires step.Release? && step.i < |s.users| && s.users[step.i].Live? ==>
               s.users[step.i].key in s.cache.storage && s.cache.storage[s.users[step.i].key].refCounter != 1
    ensures (var c, c' := s.cache, Effect(s, f, step).cache;
             && c'.clock == c.clock
             && (k in c'.storage && c'.storage[k].listed ==>
                   k in c.storage && c.storage[k].listed && c'.storage[k].released == c.storage[k].released))
  {
  }

  lemma DropStamps(s: State, f: int -> int, i: nat, k: int)
    requires Inv(s, f) && i < |s.users| && s.users[i].Live? && s.users[i].key in s.cache.storage
    requires s.cache.storage[s.users[i].key].refCounter == 1
    ensures (var c, c' := s.cache, Effect(s, f, Release(i)).cache;
             && c'.clock == c.clock + 1
             && (k in c'.storage ==> k in c.storage)
             && (k in c'.storage && k != s.users[i].key ==> c'.storage[k] == c.storage[k])
             && s.users[i].key in c'.storage && c'.storage[s.users[i].key].released == c.clock)
  {
    var c, l := s.cache, s.users[i].key;
    assert RecordOk(c, s.users, f, l);
    CanRelease(s, f, i);
    forall x | x in c.history ensures c.storage[x].released < c.clock {
      assert RecordOk(c, s.users, f, x);
    }
    ReleasedHistory(c, l, Ended(c, l));
    EvictsLast(c.(storage := c.storage[l := c.storage[l].(refCounter := 0)]));
  }

  /** A step drops a last handle if and only if the record it belongs to has counter 1. */
  lemma DropsIff(h: History, f: int -> int, step: Step)
    requires Limit(h) >= 1 && step.Release? && step.i < |After(h, f).users| && After(h, f).users[step.i].Live?
    ensures (var s := After(h, f);
             var k := s.users[step.i].key;
             && k in s.cache.storage && Slots(h, f)[step.i].Asked? && Slots(h, f)[step.i].key == k
             && (DropsLast(h, f, step) <==> s.cache.storage[k].refCounter == 1))
  {
    var s := After(h, f);
    SlotsFit(h, f);
    assert Fits(s.users[step.i], Slots(h, f)[step.i]) && UserOk(s.cache, f, s.users[step.i]);
    HoldersAreCounted(h, f, s.users[step.i].key);
  }

  lemma {:induction false} StampsAreTimes(h: History, f: int -> int, k: int)
    requires Limit(h) >= 1
    ensures After(h, f).cache.clock == Drops(h, f) && Stamped(h, f, k)
  {
    match h
    case Begun(_, _) =>
    case Then(past, step) =>
      StampsAreTimes(past, f, k);
      var s := After(past, f);
      if step.Release? && step.i < |s.users| && s.users[step.i].Live? {
        DropsIff(past, f, step);
        if DropsLast(past, f, step) {
          DropStamps(s, f, step.i, k);
        } else {
          OtherStamps(s, f, step, k);
        }
      } else {
        OtherStamps(s, f, step, k);
      }
  }

  /** Key k has a record and no handles. */
  predicate Unused(h: History, f: int -> int, k: int)
    requires Limit(h) >= 1
  {
    k in After(h, f).cache.storage && Holders(Slots(h, f), k) == 0
  }

  lemma UnusedIsListed(h: History, f: int -> int, k: int)
    requires Limit(h) >= 1 && Unused(h, f, k)
    ensures k in After(h, f).cache.history && After(h, f).cache.storage[k].listed
  {
    HoldersAreCounted(h, f, k);
    assert RecordOk(After(h, f).cache, After(h, f).users, f, k);
  }

  /**
   Who loses its record is, of the keys without handles, the one whose last handle was dropped first, and
   it is lost when another last handle is dropped.
   */
  lemma EvictsLongestUnused(h: History, f: int -> int, step: Step, k: int, l: int)
    requires Limit(h) >= 1 && k in After(h, f).cache.storage && k !in After(Then(h, step), f).cache.storage
    ensures DropsLast(h, f, step) && Unused(h, f, k)
    ensures l != k && Unused(h, f, l) ==> DropTime(h, f, k) < DropTime(h, f, l)
  {
    var s := After(h, f);
    EvictsOldest(h, f, step, k);
    assert RecordOk(s.cache, s.users, f, k);
    HoldersAreCounted(h, f, k);
    StampsAreTimes(h, f, k);
    StampsAreTimes(h, f, l);
    if l != k && Unused(h, f, l) {
      UnusedIsListed(h, f, l);
    }
    assert After(Then(h, step), f) == Effect(s, f, step);
    DropsIff(h, f, step);
  }

  /** Some record is lost if and only if a last handle is dropped while as many records as allowed have none. */
  lemma EvictsIffFull(h: History, f: int -> int, step: Step)
    requires Limit(h) >= 1
    ensures (exists k :: k in After(h, f).cache.storage && k !in After(Then(h, step), f).cache.storage)
            <==> DropsLast(h, f, step) && |After(h, f).cache.history| == Limit(h)
  {
    if k :| k in After(h, f).cache.storage && k !in After(Then(h, step), f).cache.storage {
      EvictsWhenFull(h, f, step, k);
    }
    if DropsLast(h, f, step) && |After(h, f).cache.history| == Limit(h) {
      DropsIff(h, f, step);
      FullDropEvicts(After(h, f), f, step.i);
    }
  }

  lemma EvictsWhenFull(h: History, f: int -> int, step: Step, k: int)
    requires Limit(h) >= 1 && k in After(h, f).cache.storage && k !in After(Then(h, step), f).cache.storage
    ensures DropsLast(h, f, step) && |After(h, f).cache.history| == Limit(h)
  {
    assert After(Then(h, step), f) == Effect(After(h, f), f, step);
    EvictsLongestUnused(h, f, step, k, k);
    EvictedIsLast(After(h, f), f, step, k);
  }

  lemma FullDropEvicts(s: State, f: int -> int, i: nat)
    requires Inv(s, f) && i < |s.users| && s.users[i].Live? && s.users[i].key in s.cache.storage
    requires s.cache.storage[s.users[i].key].refCounter == 1 && |s.cache.history| == s.cache.limit
    ensures (var c := s.cache;
             var last := c.history[|c.history| - 1];
             last in c.storage && last !in Effect(s, f, Release(i)).cache.storage)
  {
    var c, k := s.cache, s.users[i].key;
    assert RecordOk(c, s.users, f, k);
    CanRelease(s, f, i);
    forall x | x in c.history ensures c.storage[x].released < c.clock {
      assert RecordOk(c, s.users, f, x);
    }
    ReleasedHistory(c, k, Ended(c, k));
  }
}
