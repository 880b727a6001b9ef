/**
 tbb::concurrent_lru_cache (src/intel/include/tbb/concurrent_lru_cache.h) with any number of threads.
 A step is one serial operation, one call of the value function, one access to a ready flag, or a move
 of a handle.  A handle variable and the operator[] call that is to fill it are one `User`.
 */
module HandleThreads {
  import opened HandleCache

  datatype User =
    | Free
    | Fetching(key: int, residency: nat, isNew: bool)  // retrieve_serial was done for it
    | Computed(key: int, residency: nat)               // my_value is set, my_is_ready not yet
    | Live(key: int, residency: nat)                   // a handle

  datatype State = State(cache: Cache, users: seq<User>)

  datatype Step =
    | Retrieve(i: nat, key: int)
    | Compute(i: nat)
    | Publish(i: nat)
    | Await(i: nat)         // one look at the ready flag
    | Transfer(i: nat, j: nat)  // handle i is moved into the empty handle j
    | Release(i: nat)       // destruction of a handle, or assignment to it before the new value goes in

  predicate Uses(u: User, residency: nat) {
    !u.Free? && u.residency == residency
  }

  predicate Makes(u: User, residency: nat) {
    Uses(u, residency) && (u.Computed? || (u.Fetching? && u.isNew))
  }

  function Count(users: seq<User>, residency: nat): (n: nat) {
    if users == [] then 0
    else Count(users[..|users| - 1], residency) + if Uses(users[|users| - 1], residency) then 1 else 0
  }

  function Making(users: seq<User>, residency: nat): (n: nat) {
    if users == [] then 0
    else Making(users[..|users| - 1], residency) + if Makes(users[|users| - 1], residency) then 1 else 0
  }

  function One(b: bool): (n: nat) {
    if b then 1 else 0
  }

  lemma {:induction false} CountUpdate(users: seq<User>, i: nat, u: User, residency: nat)
    requires i < |users|
    ensures Count(users[i := u], residency)
         == Count(users, residency) - One(Uses(users[i], residency)) + One(Uses(u, residency))
    ensures Making(users[i := u], residency)
         == Making(users, residency) - One(Makes(users[i], residency)) + One(Makes(u, residency))
  {
    var n := |users| - 1;
    if i < n {
      CountUpdate(users[..n], i, u, residency);
      assert users[i := u][..n] == users[..n][i := u];
    } else {
      assert users[i := u][..n] == users[..n];
    }
  }

  lemma {:induction false} CountAtLeast(users: seq<User>, i: nat, residency: nat)
    requires i < |users|
    ensures One(Uses(users[i], residency)) <= Count(users, residency)
    ensures One(Makes(users[i], residency)) <= Making(users, residency) <= Count(users, residency)
  {
    var n := |users| - 1;
    if i < n {
      CountAtLeast(users[..n], i, residency);
    } else {
      MakingBelowCount(users[..n], residency);
    }
  }

  lemma {:induction false} MakingBelowCount(users: seq<User>, residency: nat)
    ensures Making(users, residency) <= Count(users, residency)
  {
    if users != [] {
      MakingBelowCount(users[..|users| - 1], residency);
    }
  }

  lemma {:induction false} TwoMakers(users: seq<User>, i: nat, j: nat, residency: nat)
    requires i < j < |users| && Makes(users[i], residency) && Makes(users[j], residency)
    ensures Making(users, residency) >= 2
  {
    var n := |users| - 1;
    if j < n {
      TwoMakers(users[..n], i, j, residency);
    } else {
      CountAtLeast(users[..n], i, residency);
    }
  }

  lemma {:induction false} CountNone(users: seq<User>, residency: nat)
    requires forall i | 0 <= i < |users| :: !Uses(users[i], residency)
    ensures Count(users, residency) == 0 && Making(users, residency) == 0
  {
    if users != [] {
      CountNone(users[..|users| - 1], residency);
    }
  }

  // ---------- the steps ----------

  function SetRecord(c: Cache, k: int, rec: Record): (c': Cache) {
    c.(storage := c.storage[k := rec])
  }

  function Effect(s: State, f: int -> int, step: Step): (s': State) {
    match step
    case Retrieve(i, k) =>
      if i < |s.users| && s.users[i].Free? then
        var c := Retrieved(s.cache, k);
        State(c, s.users[i := Fetching(k, c.storage[k].residency, k !in s.cache.storage)])
      else s
    case Compute(i) =>
      if i < |s.users| && s.users[i].Fetching? && s.users[i].isNew && s.users[i].key in s.cache.storage then
        var u := s.users[i];
        var rec := s.cache.storage[u.key];
        State(SetRecord(s.cache, u.key, rec.(value := f(u.key), runs := rec.runs + 1)),
              s.users[i := Computed(u.key, u.residency)])
      else s
    case Publish(i) =>
      if i < |s.users| && s.users[i].Computed? && s.users[i].key in s.cache.storage then
        var u := s.users[i];
        State(SetRecord(s.cache, u.key, s.cache.storage[u.key].(ready := true)), s.users[i := Live(u.key, u.residency)])
      else s
    case Await(i) =>
      if i < |s.users| && s.users[i].Fetching? && !s.users[i].isNew && s.users[i].key in s.cache.storage
         && s.cache.storage[s.users[i].key].ready then
        s.(users := s.users[i := Live(s.users[i].key, s.users[i].residency)])
      else s
    case Transfer(i, j) =>
      if i < |s.users| && j < |s.users| && s.users[i].Live? && s.users[j].Free? then
        s.(users := s.users[i := Free][j := s.users[i]])
      else s
    case Release(i) =>
      if i < |s.users| && s.users[i].Live? && CanEnd(s.cache, s.users[i].key) then
        State(Ended(s.cache, s.users[i].key), s.users[i := Free])
      else s
  }

  // ---------- the invariant ----------

  ghost predicate RecordOk(c: Cache, users: seq<User>, f: int -> int, k: int)
    requires k in c.storage
  {
    var rec := c.storage[k];
    && rec.residency < c.residencies && rec.released <= c.clock
    && rec.refCounter == Count(users, rec.residency)
    && (rec.listed <==> rec.refCounter == 0) && (rec.listed <==> k in c.history)
    && (rec.ready ==> rec.value == f(k) && rec.runs == 1 && Making(users, rec.residency) == 0)
    && (!rec.ready ==> Making(users, rec.residency) == 1)
    && (rec.listed ==> rec.released < c.clock)
  }

  predicate UserOk(c: Cache, f: int -> int, u: User) {
    !u.Free? ==>
      && u.key in c.storage
      && var rec := c.storage[u.key];
         && rec.residency == u.residency
         && (u.Live? ==> rec.ready)
         && (u.Fetching? && u.isNew ==> !rec.ready && rec.runs == 0)
         && (u.Computed? ==> !rec.ready && rec.runs == 1 && rec.value == f(u.key))
  }

  /** Entry i of the history was released after entry j. */
  predicate Newer(c: Cache, i: nat, j: nat)
    requires i < |c.history| && j < |c.history|
  {
    && c.history[i] in c.storage && c.history[j] in c.storage
    && c.storage[c.history[j]].released < c.storage[c.history[i]].released
  }

  ghost predicate HistoryOk(c: Cache) {
    && c.limit >= 1 && |c.history| <= c.limit
    && (forall k | k in c.history :: k in c.storage)
    && (forall i, j {:trigger Newer(c, i, j)} | 0 <= i < j < |c.history| :: Newer(c, i, j))
    && (forall k, l | k in c.storage && l in c.storage && k != l :: c.storage[k].residency != c.storage[l].residency)
  }

  ghost predicate Inv(s: State, f: int -> int) {
    && HistoryOk(s.cache)
    && (forall k {:trigger RecordOk(s.cache, s.users, f, k)} | k in s.cache.storage :: RecordOk(s.cache, s.users, f, k))
    && (forall i {:trigger s.users[i]} | 0 <= i < |s.users| :: UserOk(s.cache, f, s.users[i]))
  }

  // ---------- every step keeps it ----------

  lemma RetrieveNewKeepsInv(s: State, f: int -> int, i: nat, k: int)
    requires Inv(s, f) && i < |s.users| && s.users[i].Free? && k !in s.cache.storage
    ensures Inv(Effect(s, f, Retrieve(i, k)), f)
  {
    var s' := Effect(s, f, Retrieve(i, k));
    var u := s'.users[i];
    forall l | l in s.cache.storage ensures s.cache.storage[l].residency < s.cache.residencies {
      assert RecordOk(s.cache, s.users, f, l);
    }
    forall j | 0 <= j < |s.users| ensures !Uses(s.users[j], s.cache.residencies) {
      assert UserOk(s.cache, f, s.users[j]);
    }
    CountNone(s.users, s.cache.residencies);
    assert HistoryOk(s'.cache) by {
      forall a, b | 0 <= a < b < |s'.cache.history| ensures Newer(s'.cache, a, b) {
        assert Newer(s.cache, a, b);
      }
    }
    forall l | l in s'.cache.storage ensures RecordOk(s'.cache, s'.users, f, l) {
      if l != k {
        assert RecordOk(s.cache, s.users, f, l);
      }
      CountUpdate(s.users, i, u, s'.cache.storage[l].residency);
    }
  }

  lemma WithoutFacts(s: seq<int>, k: int, i: nat)
    requires i < |s| && s[i] == k && forall i, j | 0 <= i < j < |s| :: s[i] != s[j]
    ensures |Without(s, k)| == |s| - 1
    ensures forall a | 0 <= a < |s| - 1 :: Without(s, k)[a] == s[if a < i then a else a + 1]
    ensures forall x :: x in Without(s, k) <==> x in s && x != k
  {
    WithoutAt(s, k, i);
    var r := s[..i] + s[i + 1..];
    forall x ensures x in r <==> x in s && x != k {
      if x in s && x != k {
        var j :| 0 <= j < |s| && s[j] == x;
        assert r[if j < i then j else j - 1] == x;
      }
    }
  }

  /** Leaving the history keeps the order of the rest. */
  lemma HistoryWithout(c: Cache, k: int, c': Cache)
    requires HistoryOk(c) && k in c.history && c'.limit == c.limit && c'.history == Without(c.history, k)
    requires k in c'.storage && c'.storage == c.storage[k := c'.storage[k]]
    requires c'.storage[k].residency == c.storage[k].residency
    ensures HistoryOk(c') && forall x :: x in c'.history <==> x in c.history && x != k
  {
    var i :| 0 <= i < |c.history| && c.history[i] == k;
    HistoryDistinct(c);
    WithoutFacts(c.history, k, i);
    var h := c'.history;
    forall a, b | 0 <= a < b < |h| ensures Newer(c', a, b) {
      var a', b' := if a < i then a else a + 1, if b < i then b else b + 1;
      assert h[a] == c.history[a'] && h[b] == c.history[b'];
      assert Newer(c, a', b');
    }
  }

  lemma HistoryDistinct(c: Cache)
    requires HistoryOk(c)
    ensures forall i, j | 0 <= i < j < |c.history| :: c.history[i] != c.history[j]
  {
    forall i, j | 0 <= i < j < |c.history| ensures c.history[i] != c.history[j] {
      assert Newer(c, i, j);
    }
  }

  /** The record of a key outside the history may change. */
  lemma HistoryKept(c: Cache, k: int, c': Cache)
    requires HistoryOk(c) && k in c.storage && c'.limit == c.limit && c'.history == c.history
    requires k in c'.storage && c'.storage == c.storage[k := c'.storage[k]]
    requires c'.storage[k].residency == c.storage[k].residency
    requires k !in c.history || c'.storage[k].released == c.storage[k].released
    ensures HistoryOk(c')
  {
    forall a, b | 0 <= a < b < |c'.history| ensures Newer(c', a, b) {
      assert Newer(c, a, b);
    }
  }

  lemma RetrieveOldKeepsInv(s: State, f: int -> int, i: nat, k: int)
    requires Inv(s, f) && i < |s.users| && s.users[i].Free? && k in s.cache.storage
    ensures Inv(Effect(s, f, Retrieve(i, k)), f)
  {
    var s' := Effect(s, f, Retrieve(i, k));
    assert RecordOk(s.cache, s.users, f, k);
    if s.cache.storage[k].listed {
      HistoryWithout(s.cache, k, s'.cache);
    } else {
      HistoryKept(s.cache, k, s'.cache);
    }
    forall l | l in s'.cache.storage ensures RecordOk(s'.cache, s'.users, f, l) {
      assert RecordOk(s.cache, s.users, f, l);
      CountUpdate(s.users, i, s'.users[i], s'.cache.storage[l].residency);
    }
  }

  /** Steps that leave counters and history alone: user i goes on, and only record k changes its value or flag. */
  lemma ValueKeepsInv(s: State, f: int -> int, i: nat, k: int, rec: Record, u: User)
    requires Inv(s, f) && i < |s.users| && !s.users[i].Free? && s.users[i].key == k && k in s.cache.storage
    requires !u.Free? && u.key == k && u.residency == s.users[i].residency
    requires rec == s.cache.storage[k].(value := rec.value, runs := rec.runs, ready := rec.ready)
    requires RecordOk(SetRecord(s.cache, k, rec), s.users[i := u], f, k) && UserOk(SetRecord(s.cache, k, rec), f, u)
    requires forall j | 0 <= j < |s.users| && j != i && !s.users[j].Free? && s.users[j].key == k ::
               UserOk(SetRecord(s.cache, k, rec), f, s.users[j])
    ensures Inv(State(SetRecord(s.cache, k, rec), s.users[i := u]), f)
  {
    var s' := State(SetRecord(s.cache, k, rec), s.users[i := u]);
    assert UserOk(s.cache, f, s.users[i]);
    HistoryKept(s.cache, k, s'.cache);
    forall l | l in s'.cache.storage ensures RecordOk(s'.cache, s'.users, f, l) {
      if l != k {
        assert RecordOk(s.cache, s.users, f, l);
        CountUpdate(s.users, i, u, s.cache.storage[l].residency);
      }
    }
    forall j | 0 <= j < |s'.users| ensures UserOk(s'.cache, f, s'.users[j]) {
      assert UserOk(s.cache, f, s.users[j]);
    }
  }

  /** While one user makes the value of a record, the others only wait for it. */
  lemma OneMaker(s: State, f: int -> int, i: nat, j: nat)
    requires Inv(s, f) && i < |s.users| && j < |s.users| && i != j && !s.users[i].Free?
    requires Makes(s.users[i], s.users[i].residency) && Uses(s.users[j], s.users[i].residency)
    ensures !Makes(s.users[j], s.users[i].residency) && !s.users[j].Live?
  {
    var r := s.users[i].residency;
    assert UserOk(s.cache, f, s.users[i]) && UserOk(s.cache, f, s.users[j]);
    assert RecordOk(s.cache, s.users, f, s.users[i].key) && RecordOk(s.cache, s.users, f, s.users[j].key);
    if Makes(s.users[j], r) {
      if i < j {
        TwoMakers(s.users, i, j, r);
      } else {
        TwoMakers(s.users, j, i, r);
      }
    }
  }

  lemma MakerKeepsInv(s: State, f: int -> int, i: nat, rec: Record, u: User)
    requires Inv(s, f) && i < |s.users| && !s.users[i].Free? && s.users[i].key in s.cache.storage
    requires Makes(s.users[i], s.users[i].residency)
    requires !u.Free? && u.key == s.users[i].key && u.residency == s.users[i].residency
    requires rec == s.cache.storage[u.key].(value := rec.value, runs := rec.runs, ready := rec.ready)
    requires if rec.ready then u.Live? && rec.value == f(u.key) && rec.runs == 1
             else u.Computed? && rec.value == f(u.key) && rec.runs == 1
    ensures Inv(State(SetRecord(s.cache, u.key, rec), s.users[i := u]), f)
  {
    var k := u.key;
    assert UserOk(s.cache, f, s.users[i]) && RecordOk(s.cache, s.users, f, k);
    CountUpdate(s.users, i, u, u.residency);
    forall j | 0 <= j < |s.users| && j != i && !s.users[j].Free? && s.users[j].key == k
      ensures UserOk(SetRecord(s.cache, k, rec), f, s.users[j])
    {
      assert UserOk(s.cache, f, s.users[j]);
      OneMaker(s, f, i, j);
    }
    ValueKeepsInv(s, f, i, k, rec, u);
  }

  lemma AwaitKeepsInv(s: State, f: int -> int, i: nat)
    requires Inv(s, f)
    ensures Inv(Effect(s, f, Await(i)), f)
  {
    var s' := Effect(s, f, Await(i));
    if s' != s {
      var u, k := s'.users[i], s.users[i].key;
      assert UserOk(s.cache, f, s.users[i]) && RecordOk(s.cache, s.users, f, k);
      CountUpdate(s.users, i, u, u.residency);
      assert SetRecord(s.cache, k, s.cache.storage[k]) == s.cache;
      ValueKeepsInv(s, f, i, k, s.cache.storage[k], u);
    }
  }

  lemma TransferKeepsInv(s: State, f: int -> int, i: nat, j: nat)
    requires Inv(s, f)
    ensures Inv(Effect(s, f, Transfer(i, j)), f)
  {
    var s' := Effect(s, f, Transfer(i, j));
    if s' != s {
      forall k | k in s'.cache.storage ensures RecordOk(s'.cache, s'.users, f, k) {
        assert RecordOk(s.cache, s.users, f, k);
        var r := s.cache.storage[k].residency;
        CountUpdate(s.users, i, Free, r);
        CountUpdate(s.users[i := Free], j, s.users[i], r);
      }
    }
  }

  lemma ReleaseMoreKeepsInv(s: State, f: int -> int, i: nat)
    requires Inv(s, f) && i < |s.users| && s.users[i].Live? && s.users[i].key in s.cache.storage
    requires s.cache.storage[s.users[i].key].refCounter > 1
    ensures CanEnd(s.cache, s.users[i].key) && Inv(Effect(s, f, Release(i)), f)
  {
    var k := s.users[i].key;
    var s' := Effect(s, f, Release(i));
    assert UserOk(s.cache, f, s.users[i]) && RecordOk(s.cache, s.users, f, k);
    HistoryKept(s.cache, k, s'.cache);
    forall l | l in s'.cache.storage ensures RecordOk(s'.cache, s'.users, f, l) {
      assert RecordOk(s.cache, s.users, f, l);
      CountUpdate(s.users, i, Free, s.cache.storage[l].residency);
    }
    forall j | 0 <= j < |s'.users| ensures UserOk(s'.cache, f, s'.users[j]) {
      assert UserOk(s.cache, f, s.users[j]);
    }
  }

  /** At most the last entry of the history has to go. */
  lemma EvictsLast(c: Cache)
    requires c.limit >= 1 && |c.history| <= c.limit
    ensures ToEvict(c) <= |c.history| && ToEvict(c) == One(|c.history| == c.limit)
    ensures Evicted(c, ToEvict(c))
         == if |c.history| < c.limit then c
            else (var n := |c.history| - 1; c.(history := c.history[..n], storage := c.storage - {c.history[n]}))
  {
    if |c.history| == c.limit {
      var n := |c.history| - 1;
      var less := c.(history := c.history[..n], storage := c.storage - {c.history[n]});
      assert Evicted(c, 1) == Evicted(less, 0);
    }
  }

  lemma ReleaseLastKeepsInv(s: State, f: int -> int, i: nat)
    requires Inv(s, f) && i < |s.users| && s.users[i].Live? && s.users[i].key in s.cache.storage
    requires s.cache.storage[s.users[i].key].refCounter == 1
    ensures CanEnd(s.cache, s.users[i].key) && Inv(Effect(s, f, Release(i)), f)
  {
    var c, k := s.cache, s.users[i].key;
    var rec := c.storage[k];
    assert UserOk(c, f, s.users[i]) && RecordOk(c, s.users, f, k);
    var less := c.(storage := c.storage[k := rec.(refCounter := 0)]);
    EvictsLast(less);
    var s' := Effect(s, f, Release(i));
    forall l | l in c.history ensures c.storage[l].released < c.clock {
      assert RecordOk(c, s.users, f, l);
    }
    ReleasedHistory(c, k, s'.cache);
    forall l | l in s'.cache.storage ensures RecordOk(s'.cache, s'.users, f, l) {
      assert l in c.storage && RecordOk(c, s.users, f, l);
      CountUpdate(s.users, i, Free, c.storage[l].residency);
    }
    forall j | 0 <= j < |s'.users| ensures UserOk(s'.cache, f, s'.users[j]) {
      assert UserOk(c, f, s.users[j]);
      if j != i && !s.users[j].Free? {
        StillUsed(s, f, i, j);
      }
    }
  }

  /** The evicted record has no users, and the released one had only this one. */
  lemma StillUsed(s: State, f: int -> int, i: nat, j: nat)
    requires Inv(s, f) && i < |s.users| && j < |s.users| && i != j && s.users[i].Live? && !s.users[j].Free?
    requires s.users[i].key in s.cache.storage && s.cache.storage[s.users[i].key].refCounter == 1
    ensures s.users[j].key !in s.cache.history && s.users[j].key != s.users[i].key
  {
    var r := s.users[j].residency;
    assert UserOk(s.cache, f, s.users[i]) && UserOk(s.cache, f, s.users[j]);
    assert RecordOk(s.cache, s.users, f, s.users[j].key);
    CountAtLeast(s.users, j, r);
    if s.users[j].key == s.users[i].key {
      CountUpdate(s.users, i, Free, r);
      assert s.users[i := Free][j] == s.users[j];
      CountAtLeast(s.users[i := Free], j, r);
    }
  }

  lemma ReleasedHistory(c: Cache, k: int, c': Cache)
    requires HistoryOk(c) && k in c.storage && c.storage[k].refCounter == 1 && k !in c.history
    requires CanEnd(c, k) && c' == Ended(c, k)
    requires forall l | l in c.history :: c.storage[l].released < c.clock
    ensures HistoryOk(c')
    ensures forall x :: x in c'.history <==> x == k || (x in c.history && x in c'.storage)
    ensures forall x ::
      x in c'.storage <==> x in c.storage && !(|c.history| == c.limit && x == c.history[|c.history| - 1])
    ensures forall x | x in c'.storage && x != k :: c'.storage[x] == c.storage[x]
    ensures c'.storage[k] == c.storage[k].(refCounter := 0, listed := true, released := c.clock)
  {
    var less := c.(storage := c.storage[k := c.storage[k].(refCounter := 0)]);
    EvictsLast(less);
    HistoryDistinct(c);
    var n := |c.history| - 1;
    if |c.history| == c.limit {
      assert forall x :: x in c.history <==> x in c.history[..n] || x == c.history[n];
      assert c'.history == [k] + c.history[..n];
    } else {
      assert c'.history == [k] + c.history;
    }
    forall a, b | 0 <= a < b < |c'.history| ensures Newer(c', a, b) {
      assert c'.history[b] == c.history[b - 1];
      if a > 0 {
        assert c'.history[a] == c.history[a - 1];
        assert Newer(c, a - 1, b - 1);
      }
    }
  }

  /** Under the invariant every handle can be dropped. */
  lemma CanRelease(s: State, f: int -> int, i: nat)
    requires Inv(s, f) && i < |s.users| && s.users[i].Live?
    ensures s.users[i].key in s.cache.storage && CanEnd(s.cache, s.users[i].key)
    ensures s.cache.storage[s.users[i].key].refCounter >= 1
  {
    var k := s.users[i].key;
    assert UserOk(s.cache, f, s.users[i]) && RecordOk(s.cache, s.users, f, k);
    CountAtLeast(s.users, i, s.users[i].residency);
    EvictsLast(s.cache);
  }

  lemma MakeKeepsInv(s: State, f: int -> int, step: Step)
    requires Inv(s, f) && (step.Compute? || step.Publish?)
    ensures Inv(Effect(s, f, step), f)
  {
    var s' := Effect(s, f, step);
    if s' != s {
      var u, k := s.users[step.i], s.users[step.i].key;
      assert UserOk(s.cache, f, u);
      MakerKeepsInv(s, f, step.i, s'.cache.storage[k], s'.users[step.i]);
    }
  }

  /** Every step keeps the invariant. */
  lemma StepKeepsInv(s: State, f: int -> int, step: Step)
    requires Inv(s, f)
    ensures Inv(Effect(s, f, step), f)
  {
    match step
    case Retrieve(i, k) =>
      if i < |s.users| && s.users[i].Free? {
        if k in s.cache.storage {
          RetrieveOldKeepsInv(s, f, i, k);
        } else {
          RetrieveNewKeepsInv(s, f, i, k);
        }
      }
    case Compute(_) => MakeKeepsInv(s, f, step);
    case Publish(_) => MakeKeepsInv(s, f, step);
    case Await(i) => AwaitKeepsInv(s, f, i);
    case Transfer(i, j) => TransferKeepsInv(s, f, i, j);
    case Release(i) =>
      if i < |s.users| && s.users[i].Live? {
        CanRelease(s, f, i);
        if s.cache.storage[s.users[i].key].refCounter == 1 {
          ReleaseLastKeepsInv(s, f, i);
        } else {
          ReleaseMoreKeepsInv(s, f, i);
        }
      }
  }

  // ---------- every run ----------

  datatype History = Begun(limit: nat, handles: nat) | Then(past: History, step: Step)

  function Limit(h: History): (n: nat) {
    match h
    case Begun(limit, _) => limit
    case Then(past, _) => Limit(past)
  }

  /** The state after any interleaving, from an empty cache and empty handles. */
  function After(h: History, f: int -> int): (s: State)
    requires Limit(h) >= 1
    ensures Inv(s, f) && s.cache.limit == Limit(h)
  {
    match h
    case Begun(limit, handles) =>
      State(Cache(limit, map[], [], 0, 0), seq(handles, i => Free))
    case Then(past, step) =>
      StepKeepsInv(After(past, f), f, step);
      LimitKept(After(past, f), f, step);
      Effect(After(past, f), f, step)
  }

  lemma LimitKept(s: State, f: int -> int, step: Step)
    requires Inv(s, f)
    ensures Effect(s, f, step).cache.limit == s.cache.limit
  {
    if step.Release? && step.i < |s.users| && s.users[step.i].Live? {
      var k := s.users[step.i].key;
      CanRelease(s, f, step.i);
      var rec := s.cache.storage[k];
      EvictsLast(s.cache.(storage := s.cache.storage[k := rec.(refCounter := rec.refCounter - 1)]));
    }
  }

  /**
   A record's counter is the number of its handles and of the retrievals under way; it waits in the
   history just when there are none; and the history keeps to its limit.
   */
  lemma CountersCountHandles(h: History, f: int -> int, k: int)
    requires Limit(h) >= 1 && k in After(h, f).cache.storage
    ensures (var s := After(h, f);
             var rec := s.cache.storage[k];
             && rec.refCounter == Count(s.users, rec.residency)
             && (k in s.cache.history <==> rec.refCounter == 0)
             && |s.cache.history| <= Limit(h))
  {
    assert RecordOk(After(h, f).cache, After(h, f).users, f, k);
  }

  /** No handle dangles, and none was given out before its value had been computed, exactly once. */
  lemma HandlesAreGood(h: History, f: int -> int, i: nat)
    requires Limit(h) >= 1 && i < |After(h, f).users| && After(h, f).users[i].Live?
    ensures (var s, u := After(h, f), After(h, f).users[i];
             && u.key in s.cache.storage
             && var rec := s.cache.storage[u.key];
                rec.residency == u.residency && rec.ready && rec.value == f(u.key) && rec.runs == 1
                && CanEnd(s.cache, u.key))
  {
    var s := After(h, f);
    assert UserOk(s.cache, f, s.users[i]) && RecordOk(s.cache, s.users, f, s.users[i].key);
    CanRelease(s, f, i);
  }

  /** The value function never runs twice for one residency of a key. */
  lemma NeverTwice(h: History, f: int -> int, i: nat)
    requires Limit(h) >= 1 && i < |After(h, f).users|
    requires After(h, f).users[i].Fetching? && After(h, f).users[i].isNew
    ensures (var s, u := After(h, f), After(h, f).users[i];
             && u.key in s.cache.storage && s.cache.storage[u.key].runs == 0
             && forall j | 0 <= j < |s.users| && j != i && Uses(s.users[j], u.residency) ::
                  !Makes(s.users[j], u.residency))
  {
    var s := After(h, f);
    var u := s.users[i];
    assert UserOk(s.cache, f, u);
    forall j | 0 <= j < |s.users| && j != i && Uses(s.users[j], u.residency) ensures !Makes(s.users[j], u.residency) {
      OneMaker(s, f, i, j);
    }
  }

  /** Only the last entry of a full history is evicted, and that by the drop of a last handle. */
  lemma EvictedIsLast(s: State, f: int -> int, step: Step, k: int)
    requires Inv(s, f) && k in s.cache.storage && k !in Effect(s, f, step).cache.storage
    ensures (var c := s.cache; step.Release? && |c.history| == c.limit && k == c.history[|c.history| - 1])
  {
    if step.Release? {
      var c, l := s.cache, s.users[step.i].key;
      CanRelease(s, f, step.i);
      EvictsLast(c.(storage := c.storage[l := c.storage[l].(refCounter := 0)]));
    }
  }

  lemma LastIsOldest(c: Cache, x: int)
    requires HistoryOk(c) && x in c.history && x != c.history[|c.history| - 1]
    ensures c.storage[c.history[|c.history| - 1]].released < c.storage[x].released
  {
    var a :| 0 <= a < |c.history| && c.history[a] == x;
    assert Newer(c, a, |c.history| - 1);
  }

  /** k has no handles, and of the records without handles it was dropped longest ago; the history is full. */
  predicate IsOldest(c: Cache, k: int) {
    && |c.history| == c.limit >= 1 && k == c.history[|c.history| - 1]
    && k in c.storage && c.storage[k].refCounter == 0
    && forall l | l in c.history && l != k :: l in c.storage && c.storage[k].released < c.storage[l].released
  }

  lemma LastIsEvictable(s: State, f: int -> int, k: int)
    requires Inv(s, f) && |s.cache.history| == s.cache.limit && k == s.cache.history[|s.cache.history| - 1]
    ensures IsOldest(s.cache, k)
  {
    assert k in s.cache.history && RecordOk(s.cache, s.users, f, k);
    forall x | x in s.cache.history && x != k
      ensures x in s.cache.storage && s.cache.storage[k].released < s.cache.storage[x].released
    {
      LastIsOldest(s.cache, x);
    }
  }

  /** Only the drop of a last handle evicts, and only the one record without handles that was dropped longest ago. */
  lemma EvictsOldest(h: History, f: int -> int, step: Step, k: int)
    requires Limit(h) >= 1 && k in After(h, f).cache.storage && k !in After(Then(h, step), f).cache.storage
    ensures step.Release? && IsOldest(After(h, f).cache, k)
  {
    var s := After(h, f);
    assert After(Then(h, step), f) == Effect(s, f, step);
    EvictedIsLast(s, f, step, k);
    LastIsEvictable(s, f, k);
  }

  /**
   The limit must be at least one: with limit 0 the first drop of a last handle asks the empty history
   for its last entry.
   */
  lemma NeedsHistory(c: Cache, k: int)
    requires k in c.storage && c.storage[k].refCounter == 1 && |c.history| <= c.limit
    ensures CanEnd(c, k) <==> c.limit >= 1
  {
  }

  lemma LimitZeroFails(k: int)
    ensures !CanEnd(Retrieved(Cache(0, map[], [], 0, 0), k), k)
  {
    NeedsHistory(Retrieved(Cache(0, map[], [], 0, 0), k), k);
  }
}
