/**
 tbb::concurrent_lru_cache (src/intel/include/tbb/concurrent_lru_cache.h): records are counted by the
 handles that refer to them; records without handles wait in a history of limited length.  The two
 serial operations come one at a time from the aggregator.
 */
module HandleCache {

  /** A map record.  `residency` tells apart the records that one key has over time, `runs` counts how
      often its value was computed, and `released` is when its last handle went. */
  datatype Record = Record(value: int, refCounter: nat, listed: bool, ready: bool,
                           residency: nat, runs: nat, released: nat)

  datatype Cache = Cache(limit: nat, storage: map<int, Record>, history: seq<int>, residencies: nat, clock: nat)

  const NO_VALUE := 0

  // ---------- the serial operations ----------

  function Without(s: seq<int>, k: int): (r: seq<int>)
  {
    if s == [] then [] else if s[0] == k then s[1..] else [s[0]] + Without(s[1..], k)
  }

  lemma {:induction false} WithoutAt(s: seq<int>, k: int, i: nat)
    requires i <= |s| && (forall j | 0 <= j < i :: s[j] != k) && (i < |s| ==> s[i] == k)
    ensures Without(s, k) == if i < |s| then s[..i] + s[i + 1..] else s
  {
    if i > 0 {
      var rest := s[1..];
      assert forall j | 0 <= j < i - 1 :: rest[j] == s[j + 1];
      WithoutAt(rest, k, i - 1);
      assert Without(s, k) == [s[0]] + Without(rest, k);
      if i < |s| {
        assert rest[..i - 1] == s[1..i] && rest[i..] == s[i + 1..];
        assert [s[0]] + s[1..i] == s[..i];
      }
    }
  }

  function Retrieved(c: Cache, k: int): (c': Cache)
    ensures k in c'.storage
  {
    if k !in c.storage then
      c.(storage := c.storage[k := Record(NO_VALUE, 1, false, false, c.residencies, 0, 0)],
         residencies := c.residencies + 1)
    else
      var rec := c.storage[k];
      c.(storage := c.storage[k := rec.(refCounter := rec.refCounter + 1, listed := false)],
         history := if rec.listed then Without(c.history, k) else c.history)
  }

  /** The history without its last n entries, and the map without their records. */
  function Evicted(c: Cache, n: nat): (c': Cache)
    requires n <= |c.history|
    decreases n
  {
    if n == 0 then c
    else
      var last := c.history[|c.history| - 1];
      Evicted(c.(history := c.history[..|c.history| - 1], storage := c.storage - {last}), n - 1)
  }

  function ToEvict(c: Cache): (n: nat) {
    if |c.history| >= c.limit then 1 + |c.history| - c.limit else 0
  }

  /** Dropping the last handle fails only if the history has fewer entries than are to be evicted. */
  predicate CanEnd(c: Cache, k: int) {
    && k in c.storage && c.storage[k].refCounter >= 1
    && (c.storage[k].refCounter == 1 ==> ToEvict(c) <= |c.history|)
  }

  function Ended(c: Cache, k: int): (c': Cache)
    requires CanEnd(c, k)
  {
    var rec := c.storage[k];
    var less := c.(storage := c.storage[k := rec.(refCounter := rec.refCounter - 1)]);
    if rec.refCounter > 1 then less
    else
      var e := Evicted(less, ToEvict(less));
      e.(storage := e.storage[k := rec.(refCounter := 0, listed := true, released := c.clock)],
         history := [k] + e.history, clock := c.clock + 1)
  }

  class ConcurrentLruCache {
    const limit: nat
    var storage: map<int, Record>
    var history: seq<int>
    var residencies: nat  // these two only name records and moments for the proofs
    var clock: nat

    ghost function Model(): (c: Cache)
      reads this
    {
      Cache(limit, storage, history, residencies, clock)
    }

    constructor (limit: nat)
      ensures Model() == Cache(limit, map[], [], 0, 0)
    {
      this.limit, storage, history, residencies, clock := limit, map[], [], 0, 0;
    }

    /** list.erase of the one entry of k. */
    method EraseFromHistory(k: int)
      modifies this`history
      ensures history == Without(old(history), k)
    {
      var i := 0;
      while i < |history| && history[i] != k
        invariant i <= |history| && forall j | 0 <= j < i :: history[j] != k
      {
        i := i + 1;
      }
      WithoutAt(history, k, i);
      if i < |history| {
        history := history[..i] + history[i + 1..];
      }
    }

    method RetrieveSerial(k: int) returns (isNewValueNeeded: bool)
      modifies this
      ensures Model() == Retrieved(old(Model()), k) && isNewValueNeeded == (k !in old(storage))
    {
      isNewValueNeeded := false;
      if k !in storage {
        storage := storage[k := Record(NO_VALUE, 0, false, false, residencies, 0, 0)];
        residencies := residencies + 1;
        isNewValueNeeded := true;
      } else if storage[k].listed {
        EraseFromHistory(k);
        storage := storage[k := storage[k].(listed := false)];
      }
      storage := storage[k := storage[k].(refCounter := storage[k].refCounter + 1)];
    }

    /** ok is false where the program would take the last entry of an empty history. */
    method SignalEndOfUsageSerial(k: int) returns (ok: bool)
      requires k in storage && storage[k].refCounter >= 1 && k !in history
      modifies this
      ensures ok == CanEnd(old(Model()), k)
      ensures ok ==> Model() == Ended(old(Model()), k)
    {
      ghost var c := Model();
      storage := storage[k := storage[k].(refCounter := storage[k].refCounter - 1)];
      if storage[k].refCounter == 0 {
        if |history| >= limit {
          var n := 1 + |history| - limit;
          ghost var less := Model();
          var i := 0;
          while i < n
            invariant 0 <= i <= n && i <= |less.history| && k !in history
            invariant |history| == |less.history| - i && k in storage && storage[k] == less.storage[k]
            invariant n <= |less.history| ==> Evicted(Model(), n - i) == Evicted(less, n)
            invariant residencies == old(residencies) && clock == old(clock)
          {
            if history == [] {
              return false;
            }
            var itToEvict := history[|history| - 1];
            history := history[..|history| - 1];
            storage := storage - {itToEvict};
            i := i + 1;
          }
        }
        history := [k] + history;
        storage := storage[k := storage[k].(listed := true, released := clock)];
        clock := clock + 1;
      }
      ok := true;
    }
  }
}
