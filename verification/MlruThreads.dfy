/**
 OnCacheMLRU (src/caches/oncachemlru.h) under any number of threads, with a reader-writer lock for each
 basket.  A thread takes the lock of one basket, works on what it then sees, and writes back what it
 changed when it gives the lock back; in between the others go on with other baskets and with their own
 nodes.  What a locked region does to what it sees is what the methods of `OnCacheMLRU` are proved to do.
 */
module MlruThreads {
  import opened CacheNodes
  import opened BasketViews

  /** Where a thread stands; `view` is the pool as it was when the thread took the lock of `basket`. */
  datatype Phase =
    | Idle
    | Claiming(key: nat, data: int)            // in the test_and_set loop of allocNode
    | Claimed(node: int, key: nat, data: int)  // owns the node, which may still hold an entry
    | Unlinking(node: int, key: nat, data: int, basket: nat, view: View)  // in allocNode, as a writer
    | Clean(node: int, key: nat, data: int)    // owns a blank node
    | Filled(node: int, key: nat, data: int)   // the node holds the new entry, not yet published
    | Linking(node: int, key: nat, data: int, basket: nat, view: View)    // in insertN, as a writer
    | Published(node: int)                     // about to clear in_use
    | Reading(key: nat, basket: nat, view: View)                          // in getData, as a reader
  {
    predicate Owns() {
      Claimed? || Unlinking? || Clean? || Filled? || Linking? || Published?
    }

    predicate Writes() {
      Unlinking? || Linking?
    }

    predicate Locks() {
      Writes() || Reading?
    }
  }

  datatype State = State(cache: View, inUse: seq<bool>, threads: seq<Phase>)

  /** What a caller asks for, or what a step does to the cache as its callers see it. */
  datatype Event =
    | Silent
    | Inserts(key: nat, data: int)  // insertNode(key, data) is called
    | Asks(key: nat)                // getData(key) is called, and gets its lock
    | Put(key: nat, data: int)
    | Drop(evicted: int)
    | Get(key: nat, result: int)

  /** No other thread has the lock of basket k. */
  predicate FreeToWrite(s: State, t: nat, k: nat) {
    forall u | 0 <= u < |s.threads| && u != t && s.threads[u].Locks() :: s.threads[u].basket != k
  }

  /** No other thread has the lock of basket k as a writer. */
  predicate FreeToRead(s: State, t: nat, k: nat) {
    forall u | 0 <= u < |s.threads| && u != t && s.threads[u].Writes() :: s.threads[u].basket != k
  }

  // ---------- the steps of thread t ----------

  predicate Begin(s: State, s': State, t: nat, key: nat, data: int)
    requires t < |s.threads|
  {
    s.threads[t].Idle? && s' == s.(threads := s.threads[t := Claiming(key, data)])
  }

  /**
   One round of the claim loop.  The counter only proposes a slot, and other threads may increment
   and reset it in between, so any slot can be drawn; the test_and_set decides.
   */
  predicate Claim(s: State, s': State, t: nat)
    requires t < |s.threads|
  {
    var ph := s.threads[t];
    && ph.Claiming?
    && exists id ::
         && 0 <= id < |s.inUse|
         && if s.inUse[id] then s' == s
            else s' == s.(inUse := s.inUse[id := true], threads := s.threads[t := Claimed(id, ph.key, ph.data)])
  }

  /** The claimed node holds an entry: the lock of its basket is needed to unlink it. */
  predicate LockToUnlink(s: State, s': State, t: nat)
    requires t < |s.threads|
  {
    var ph := s.threads[t];
    && ph.Claimed? && 0 <= ph.node < |s.cache.pool| && 0 < |s.cache.baskets| && s.cache.pool[ph.node].key != NO_KEY
    && var k := BasketOf(s.cache, s.cache.pool[ph.node].hash);
       && FreeToWrite(s, t, k)
       && s' == s.(threads := s.threads[t := Unlinking(ph.node, ph.key, ph.data, k, s.cache)])
  }

  /** The node is unlinked and the lock given back; that it is cleared only then matters to nobody else. */
  ghost predicate Unlink(s: State, s': State, t: nat)
    requires t < |s.threads|
  {
    var ph := s.threads[t];
    && ph.Unlinking?
    && (exists mine ::
          && EvictsFrom(ph.view, mine, ph.node) && Comparable(ph.view, mine)
          && Comparable(ph.view, s.cache) && Comparable(ph.view, s'.cache)
          && WrittenBack(ph.view, mine, s.cache, s'.cache))
    && s' == s.(cache := s'.cache, threads := s.threads[t := Clean(ph.node, ph.key, ph.data)])
  }

  predicate Skip(s: State, s': State, t: nat)
    requires t < |s.threads|
  {
    var ph := s.threads[t];
    && ph.Claimed? && 0 <= ph.node < |s.cache.pool| && s.cache.pool[ph.node].key == NO_KEY
    && s' == s.(threads := s.threads[t := Clean(ph.node, ph.key, ph.data)])
  }

  predicate Fill(s: State, s': State, t: nat, getHash: int -> nat)
    requires t < |s.threads|
  {
    var ph := s.threads[t];
    && ph.Clean? && 0 <= ph.node < |s.cache.pool|
    && var n := s.cache.pool[ph.node].(hash := getHash(ph.key), key := ph.key, data := ph.data);
       s' == s.(cache := s.cache.(pool := s.cache.pool[ph.node := n]),
                threads := s.threads[t := Filled(ph.node, ph.key, ph.data)])
  }

  /** The lock of the new entry's basket. */
  predicate LockToLink(s: State, s': State, t: nat, getHash: int -> nat)
    requires t < |s.threads|
  {
    var ph := s.threads[t];
    && ph.Filled? && 0 < |s.cache.baskets|
    && var k := BasketOf(s.cache, getHash(ph.key));
       && FreeToWrite(s, t, k)
       && s' == s.(threads := s.threads[t := Linking(ph.node, ph.key, ph.data, k, s.cache)])
  }

  ghost predicate Publish(s: State, s': State, t: nat)
    requires t < |s.threads|
  {
    var ph := s.threads[t];
    && ph.Linking?
    && (exists mine ::
          && StoresIn(ph.view, mine, ph.node) && Comparable(ph.view, mine)
          && Comparable(ph.view, s.cache) && Comparable(ph.view, s'.cache)
          && WrittenBack(ph.view, mine, s.cache, s'.cache))
    && s' == s.(cache := s'.cache, threads := s.threads[t := Published(ph.node)])
  }

  predicate Release(s: State, s': State, t: nat)
    requires t < |s.threads|
  {
    var ph := s.threads[t];
    && ph.Published? && 0 <= ph.node < |s.inUse|
    && s' == s.(inUse := s.inUse[ph.node := false], threads := s.threads[t := Idle])
  }

  predicate LockToRead(s: State, s': State, t: nat, key: nat, getHash: int -> nat)
    requires t < |s.threads|
  {
    && s.threads[t].Idle? && 0 < |s.cache.baskets|
    && var k := BasketOf(s.cache, getHash(key));
       FreeToRead(s, t, k) && s' == s.(threads := s.threads[t := Reading(key, k, s.cache)])
  }

  /** getData answers from what it saw, as `OnCacheMLRU.GetData` is proved to answer. */
  ghost predicate Answer(s: State, s': State, t: nat, result: int)
    requires t < |s.threads|
  {
    var ph := s.threads[t];
    && ph.Reading? && Inside(ph.view.pool, ph.view.linked) && NodesOk(ph.view.pool, ph.view.linked)
    && result == Lookup(Map(ph.view), ph.key)
    && s' == s.(threads := s.threads[t := Idle])
  }

  function Lookup(m: map<int, int>, key: int): int {
    if key in m then m[key] else NIL
  }

  /** A step of thread t. */
  ghost predicate Step(s: State, e: Event, s': State, t: nat, getHash: int -> nat)
    requires t < |s.threads|
  {
    || (e.Inserts? && Begin(s, s', t, e.key, e.data))
    || (e.Asks? && LockToRead(s, s', t, e.key, getHash))
    || (e.Silent? && (Claim(s, s', t) || Skip(s, s', t) || Fill(s, s', t, getHash) || Release(s, s', t)))
    || (e.Silent? && (LockToUnlink(s, s', t) || LockToLink(s, s', t, getHash)))
    || (Unlink(s, s', t) && EventOfUnlink(s, t, e))
    || (Publish(s, s', t) && e == Put(s.threads[t].key, s.threads[t].data))
    || (e.Get? && Answer(s, s', t, e.result) && e.key == s.threads[t].key)
  }

  predicate EventOfUnlink(s: State, t: nat, e: Event)
    requires t < |s.threads| && s.threads[t].Unlinking?
  {
    var ph := s.threads[t];
    0 <= ph.node < |ph.view.pool| && e == Drop(ph.view.pool[ph.node].key)
  }

  // ---------- the invariant ----------

  /** What the thread saw of its basket is still so. */
  ghost predicate Seen(s: State, ph: Phase, getHash: int -> nat)
    requires ph.Locks()
  {
    Whole(ph.view, getHash) && Comparable(ph.view, s.cache) && SameBasket(ph.view, s.cache, ph.basket)
  }

  /** Node n holds the entry that a thread is about to publish, and is in no list. */
  ghost predicate Private(v: View, n: int, key: nat, data: int, getHash: int -> nat) {
    && 0 <= n < |v.pool| && n !in v.linked
    && v.pool[n].key == key && v.pool[n].data == data && v.pool[n].hash == getHash(key)
    && v.pool[n].fwdPtrH == NIL && v.pool[n].fwdPtrsL == [NIL, NIL, NIL]
  }

  /** What a thread may rely on about the node it owns. */
  ghost predicate OwnOk(s: State, ph: Phase, getHash: int -> nat)
    requires ph.Owns()
  {
    && 0 <= ph.node < |s.cache.pool| == |s.inUse| && s.inUse[ph.node]
    && (ph.Claimed? || ph.Published? ==> ph.node in s.cache.linked || Blank(s.cache.pool[ph.node]))
    && (ph.Clean? ==> ph.node !in s.cache.linked && Blank(s.cache.pool[ph.node]))
    && (ph.Filled? || ph.Linking? ==> Private(s.cache, ph.node, ph.key, ph.data, getHash))
  }

  ghost predicate PhaseOk(s: State, t: nat, getHash: int -> nat)
    requires t < |s.threads|
  {
    var ph := s.threads[t];
    && (ph.Owns() ==> OwnOk(s, ph, getHash))
    && (ph.Locks() ==> Seen(s, ph, getHash))
    && (ph.Unlinking? ==> ph.node in ph.view.linked && InBasket(ph.view, ph.node, ph.basket))
    && (ph.Linking? ==>
          && ph.node !in ph.view.linked && ph.view.pool[ph.node] == s.cache.pool[ph.node]
          && ph.basket == BasketOf(ph.view, getHash(ph.key)))
    && (ph.Reading? ==> ph.basket == BasketOf(ph.view, getHash(ph.key)))
  }

  /** A writer of a basket is alone with it. */
  predicate Exclusive(s: State) {
    forall t, u |
      0 <= t < |s.threads| && 0 <= u < |s.threads| && t != u && s.threads[t].Writes() && s.threads[u].Locks() ::
      s.threads[t].basket != s.threads[u].basket
  }

  /** No pool node has two owners. */
  predicate OneOwner(s: State) {
    forall t, u | 0 <= t < |s.threads| && 0 <= u < |s.threads| && s.threads[t].Owns() && s.threads[u].Owns() ::
      s.threads[t].node == s.threads[u].node ==> t == u
  }

  ghost predicate Inv(s: State, getHash: int -> nat) {
    && Whole(s.cache, getHash) && |s.inUse| == |s.cache.pool|
    && (forall t {:trigger PhaseOk(s, t, getHash)} | 0 <= t < |s.threads| :: PhaseOk(s, t, getHash))
    && OneOwner(s) && Exclusive(s)
    && (forall i | 0 <= i < |s.cache.pool| && !s.inUse[i] :: i in s.cache.linked || Blank(s.cache.pool[i]))
  }

  predicate Init(s: State) {
    && 0 < |s.cache.pool| == |s.cache.baskets| == |s.inUse|
    && s.cache.linked == {}
    && (forall i | 0 <= i < |s.cache.pool| :: Blank(s.cache.pool[i]) && s.cache.baskets[i] == NIL && !s.inUse[i])
    && (forall t | 0 <= t < |s.threads| :: s.threads[t].Idle?)
  }

  // ---------- every step keeps the invariant ----------

  /** What a step of `t` may do: to its own node `mine`, and to basket `k` (none if negative). */
  ghost predicate Confined(s: State, s': State, t: nat, mine: int, k: int) {
    && t < |s.threads| == |s'.threads| && Comparable(s.cache, s'.cache) && |s.inUse| == |s'.inUse| == |s'.cache.pool|
    && (forall u | 0 <= u < |s.threads| && u != t ::
          s'.threads[u] == s.threads[u]
          && (s.threads[u].Owns() ==> s.threads[u].node != mine) && (s.threads[u].Locks() ==> s.threads[u].basket != k))
    && (forall i | 0 <= i < |s.cache.pool| && i != mine ::
          && s'.inUse[i] == s.inUse[i] && (i in s'.cache.linked <==> i in s.cache.linked)
          && (i !in s.cache.linked ==> s'.cache.pool[i] == s.cache.pool[i]))
    && (forall i {:trigger SameBasket(s.cache, s'.cache, i)} | 0 <= i < |s.cache.baskets| && i != k ::
          SameBasket(s.cache, s'.cache, i))
  }

  lemma OtherKeeps(s: State, s': State, t: nat, mine: int, k: int, u: nat, getHash: int -> nat)
    requires |s.inUse| == |s.cache.pool| && u < |s.threads| && u != t && PhaseOk(s, u, getHash)
    requires Confined(s, s', t, mine, k)
    ensures PhaseOk(s', u, getHash)
  {
    var ph := s.threads[u];
    assert s'.threads[u] == ph;
    if ph.Locks() {
      assert SameBasket(s.cache, s'.cache, ph.basket);
      SameBasketTransitive(ph.view, s.cache, s'.cache, ph.basket);
    }
  }

  lemma OthersKeep(s: State, s': State, t: nat, mine: int, k: int, getHash: int -> nat)
    requires Inv(s, getHash) && Confined(s, s', t, mine, k) && PhaseOk(s', t, getHash)
    ensures forall u {:trigger PhaseOk(s', u, getHash)} | 0 <= u < |s'.threads| :: PhaseOk(s', u, getHash)
  {
    forall u | 0 <= u < |s.threads| && u != t ensures PhaseOk(s', u, getHash) {
      assert PhaseOk(s, u, getHash);
      OtherKeeps(s, s', t, mine, k, u, getHash);
    }
  }

  /** Only thread t moves on; the cache stays as it is. */
  lemma MoveKeepsInv(s: State, s': State, t: nat, getHash: int -> nat)
    requires Inv(s, getHash) && t < |s.threads|
    requires |s'.threads| == |s.threads| && s' == s.(threads := s.threads[t := s'.threads[t]])
             && PhaseOk(s', t, getHash)
    requires s'.threads[t].Owns() ==> s.threads[t].Owns() && s'.threads[t].node == s.threads[t].node
    requires s'.threads[t].Writes() ==> FreeToWrite(s, t, s'.threads[t].basket)
    requires s'.threads[t].Locks() ==> FreeToRead(s, t, s'.threads[t].basket)
    ensures Inv(s', getHash)
  {
    var mine := if s.threads[t].Owns() then s.threads[t].node else NIL;
    forall u | 0 <= u < |s.threads| && u != t && s.threads[u].Owns() ensures s.threads[u].node != mine {
      assert PhaseOk(s, u, getHash);
    }
    assert Confined(s, s', t, mine, -1);
    OthersKeep(s, s', t, mine, -1, getHash);
  }

  lemma InvAfterClaim(s: State, s': State, t: nat, getHash: int -> nat)
    requires Inv(s, getHash) && t < |s.threads| && Claim(s, s', t)
    ensures Inv(s', getHash) && s'.cache == s.cache
  {
    if s' != s {
      NewOwnerIsOnly(s, s', t, getHash);
      assert PhaseOk(s', t, getHash);
      assert Confined(s, s', t, s'.threads[t].node, -1);
      OthersKeep(s, s', t, s'.threads[t].node, -1, getHash);
    }
  }

  /** A node whose in_use flag is clear has no owner yet. */
  lemma NewOwnerIsOnly(s: State, s': State, t: nat, getHash: int -> nat)
    requires Inv(s, getHash) && t < |s.threads| && Claim(s, s', t) && s' != s
    ensures OneOwner(s')
    ensures forall u | 0 <= u < |s.threads| && u != t && s.threads[u].Owns() :: s.threads[u].node != s'.threads[t].node
  {
    forall u | 0 <= u < |s.threads| && u != t && s.threads[u].Owns()
      ensures s.threads[u].node != s'.threads[t].node
    {
      assert PhaseOk(s, u, getHash);
    }
  }

  /** A node with an entry is linked, so it is in the basket that its hash selects. */
  lemma InvAfterLock(s: State, s': State, t: nat, getHash: int -> nat)
    requires Inv(s, getHash) && t < |s.threads|
    requires LockToUnlink(s, s', t) || LockToLink(s, s', t, getHash)
             || exists key: nat :: LockToRead(s, s', t, key, getHash)
    ensures Inv(s', getHash) && s'.cache == s.cache
  {
    assert PhaseOk(s, t, getHash);
    var ph := s'.threads[t];
    assert SameBasket(ph.view, s.cache, ph.basket);
    assert ph.Unlinking? ==> InBasket(ph.view, ph.node, ph.basket);
    MoveKeepsInv(s, s', t, getHash);
  }

  /** Although others worked on other baskets meanwhile, the region is one step on the pool as it is now. */
  lemma UnlinkIsAtomic(s: State, s': State, t: nat, getHash: int -> nat) returns (mine: View)
    requires Inv(s, getHash) && t < |s.threads| && Unlink(s, s', t)
    ensures (var ph := s.threads[t];
             && EvictsFrom(s.cache, s'.cache, ph.node) && Whole(s'.cache, getHash)
             && Comparable(s'.cache, s.cache) && Comparable(s'.cache, mine)
             && Merged(s'.cache, mine, s.cache, ph.basket)
             && EventOfUnlink(s, t, Drop(s.cache.pool[ph.node].key)))
  {
    var ph := s.threads[t];
    assert PhaseOk(s, t, getHash);
    mine :| EvictsFrom(ph.view, mine, ph.node) && Comparable(ph.view, mine)
      && WrittenBack(ph.view, mine, s.cache, s'.cache);
    EvictIsAtomic(ph.view, mine, s.cache, s'.cache, ph.node, getHash);
    assert InBasket(ph.view, ph.node, ph.basket) && InBasket(s.cache, ph.node, ph.basket);
  }

  lemma InvAfterUnlink(s: State, s': State, t: nat, getHash: int -> nat)
    requires Inv(s, getHash) && t < |s.threads| && Unlink(s, s', t)
    ensures Inv(s', getHash)
    ensures (var n := s.threads[t].node;
             && 0 <= n < |s.cache.pool| && EventOfUnlink(s, t, Drop(s.cache.pool[n].key))
             && Map(s'.cache) == Map(s.cache) - {s.cache.pool[n].key})
  {
    var n, k := s.threads[t].node, s.threads[t].basket;
    assert PhaseOk(s, t, getHash);
    var mine := UnlinkIsAtomic(s, s', t, getHash);
    EvictsContents(s.cache.pool, s.cache.baskets, s.cache.linked, s'.cache.pool, s'.cache.baskets, s'.cache.linked, n);
    MergedConfined(s, s', t, mine, n, k, getHash);
    EvictedPhase(s, s', t, getHash);
    AfterRegion(s, s', t, n, k, getHash);
  }

  lemma EvictedPhase(s: State, s': State, t: nat, getHash: int -> nat)
    requires t < |s.threads| == |s'.threads| && s.threads[t].Unlinking? && PhaseOk(s, t, getHash)
    requires EvictsFrom(s.cache, s'.cache, s.threads[t].node) && s'.inUse == s.inUse
    requires s'.threads[t] == Clean(s.threads[t].node, s.threads[t].key, s.threads[t].data)
    ensures PhaseOk(s', t, getHash)
  {
  }

  lemma MergedConfined(s: State, s': State, t: nat, mine: View, n: int, k: nat, getHash: int -> nat)
    requires Inv(s, getHash) && t < |s.threads| && s.threads[t].Writes() && s.threads[t].node == n
             && s.threads[t].basket == k
    requires |s'.threads| == |s.threads| && s' == s.(cache := s'.cache, threads := s.threads[t := s'.threads[t]])
    requires EvictsFrom(s.cache, s'.cache, n) || StoresIn(s.cache, s'.cache, n)
    requires Comparable(s'.cache, s.cache) && Comparable(s'.cache, mine) && Merged(s'.cache, mine, s.cache, k)
    ensures Confined(s, s', t, n, k)
  {
    forall i | 0 <= i < |s.cache.baskets| && i != k ensures SameBasket(s.cache, s'.cache, i) {
      assert SameBasket(s'.cache, s.cache, i);
    }
    forall u | 0 <= u < |s.threads| && u != t && s.threads[u].Owns() ensures s.threads[u].node != n {
    }
  }

  /** A region is over: the thread has its node to itself and no lock. */
  lemma AfterRegion(s: State, s': State, t: nat, n: int, k: nat, getHash: int -> nat)
    requires Inv(s, getHash) && Confined(s, s', t, n, k) && s'.inUse == s.inUse && Whole(s'.cache, getHash)
    requires s.threads[t].Owns() && s.threads[t].node == n && s'.threads[t].Owns() && s'.threads[t].node == n
    requires !s'.threads[t].Locks() && PhaseOk(s', t, getHash)
    ensures Inv(s', getHash)
  {
    OthersKeep(s, s', t, n, k, getHash);
    assert PhaseOk(s, t, getHash);
    forall i | 0 <= i < |s'.cache.pool| && !s'.inUse[i] ensures i in s'.cache.linked || Blank(s'.cache.pool[i]) {
      assert i != n;
    }
  }

  lemma PublishIsAtomic(s: State, s': State, t: nat, getHash: int -> nat) returns (mine: View)
    requires Inv(s, getHash) && t < |s.threads| && Publish(s, s', t)
    ensures (var ph := s.threads[t];
             && StoresIn(s.cache, s'.cache, ph.node) && Whole(s'.cache, getHash)
             && Comparable(s'.cache, s.cache) && Comparable(s'.cache, mine)
             && Merged(s'.cache, mine, s.cache, ph.basket))
  {
    var ph := s.threads[t];
    assert PhaseOk(s, t, getHash);
    mine :| StoresIn(ph.view, mine, ph.node) && Comparable(ph.view, mine)
      && WrittenBack(ph.view, mine, s.cache, s'.cache);
    StoreIsAtomic(ph.view, mine, s.cache, s'.cache, ph.node, getHash);
  }

  lemma InvAfterPublish(s: State, s': State, t: nat, getHash: int -> nat)
    requires Inv(s, getHash) && t < |s.threads| && Publish(s, s', t)
    ensures Inv(s', getHash)
    ensures Map(s'.cache) == Map(s.cache)[s.threads[t].key := s.threads[t].data]
  {
    var n, k := s.threads[t].node, s.threads[t].basket;
    assert PhaseOk(s, t, getHash);
    var mine := PublishIsAtomic(s, s', t, getHash);
    StoresContents(s.cache.pool, s.cache.baskets, s.cache.linked, s'.cache.pool, s'.cache.baskets, s'.cache.linked, n);
    MergedConfined(s, s', t, mine, n, k, getHash);
    StoredPhase(s, s', t, getHash);
    AfterRegion(s, s', t, n, k, getHash);
  }

  /** The node is linked, or was left blank by the node that took over its data. */
  lemma StoredPhase(s: State, s': State, t: nat, getHash: int -> nat)
    requires t < |s.threads| == |s'.threads| && s.threads[t].Linking? && PhaseOk(s, t, getHash)
    requires StoresIn(s.cache, s'.cache, s.threads[t].node) && s'.threads[t] == Published(s.threads[t].node)
    requires s'.inUse == s.inUse
    ensures PhaseOk(s', t, getHash)
  {
  }

  lemma InvAfterSkip(s: State, s': State, t: nat, getHash: int -> nat)
    requires Inv(s, getHash) && t < |s.threads| && Skip(s, s', t)
    ensures Inv(s', getHash) && s'.cache == s.cache
  {
    assert PhaseOk(s, t, getHash);
    MoveKeepsInv(s, s', t, getHash);
  }

  lemma InvAfterRelease(s: State, s': State, t: nat, getHash: int -> nat)
    requires Inv(s, getHash) && t < |s.threads| && Release(s, s', t)
    ensures Inv(s', getHash) && s'.cache == s.cache
  {
    assert PhaseOk(s, t, getHash);
    assert Confined(s, s', t, s.threads[t].node, -1);
    OthersKeep(s, s', t, s.threads[t].node, -1, getHash);
  }

  lemma InvAfterFill(s: State, s': State, t: nat, getHash: int -> nat)
    requires Inv(s, getHash) && t < |s.threads| && Fill(s, s', t, getHash)
    ensures Inv(s', getHash) && Map(s'.cache) == Map(s.cache)
  {
    assert PhaseOk(s, t, getHash);
    var n := s.threads[t].node;
    ShapeIgnores(s.cache.pool, s.cache.baskets, s.cache.linked, s'.cache.pool);
    SameContents(s.cache.pool, s.cache.linked, s'.cache.pool);
    FillConfined(s, s', t, getHash);
    AfterRegion(s, s', t, n, |s.cache.baskets|, getHash);
  }

  lemma FillConfined(s: State, s': State, t: nat, getHash: int -> nat)
    requires Inv(s, getHash) && t < |s.threads| && Fill(s, s', t, getHash)
    ensures Confined(s, s', t, s.threads[t].node, |s.cache.baskets|)
  {
    assert PhaseOk(s, t, getHash);
    forall u | 0 <= u < |s.threads| && u != t && s.threads[u].Locks() ensures s.threads[u].basket != |s.cache.baskets| {
      assert PhaseOk(s, u, getHash);
    }
  }

  lemma InvAfterBegin(s: State, s': State, t: nat, key: nat, data: int, getHash: int -> nat)
    requires Inv(s, getHash) && t < |s.threads| && Begin(s, s', t, key, data)
    ensures Inv(s', getHash) && s'.cache == s.cache
  {
    MoveKeepsInv(s, s', t, getHash);
  }

  lemma InvAfterAnswer(s: State, s': State, t: nat, result: int, getHash: int -> nat)
    requires Inv(s, getHash) && t < |s.threads| && Answer(s, s', t, result)
    ensures Inv(s', getHash) && s'.cache == s.cache && result == Lookup(Map(s.cache), s.threads[t].key)
  {
    assert PhaseOk(s, t, getHash);
    ReadIsAtomic(s.threads[t].view, s.cache, s.threads[t].key, getHash);
    MoveKeepsInv(s, s', t, getHash);
  }

  /** The map after an event. */
  function Apply(m: map<int, int>, e: Event): map<int, int> {
    match e
    case Put(key, data) => m[key := data]
    case Drop(evicted) => m - {evicted}
    case _ => m
  }

  /** A step keeps the invariant and does to the cached map exactly what its event says. */
  ghost predicate Sound(s: State, e: Event, s': State, getHash: int -> nat)
    requires Inv(s, getHash)
  {
    && Inv(s', getHash) && Map(s'.cache) == Apply(Map(s.cache), e)
    && (e.Get? ==> e.result == Lookup(Map(s.cache), e.key))
  }

  lemma SilentStepSound(s: State, e: Event, s': State, t: nat, getHash: int -> nat)
    requires Inv(s, getHash) && t < |s.threads| && e.Silent? && Step(s, e, s', t, getHash)
    ensures Sound(s, e, s', getHash)
  {
    match s.threads[t]
    case Claiming(_, _) => InvAfterClaim(s, s', t, getHash);
    case Claimed(_, _, _) =>
      if Skip(s, s', t) {
        InvAfterSkip(s, s', t, getHash);
      } else {
        InvAfterLock(s, s', t, getHash);
      }
    case Clean(_, _, _) => InvAfterFill(s, s', t, getHash);
    case Filled(_, _, _) => InvAfterLock(s, s', t, getHash);
    case Published(_) => InvAfterRelease(s, s', t, getHash);
    case _ =>
  }

  lemma StepSound(s: State, e: Event, s': State, t: nat, getHash: int -> nat)
    requires Inv(s, getHash) && t < |s.threads| && Step(s, e, s', t, getHash)
    ensures Sound(s, e, s', getHash)
  {
    match e
    case Silent => SilentStepSound(s, e, s', t, getHash);
    case Inserts(key, data) => InvAfterBegin(s, s', t, key, data, getHash);
    case Asks(_) => InvAfterLock(s, s', t, getHash);
    case Drop(_) => InvAfterUnlink(s, s', t, getHash);
    case Put(_, _) => InvAfterPublish(s, s', t, getHash);
    case Get(_, result) => InvAfterAnswer(s, s', t, result, getHash);
  }

  // ---------- whole runs ----------

  /** A run so far: each step with its thread, its event and the state after it. */
  datatype Trace = Begun(start: State) | Then(past: Trace, thread: nat, event: Event, state: State)

  function Last(tr: Trace): (s: State) {
    match tr
    case Begun(s) => s
    case Then(_, _, _, s) => s
  }

  ghost predicate Run(tr: Trace, getHash: int -> nat) {
    match tr
    case Begun(s) => Init(s)
    case Then(past, t, e, s) =>
      Run(past, getHash) && t < |Last(past).threads| && Step(Last(past), e, s, t, getHash)
  }

  /** A sequential map with evictions that takes the events one after the other. */
  function Replay(tr: Trace): (m: map<int, int>) {
    match tr
    case Begun(_) => map[]
    case Then(past, _, e, _) => Apply(Replay(past), e)
  }

  /** Every getData so far answered from the replay of the events before it. */
  predicate ReadsReplay(tr: Trace) {
    match tr
    case Begun(_) => true
    case Then(past, _, e, _) => ReadsReplay(past) && (e.Get? ==> e.result == Lookup(Replay(past), e.key))
  }

  lemma InitOk(s: State, getHash: int -> nat)
    requires Init(s)
    ensures Inv(s, getHash) && Map(s.cache) == map[]
  {
    forall i | 0 <= i < |s.cache.baskets| ensures BasketAt(s.cache.pool, s.cache.baskets, s.cache.linked, i) {
    }
    ContentsUnique(map[], s.cache.pool, s.cache.linked);
  }

  /**
   Every run linearizes to a map with evictions: the cached map is the replay of the events so far,
   and every getData answered from the replay of the events before it.
   */
  lemma {:induction false} RunLinearizes(tr: Trace, getHash: int -> nat)
    requires Run(tr, getHash)
    ensures Inv(Last(tr), getHash) && Map(Last(tr).cache) == Replay(tr) && ReadsReplay(tr)
  {
    match tr
    case Begun(s) => InitOk(s, getHash);
    case Then(past, t, e, s) =>
      RunLinearizes(past, getHash);
      StepSound(Last(past), e, s, t, getHash);
  }

  // ---------- each call takes effect once ----------

  /** What happened to the calls: thread `thread` begins one, evicts an entry for it, or the call takes effect. */
  datatype Log =
    | Empty
    | Insert(before: Log, thread: nat, key: nat, data: int)
    | Read(before: Log, thread: nat, key: nat)
    | Evict(before: Log, thread: nat, evicted: int)
    | Effect(before: Log, thread: nat, event: Event)

  function Logged(log: Log, t: nat, e: Event): (log': Log) {
    match e
    case Silent => log
    case Inserts(key, data) => Insert(log, t, key, data)
    case Asks(key) => Read(log, t, key)
    case Drop(evicted) => Evict(log, t, evicted)
    case _ => Effect(log, t, e)
  }

  lemma StepOfOne(s: State, e: Event, s': State, t: nat, getHash: int -> nat)
    requires t < |s.threads| && Step(s, e, s', t, getHash)
    ensures |s'.threads| == |s.threads| && s'.threads == s.threads[t := s'.threads[t]]
  {
  }

  /** The log of a run, from its threads and events alone. */
  function Calls(tr: Trace): (log: Log) {
    match tr
    case Begun(_) => Empty
    case Then(past, t, e, _) => Logged(Calls(past), t, e)
  }

  /** The entries of thread t. */
  function Own(log: Log, t: nat): (own: Log) {
    match log
    case Empty => Empty
    case Insert(before, u, key, data) => if u == t then Insert(Own(before, t), u, key, data) else Own(before, t)
    case Read(before, u, key) => if u == t then Read(Own(before, t), u, key) else Own(before, t)
    case Evict(before, u, evicted) => if u == t then Evict(Own(before, t), u, evicted) else Own(before, t)
    case Effect(before, u, e) => if u == t then Effect(Own(before, t), u, e) else Own(before, t)
  }

  /** The insertion that has not taken effect yet, and may have evicted an entry. */
  predicate OnItsWay(own: Log, key: nat, data: int) {
    if own.Evict? then own.before.Insert? && own.before.key == key && own.before.data == data
    else own.Insert? && own.key == key && own.data == data
  }

  /**
   Calls and their effects take turns: an insertion evicts at most one entry and then publishes its own,
   a getData answers for its key.
   */
  predicate TakeTurns(own: Log) {
    match own
    case Empty => true
    case Insert(before, _, _, _) => (before.Empty? || before.Effect?) && TakeTurns(before)
    case Read(before, _, _) => (before.Empty? || before.Effect?) && TakeTurns(before)
    case Evict(before, _, _) => before.Insert? && TakeTurns(before)
    case Effect(before, _, e) =>
      && TakeTurns(before)
      && match e
         case Put(key, data) => OnItsWay(before, key, data)
         case Get(key, _) => before.Read? && before.key == key
         case _ => false
  }

  /** The last entries of a thread in phase ph. */
  predicate Stands(own: Log, ph: Phase) {
    match ph
    case Idle => own.Empty? || own.Effect?
    case Published(_) => own.Effect? && own.event.Put?
    case Reading(key, _, _) => own.Read? && own.key == key
    case Claiming(key, data) => own.Insert? && own.key == key && own.data == data
    case Claimed(_, key, data) => own.Insert? && own.key == key && own.data == data
    case Unlinking(_, key, data, _, _) => own.Insert? && own.key == key && own.data == data
    case Clean(_, key, data) => OnItsWay(own, key, data)
    case Filled(_, key, data) => OnItsWay(own, key, data)
    case Linking(_, key, data, _, _) => OnItsWay(own, key, data)
  }

  lemma OwnStep(s: State, e: Event, s': State, t: nat, own: Log, getHash: int -> nat)
    requires t < |s.threads| == |s'.threads| && Step(s, e, s', t, getHash)
    requires Stands(own, s.threads[t]) && TakeTurns(own)
    ensures (var own' := Logged(own, t, e);
             Stands(own', s'.threads[t]) && TakeTurns(own'))
  {
  }

  lemma OwnLogged(log: Log, u: nat, t: nat, e: Event)
    ensures Own(Logged(log, u, e), t) == if u == t then Logged(Own(log, t), t, e) else Own(log, t)
  {
  }

  /** A step of thread u for thread t. */
  lemma TurnKept(s: State, e: Event, s': State, u: nat, t: nat, log: Log, getHash: int -> nat)
    requires u < |s.threads| && t < |s.threads| && Step(s, e, s', u, getHash)
    requires Stands(Own(log, t), s.threads[t]) && TakeTurns(Own(log, t))
    ensures |s'.threads| == |s.threads|
    ensures (var own' := Own(Logged(log, u, e), t);
             Stands(own', s'.threads[t]) && TakeTurns(own'))
  {
    StepOfOne(s, e, s', u, getHash);
    OwnLogged(log, u, t, e);
    if u == t {
      OwnStep(s, e, s', t, Own(log, t), getHash);
    }
  }

  lemma Known(tr: Trace, getHash: int -> nat)
    requires Run(tr, getHash) && tr.Then?
    ensures Run(tr.past, getHash) && |Last(tr.past).threads| == |tr.state.threads|
  {
    StepOfOne(Last(tr.past), tr.event, tr.state, tr.thread, getHash);
  }

  /**
   Each insertion publishes its own entry once between its start and its return, and evicts at most one
   before; each getData answers once, for its own key; only calls still on their way have not yet.
   */
  lemma {:induction false} EachCallOnce(tr: Trace, getHash: int -> nat, t: nat)
    requires Run(tr, getHash) && t < |Last(tr).threads|
    ensures (var own := Own(Calls(tr), t); TakeTurns(own) && Stands(own, Last(tr).threads[t]))
  {
    if tr.Then? {
      Known(tr, getHash);
      EachCallOnce(tr.past, getHash, t);
      TurnKept(Last(tr.past), tr.event, tr.state, tr.thread, t, Calls(tr.past), getHash);
    }
  }

  // ---------- what that means for the callers ----------

  /** The data most recently published for `key`. */
  function LastPut(tr: Trace, key: int): (data: int) {
    match tr
    case Begun(_) => NIL
    case Then(past, _, e, _) => if e.Put? && e.key == key then e.data else LastPut(past, key)
  }

  lemma {:induction false} ReplayIsLastPut(tr: Trace, key: int)
    ensures key in Replay(tr) ==> Replay(tr)[key] == LastPut(tr, key)
  {
    if tr.Then? {
      ReplayIsLastPut(tr.past, key);
    }
  }

  /** In every run getData(k) yields null or the data most recently published for k. */
  lemma {:induction false} ReadsLatest(tr: Trace, getHash: int -> nat)
    requires Run(tr, getHash) && tr.Then? && tr.event.Get?
    ensures tr.event.result == NIL || tr.event.result == LastPut(tr.past, tr.event.key)
  {
    RunLinearizes(tr, getHash);
    ReplayIsLastPut(tr.past, tr.event.key);
  }

  /**
   In every run: one owner a node, writers alone with their baskets, each key linked once, each node in
   the basket of its hash, no overflow.
   */
  lemma {:induction false} RunKeepsOrder(tr: Trace, getHash: int -> nat)
    requires Run(tr, getHash)
    ensures var s, v := Last(tr), Last(tr).cache;
      && Shape(v.pool, v.baskets, v.linked)
      && OneOwner(s) && Exclusive(s)
      && (forall x, y | x in v.linked && y in v.linked && v.pool[x].key == v.pool[y].key :: x == y)
      && (forall i, y | 0 <= i < |v.baskets| ::
            Reachable(v.pool, v.baskets, v.linked, i, y)
            <==> y in v.linked && getHash(v.pool[y].key) % |v.baskets| == i)
      && |Replay(tr)| <= |v.pool|
  {
    var v := Last(tr).cache;
    RunLinearizes(tr, getHash);
    ContentsSize(v.pool, v.linked);
    forall i, y | 0 <= i < |v.baskets|
      ensures Reachable(v.pool, v.baskets, v.linked, i, y)
              <==> y in v.linked && getHash(v.pool[y].key) % |v.baskets| == i
    {
      BasketHolds(v.pool, v.baskets, v.linked, i, y);
    }
  }

  // ---------- calls go on ----------

  /** The basket whose lock the thread needs next, if it needs one. */
  function Needs(s: State, ph: Phase, getHash: int -> nat): (k: int)
    requires 0 < |s.cache.baskets| && (ph.Claimed? ==> 0 <= ph.node < |s.cache.pool|)
    ensures k >= -1
  {
    match ph
    case Claimed(n, _, _) => if s.cache.pool[n].key == NO_KEY then -1 else BasketOf(s.cache, s.cache.pool[n].hash)
    case Filled(_, key, _) => BasketOf(s.cache, getHash(key))
    case _ => -1
  }

  /**
   Outside of the two locked regions a call can take its next step, unless it waits for a slot that is not
   in use or for the lock of a basket.
   */
  lemma CallsGoOn(s: State, t: nat, slot: nat, getHash: int -> nat) returns (e: Event, s': State)
    requires Inv(s, getHash) && t < |s.threads| && !s.threads[t].Idle? && !s.threads[t].Writes()
    requires s.threads[t].Claiming? ==> slot < |s.inUse| && !s.inUse[slot]
    requires s.threads[t].Claimed? ==> 0 <= s.threads[t].node < |s.cache.pool|
    requires Needs(s, s.threads[t], getHash) >= 0 ==> FreeToWrite(s, t, Needs(s, s.threads[t], getHash))
    ensures Step(s, e, s', t, getHash) && |s'.threads| == |s.threads| && s'.threads[t] != s.threads[t]
  {
    var ph := s.threads[t];
    assert PhaseOk(s, t, getHash);
    e, s' := Silent, s;
    match ph
    case Claiming(key, data) =>
      s' := s.(inUse := s.inUse[slot := true], threads := s.threads[t := Claimed(slot, key, data)]);
      assert Claim(s, s', t);
    case Claimed(n, key, data) =>
      var k := Needs(s, ph, getHash);
      if k == -1 {
        s' := s.(threads := s.threads[t := Clean(n, key, data)]);
      } else {
        s' := s.(threads := s.threads[t := Unlinking(n, key, data, k, s.cache)]);
      }
    case Clean(n, key, data) =>
      var entry := s.cache.pool[n].(hash := getHash(key), key := key, data := data);
      s' := s.(cache := s.cache.(pool := s.cache.pool[n := entry]), threads := s.threads[t := Filled(n, key, data)]);
    case Filled(n, key, data) =>
      s' := s.(threads := s.threads[t := Linking(n, key, data, BasketOf(s.cache, getHash(key)), s.cache)]);
    case Published(n) => s' := s.(inUse := s.inUse[n := false], threads := s.threads[t := Idle]);
    case Reading(key, _, view) =>
      e, s' := Get(key, Lookup(Map(view), key)), s.(threads := s.threads[t := Idle]);
  }

  /** Calls can always begin, a getData when no writer has its basket. */
  lemma CallsBegin(s: State, t: nat, key: nat, data: int, getHash: int -> nat)
    requires Inv(s, getHash) && t < |s.threads| && s.threads[t].Idle?
    ensures Step(s, Inserts(key, data), s.(threads := s.threads[t := Claiming(key, data)]), t, getHash)
    ensures (var k := BasketOf(s.cache, getHash(key));
             FreeToRead(s, t, k) ==>
               Step(s, Asks(key), s.(threads := s.threads[t := Reading(key, k, s.cache)]), t, getHash))
  {
  }
}
