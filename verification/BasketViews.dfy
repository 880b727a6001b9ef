/**
 What a thread of OnCacheMLRU (src/caches/oncachemlru.h) sees and writes under the lock of one basket.
 The shape of the pool is a matter of each basket by itself, so what a locked region does to the pool
 as it was when the lock was taken, it does to the pool as it is when the lock is given back.
 */
module BasketViews {
  import opened CacheNodes

  datatype View = View(pool: seq<Node>, baskets: seq<int>, linked: set<int>)

  ghost predicate Whole(v: View, getHash: int -> nat) {
    && Shape(v.pool, v.baskets, v.linked)
    && forall x | x in v.linked :: v.pool[x].hash == getHash(v.pool[x].key)
  }

  ghost function Map(v: View): map<int, int>
    requires Inside(v.pool, v.linked) && NodesOk(v.pool, v.linked)
  {
    Contents(v.pool, v.linked)
  }

  /** The basket that a hash selects. */
  function BasketOf(v: View, hash: nat): (k: nat)
    requires 0 < |v.baskets|
    ensures k < |v.baskets|
  {
    hash % |v.baskets|
  }

  ghost predicate InBasket(v: View, x: int, k: int)
    requires 0 < |v.baskets| && Inside(v.pool, v.linked)
  {
    x in v.linked && BasketOf(v, v.pool[x].hash) == k
  }

  ghost predicate Comparable(v: View, w: View) {
    && |v.pool| == |w.pool| && 0 < |v.baskets| == |w.baskets|
    && Inside(v.pool, v.linked) && Inside(w.pool, w.linked)
  }

  /** Basket k holds the same nodes, with the same fields. */
  ghost predicate SameBasket(v: View, w: View, k: int)
    requires Comparable(v, w)
  {
    && 0 <= k < |v.baskets| && v.baskets[k] == w.baskets[k]
    && forall x {:trigger InBasket(v, x, k)} {:trigger InBasket(w, x, k)} ::
         (InBasket(v, x, k) <==> InBasket(w, x, k)) && (InBasket(v, x, k) ==> v.pool[x] == w.pool[x])
  }

  lemma SameBasketTransitive(u: View, v: View, w: View, k: int)
    requires Comparable(u, v) && Comparable(v, w) && SameBasket(u, v, k) && SameBasket(v, w, k)
    ensures SameBasket(u, w, k)
  {
    forall x ensures (InBasket(u, x, k) <==> InBasket(w, x, k)) && (InBasket(u, x, k) ==> u.pool[x] == w.pool[x]) {
      assert InBasket(u, x, k) <==> InBasket(v, x, k);
    }
  }

  // ---------- the shape, basket by basket ----------

  lemma HeadByBasket(v: View, w: View, k: int, x: int)
    requires Comparable(v, w) && SameBasket(v, w, k) && InBasket(v, x, k)
    ensures IsHead(v.pool, v.linked, x) <==> IsHead(w.pool, w.linked, x)
  {
    assert InBasket(w, x, k);
    forall y | y in v.linked && v.pool[y].hash == v.pool[x].hash ensures InBasket(v, y, k) && InBasket(w, y, k) {
      assert InBasket(v, y, k);
    }
    forall y | y in w.linked && w.pool[y].hash == w.pool[x].hash ensures InBasket(v, y, k) && InBasket(w, y, k) {
      assert InBasket(w, y, k);
    }
  }

  lemma LevelByBasket(v: View, w: View, k: int, x: int, h: int)
    requires Comparable(v, w) && SameBasket(v, w, k) && InBasket(v, x, k) && 0 <= h <= 2
    requires x in w.linked && LevelAt(w.pool, w.linked, h, x)
    ensures LevelAt(v.pool, v.linked, h, x)
  {
    assert InBasket(w, x, k);
    var s := w.pool[x].fwdPtrsL[h];
    assert s in w.linked && w.pool[s].hash == w.pool[x].hash ==> InBasket(w, s, k);
    forall y | y in v.linked && v.pool[y].hash == v.pool[x].hash
      ensures InBasket(v, y, k) && y in w.linked && w.pool[y] == v.pool[y]
    {
      assert InBasket(v, y, k);
    }
  }

  lemma NextGroupByBasket(v: View, w: View, k: int, low: int, s: int)
    requires Comparable(v, w) && SameBasket(v, w, k)
    requires NextGroup(w.pool, w.linked, |w.baskets|, k, low, s)
    ensures NextGroup(v.pool, v.linked, |v.baskets|, k, low, s)
  {
    if s != NIL {
      assert InBasket(w, s, k);
      HeadByBasket(v, w, k, s);
    }
    forall y | y in v.linked && v.pool[y].hash % |v.baskets| == k && low < v.pool[y].hash
      ensures s in v.linked && v.pool[s].hash <= v.pool[y].hash
    {
      assert InBasket(v, y, k);
    }
  }

  lemma ChainByBasket(v: View, w: View, k: int, x: int)
    requires Comparable(v, w) && SameBasket(v, w, k) && InBasket(v, x, k)
    requires x in w.linked && ChainAt(w.pool, |w.baskets|, w.linked, x)
    ensures ChainAt(v.pool, |v.baskets|, v.linked, x)
  {
    HeadByBasket(v, w, k, x);
    if IsHead(w.pool, w.linked, x) {
      NextGroupByBasket(v, w, k, w.pool[x].hash, w.pool[x].fwdPtrH);
    }
  }

  /** `v` has basket k of `mine` and the other baskets of `rest`. */
  ghost predicate Merged(v: View, mine: View, rest: View, k: int)
    requires Comparable(v, mine) && Comparable(v, rest)
  {
    && SameBasket(v, mine, k)
    && forall i {:trigger SameBasket(v, rest, i)} | 0 <= i < |v.baskets| && i != k :: SameBasket(v, rest, i)
  }

  /** Where basket i of a merged pool comes from. */
  function Origin(mine: View, rest: View, k: int, i: int): View {
    if i == k then mine else rest
  }

  lemma MergedNodes(v: View, mine: View, rest: View, k: int, getHash: int -> nat)
    requires Comparable(v, mine) && Comparable(v, rest) && Merged(v, mine, rest, k)
    requires Whole(mine, getHash) && Whole(rest, getHash)
    ensures NodesOk(v.pool, v.linked) && forall x | x in v.linked :: v.pool[x].hash == getHash(v.pool[x].key)
  {
    forall x | x in v.linked
      ensures 0 <= v.pool[x].key && 0 <= v.pool[x].curHeight <= 2 && v.pool[x].hash == getHash(v.pool[x].key)
    {
      MergedNode(v, mine, rest, k, x);
    }
    forall x, y | x in v.linked && y in v.linked && v.pool[x].key == v.pool[y].key ensures x == y {
      MergedNode(v, mine, rest, k, x);
      MergedNode(v, mine, rest, k, y);
    }
  }

  lemma MergedNode(v: View, mine: View, rest: View, k: int, x: int)
    requires Comparable(v, mine) && Comparable(v, rest) && Merged(v, mine, rest, k) && x in v.linked
    ensures (var i := BasketOf(v, v.pool[x].hash);
             var w := Origin(mine, rest, k, i);
             InBasket(v, x, i) && SameBasket(v, w, i) && x in w.linked && w.pool[x] == v.pool[x])
  {
    var i := BasketOf(v, v.pool[x].hash);
    assert i != k ==> SameBasket(v, rest, i);
    assert InBasket(v, x, i);
  }

  lemma MergedShape(v: View, mine: View, rest: View, k: int, getHash: int -> nat)
    requires Comparable(v, mine) && Comparable(v, rest) && Merged(v, mine, rest, k) && |v.pool| == |v.baskets|
    requires Whole(mine, getHash) && Whole(rest, getHash)
    ensures Whole(v, getHash)
  {
    MergedNodes(v, mine, rest, k, getHash);
    forall x | x in v.linked
      ensures LevelAt(v.pool, v.linked, 0, x) && LevelAt(v.pool, v.linked, 1, x) && LevelAt(v.pool, v.linked, 2, x)
      ensures ChainAt(v.pool, |v.baskets|, v.linked, x)
    {
      MergedNode(v, mine, rest, k, x);
      var i := BasketOf(v, v.pool[x].hash);
      var w := Origin(mine, rest, k, i);
      assert LevelAt(w.pool, w.linked, 0, x) && LevelAt(w.pool, w.linked, 1, x) && LevelAt(w.pool, w.linked, 2, x);
      assert ChainAt(w.pool, |w.baskets|, w.linked, x);
      LevelByBasket(v, w, i, x, 0);
      LevelByBasket(v, w, i, x, 1);
      LevelByBasket(v, w, i, x, 2);
      ChainByBasket(v, w, i, x);
    }
    forall i | 0 <= i < |v.baskets| ensures BasketAt(v.pool, v.baskets, v.linked, i) {
      var w := Origin(mine, rest, k, i);
      assert i != k ==> SameBasket(v, rest, i);
      assert BasketAt(w.pool, w.baskets, w.linked, i);
      NextGroupByBasket(v, w, i, -1, w.baskets[i]);
    }
  }

  // ---------- giving the lock back ----------

  /** What a region made of `view`, `mine`, is written to `now`: whatever it changed, and nothing else. */
  ghost predicate WrittenBack(view: View, mine: View, now: View, after: View)
    requires Comparable(view, mine) && Comparable(view, now) && Comparable(view, after)
  {
    && (forall x | 0 <= x < |after.pool| ::
          after.pool[x] == if mine.pool[x] != view.pool[x] then mine.pool[x] else now.pool[x])
    && (forall i | 0 <= i < |after.baskets| ::
          after.baskets[i] == if mine.baskets[i] != view.baskets[i] then mine.baskets[i] else now.baskets[i])
    && (forall x :: x in after.linked <==>
          if x in mine.linked <==> x in view.linked then x in now.linked else x in mine.linked)
  }

  /** A region that keeps to basket k and its own node n, and whose basket nobody else touched meanwhile. */
  ghost predicate Kept(view: View, mine: View, now: View, n: int, k: int)
  {
    && Comparable(view, mine) && Comparable(view, now) && SameBasket(view, now, k)
    && OnlyBasket(view.pool, view.baskets, view.linked, mine.pool, mine.baskets, n, k)
    && 0 <= n < |view.pool| && view.pool[n] == now.pool[n]
    && (n in view.linked <==> n in now.linked) && (n in view.linked ==> InBasket(view, n, k))
    && (forall x | 0 <= x < |view.pool| && x !in view.linked && x != n :: mine.pool[x] == view.pool[x])
    && (forall x | x != n :: x in mine.linked <==> x in view.linked)
    && (forall x | x in view.linked && x != n ::
          mine.pool[x].key == view.pool[x].key && mine.pool[x].hash == view.pool[x].hash)
  }

  lemma BackAtNode(view: View, mine: View, now: View, after: View, n: int, k: int, x: int)
    requires Kept(view, mine, now, n, k) && Comparable(view, after) && WrittenBack(view, mine, now, after)
    requires 0 <= x < |view.pool|
    ensures after.pool[x] == if x == n || InBasket(view, x, k) then mine.pool[x] else now.pool[x]
    ensures x in after.linked <==> if x == n then x in mine.linked else x in now.linked
  {
    if x != n && x in view.linked && !InBasket(view, x, k) {
      assert BasketOf(view, view.pool[x].hash) != k;
    }
    assert InBasket(view, x, k) <==> InBasket(now, x, k);
  }

  lemma BackAtNodes(view: View, mine: View, now: View, after: View, n: int, k: int)
    requires Kept(view, mine, now, n, k) && Comparable(view, after) && WrittenBack(view, mine, now, after)
    ensures forall x | 0 <= x < |now.pool| ::
      && after.pool[x] == (if x == n || InBasket(view, x, k) then mine.pool[x] else now.pool[x])
      && (InBasket(view, x, k) ==> view.pool[x] == now.pool[x])
    ensures forall x :: InBasket(view, x, k) <==> InBasket(now, x, k)
    ensures forall x :: x in after.linked <==> if x == n then x in mine.linked else x in now.linked
  {
    forall x ensures InBasket(view, x, k) <==> InBasket(now, x, k) {
    }
    forall x | 0 <= x < |now.pool|
      ensures after.pool[x] == (if x == n || InBasket(view, x, k) then mine.pool[x] else now.pool[x])
    {
      BackAtNode(view, mine, now, after, n, k, x);
    }
    forall x ensures x in after.linked <==> if x == n then x in mine.linked else x in now.linked {
      if 0 <= x < |now.pool| {
        BackAtNode(view, mine, now, after, n, k, x);
      }
    }
  }

  lemma BackLinked(view: View, mine: View, now: View, after: View, n: int, k: int)
    requires Kept(view, mine, now, n, k) && Comparable(view, after) && WrittenBack(view, mine, now, after)
    ensures after.linked == if n in mine.linked then now.linked + {n} else now.linked - {n}
    ensures n !in view.linked && n !in mine.linked ==> after.linked == now.linked
  {
    BackAtNodes(view, mine, now, after, n, k);
    var linked := if n in mine.linked then now.linked + {n} else now.linked - {n};
    forall x | x in after.linked ensures x in linked {
    }
    forall x | x in linked ensures x in after.linked {
    }
    assert after.linked == linked;
  }

  lemma BackOnlyBasket(view: View, mine: View, now: View, after: View, n: int, k: int)
    requires Kept(view, mine, now, n, k) && Comparable(view, after) && WrittenBack(view, mine, now, after)
    ensures OnlyBasket(now.pool, now.baskets, now.linked, after.pool, after.baskets, n, k)
  {
    forall x | x in now.linked && x != n && now.pool[x].hash % |now.baskets| != k ensures after.pool[x] == now.pool[x] {
      assert !InBasket(now, x, k);
      BackAtNode(view, mine, now, after, n, k, x);
    }
  }

  lemma BackInBasket(view: View, mine: View, now: View, after: View, n: int, k: int)
    requires Kept(view, mine, now, n, k) && Comparable(view, after) && WrittenBack(view, mine, now, after)
    requires n in mine.linked ==> InBasket(mine, n, k)
    ensures SameBasket(after, mine, k)
  {
    forall x
      ensures InBasket(after, x, k) <==> InBasket(mine, x, k)
      ensures InBasket(after, x, k) ==> after.pool[x] == mine.pool[x]
    {
      if 0 <= x < |view.pool| {
        BackAtNode(view, mine, now, after, n, k, x);
        assert InBasket(view, x, k) <==> InBasket(now, x, k);
      }
    }
  }

  lemma BackInOther(view: View, mine: View, now: View, after: View, n: int, k: int, i: int)
    requires Kept(view, mine, now, n, k) && Comparable(view, after) && WrittenBack(view, mine, now, after)
    requires n in mine.linked ==> InBasket(mine, n, k)
    requires 0 <= i < |view.baskets| && i != k
    ensures SameBasket(after, now, i)
  {
    forall x
      ensures InBasket(after, x, i) <==> InBasket(now, x, i)
      ensures InBasket(after, x, i) ==> after.pool[x] == now.pool[x]
    {
      if 0 <= x < |view.pool| {
        BackAtNode(view, mine, now, after, n, k, x);
        assert InBasket(view, x, k) <==> InBasket(now, x, k);
      }
    }
  }

  lemma BackIsWhole(view: View, mine: View, now: View, after: View, n: int, k: int, getHash: int -> nat)
    requires Kept(view, mine, now, n, k) && Comparable(view, after) && WrittenBack(view, mine, now, after)
    requires n in mine.linked ==> InBasket(mine, n, k)
    requires Whole(mine, getHash) && Whole(now, getHash)
    ensures Whole(after, getHash) && Merged(after, mine, now, k)
  {
    BackInBasket(view, mine, now, after, n, k);
    forall i | 0 <= i < |after.baskets| && i != k ensures SameBasket(after, now, i) {
      BackInOther(view, mine, now, after, n, k, i);
    }
    MergedShape(after, mine, now, k, getHash);
  }

  ghost predicate EvictsFrom(v: View, v': View, n: int) {
    Evicts(v.pool, v.baskets, v.linked, v'.pool, v'.baskets, v'.linked, n)
  }

  ghost predicate StoresIn(v: View, v': View, n: int) {
    Stores(v.pool, v.baskets, v.linked, v'.pool, v'.baskets, v'.linked, n)
  }

  /** The node's entry is evicted from the pool as it is when the lock is given back, and from no other basket. */
  lemma EvictIsAtomic(view: View, mine: View, now: View, after: View, n: int, getHash: int -> nat)
    requires Whole(view, getHash) && Whole(now, getHash) && Comparable(view, now) && n in view.linked
    requires SameBasket(view, now, BasketOf(view, view.pool[n].hash))
    requires EvictsFrom(view, mine, n) && Comparable(view, after) && WrittenBack(view, mine, now, after)
    ensures Whole(after, getHash) && EvictsFrom(now, after, n)
    ensures Merged(after, mine, now, BasketOf(view, view.pool[n].hash))
  {
    var k := BasketOf(view, view.pool[n].hash);
    assert InBasket(view, n, k) && InBasket(now, n, k);
    assert Kept(view, mine, now, n, k);
    forall x | x in mine.linked ensures mine.pool[x].hash == getHash(mine.pool[x].key) {
      assert SameEntry(view.pool[x], mine.pool[x]);
    }
    BackIsWhole(view, mine, now, after, n, k, getHash);
    EvictBack(view, mine, now, after, n, k);
  }

  lemma EvictBack(view: View, mine: View, now: View, after: View, n: int, k: int)
    requires Kept(view, mine, now, n, k) && Comparable(view, after) && WrittenBack(view, mine, now, after)
    requires n in view.linked && k == BasketOf(view, view.pool[n].hash)
    requires EvictsFrom(view, mine, n) && Shape(after.pool, after.baskets, after.linked)
    ensures EvictsFrom(now, after, n)
  {
    BackAtNodes(view, mine, now, after, n, k);
    BackOnlyBasket(view, mine, now, after, n, k);
    BackLinked(view, mine, now, after, n, k);
    assert after.pool[n] == mine.pool[n] == Cleared(now.pool[n]);
    forall x | 0 <= x < |now.pool| && x != n
      ensures if x in now.linked then SameEntry(now.pool[x], after.pool[x]) else after.pool[x] == now.pool[x]
    {
    }
  }

  /** The new entry is stored in the pool as it is when the lock is given back, and in no other basket. */
  lemma StoreIsAtomic(view: View, mine: View, now: View, after: View, n: int, getHash: int -> nat)
    requires Whole(view, getHash) && Whole(now, getHash) && Comparable(view, now)
    requires 0 <= n < |view.pool| && n !in view.linked && n !in now.linked && view.pool[n] == now.pool[n]
    requires view.pool[n].hash == getHash(view.pool[n].key)
    requires SameBasket(view, now, BasketOf(view, view.pool[n].hash))
    requires StoresIn(view, mine, n) && Comparable(view, after) && WrittenBack(view, mine, now, after)
    ensures Whole(after, getHash) && StoresIn(now, after, n)
    ensures Merged(after, mine, now, BasketOf(view, view.pool[n].hash))
  {
    var k := BasketOf(view, view.pool[n].hash);
    StoreKept(view, mine, now, n, k, getHash);
    BackIsWhole(view, mine, now, after, n, k, getHash);
    KeyInBasket(view, now, view.pool[n].key, getHash);
    StoreBack(view, mine, now, after, n, k);
  }

  lemma StoreKept(view: View, mine: View, now: View, n: int, k: int, getHash: int -> nat)
    requires Whole(view, getHash) && Comparable(view, now) && StoresIn(view, mine, n)
    requires n !in now.linked && view.pool[n] == now.pool[n] && view.pool[n].hash == getHash(view.pool[n].key)
    requires k == BasketOf(view, view.pool[n].hash) && SameBasket(view, now, k)
    ensures Kept(view, mine, now, n, k) && Whole(mine, getHash)
    ensures n in mine.linked ==> InBasket(mine, n, k)
  {
    forall x | x in view.linked ensures mine.pool[x].key == view.pool[x].key && mine.pool[x].hash == view.pool[x].hash {
      assert SameEntry(view.pool[x].(data := mine.pool[x].data), mine.pool[x]);
    }
    assert n in mine.linked ==> SameEntry(view.pool[n], mine.pool[n]);
  }

  /** A key can only be in the basket of its hash. */
  lemma KeyInBasket(view: View, now: View, key: int, getHash: int -> nat)
    requires Whole(view, getHash) && Whole(now, getHash) && Comparable(view, now)
    requires SameBasket(view, now, BasketOf(view, getHash(key)))
    ensures HasKey(view.pool, view.linked, key) <==> HasKey(now.pool, now.linked, key)
    ensures forall x | x in view.linked && view.pool[x].key == key :: x in now.linked && now.pool[x] == view.pool[x]
  {
    var k := BasketOf(view, getHash(key));
    forall x | x in view.linked && view.pool[x].key == key ensures x in now.linked && now.pool[x] == view.pool[x] {
      assert InBasket(view, x, k);
    }
    forall x | x in now.linked && now.pool[x].key == key ensures x in view.linked && now.pool[x] == view.pool[x] {
      assert InBasket(now, x, k);
    }
  }

  lemma StoreBack(view: View, mine: View, now: View, after: View, n: int, k: int)
    requires Kept(view, mine, now, n, k) && Comparable(view, after) && WrittenBack(view, mine, now, after)
    requires n !in view.linked && k == BasketOf(view, view.pool[n].hash)
    requires forall x | x in now.linked && now.pool[x].key == view.pool[n].key :: InBasket(view, x, k)
    requires HasKey(view.pool, view.linked, view.pool[n].key) <==> HasKey(now.pool, now.linked, view.pool[n].key)
    requires StoresIn(view, mine, n) && Shape(after.pool, after.baskets, after.linked)
    ensures StoresIn(now, after, n)
  {
    BackAtNodes(view, mine, now, after, n, k);
    BackOnlyBasket(view, mine, now, after, n, k);
    BackLinked(view, mine, now, after, n, k);
  }

  /** What getData answers depends on the basket of its key alone. */
  lemma ReadIsAtomic(view: View, now: View, key: int, getHash: int -> nat)
    requires Whole(view, getHash) && Whole(now, getHash) && Comparable(view, now)
    requires SameBasket(view, now, BasketOf(view, getHash(key)))
    ensures key in Map(view) <==> key in Map(now)
    ensures key in Map(view) ==> Map(view)[key] == Map(now)[key]
  {
    KeyInBasket(view, now, key, getHash);
  }
}
