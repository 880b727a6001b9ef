/**
 src/caches/oncachemlru.h: a bounded cache over one pool of nodes.  The pool hands out its nodes in
 turn; a node that still holds an entry is unlinked before it is filled again.
 */
module OnCacheMLRU {
  import opened CacheNodes
  import opened PoolSteps

  class OnCacheMLRU {
    const capacity: nat
    const getHash: int -> nat
    const baskets: array<int>
    const nodePool: array<Node>
    const inUse: array<bool>
    var nodePoolId: nat
    var landP: nat
    ghost var linked: set<int>

    /** What every locked region relies on and leaves behind. */
    ghost predicate Base()
      reads this`landP, this`linked, baskets, nodePool
    {
      && 0 < capacity == baskets.Length == nodePool.Length == inUse.Length
      && landP < 256
      && Shape(nodePool[..], baskets[..], linked)
      && forall x | x in linked :: nodePool[x].hash == getHash(nodePool[x].key)
    }

    /** Between two calls of one thread: a node that nobody claims holds a cached entry or nothing. */
    ghost predicate Valid()
      reads this, baskets, nodePool, inUse
    {
      && Base()
      && nodePoolId <= capacity
      && forall i | 0 <= i < capacity && !inUse[i] :: Settled(i)
    }

    /** Node `i` holds a cached entry or nothing at all. */
    ghost predicate Settled(i: int)
      requires 0 <= i < nodePool.Length
      reads this`linked, nodePool
    {
      i in linked || Blank(nodePool[i])
    }

    /** Some node is free to be claimed; without other threads, every node is. */
    ghost predicate Available()
      reads inUse
    {
      exists i :: 0 <= i < inUse.Length && !inUse[i]
    }

    /** The cached map. */
    ghost function Map(): map<int, int>
      requires Base()
      reads this`landP, this`linked, baskets, nodePool
    {
      Contents(nodePool[..], linked)
    }

    method GetData(key: int) returns (r: int)
      requires Base()
      ensures r == if key in Map() then Map()[key] else NIL
    {
      ghost var p := nodePool[..];
      var hash := getHash(key);
      var basketID := hash % capacity;
      var cur := baskets[basketID];
      assert BasketAt(p, baskets[..], linked, basketID);
      while cur != NIL && nodePool[cur].hash != hash
        invariant cur == NIL || (IsHead(p, linked, cur) && p[cur].hash % capacity == basketID)
        invariant forall y | y in linked && p[y].hash == hash :: cur != NIL && p[cur].hash <= hash
        decreases Onward(p, linked, cur)
      {
        assert ChainAt(p, capacity, linked, cur);
        StepOn(p, linked, cur, nodePool[cur].fwdPtrH);
        cur := nodePool[cur].fwdPtrH;
      }
      if cur == NIL {
        return NIL;
      }
      var cmp := Compare(key, nodePool[cur].key);
      if cmp == 0 {
        return nodePool[cur].data;
      }
      if cmp < 0 {
        return NIL;
      }
      assert ChainAt(p, capacity, linked, cur);
      r := Descend(key, cur);
    }

    /** The three-level descent of getData, from the head of the group. */
    method Descend(key: int, head: int) returns (r: int)
      requires Base()
      requires head in linked && nodePool[head].hash == getHash(key)
      requires nodePool[head].key < key && nodePool[head].curHeight == 2
      ensures r == if key in Map() then Map()[key] else NIL
    {
      ghost var p := nodePool[..];
      ghost var hash := getHash(key);
      var cur := head;
      var h := 2;
      while 0 <= h
        invariant -1 <= h <= 2
        invariant cur in linked && p[cur].hash == hash && p[cur].key < key && h <= p[cur].curHeight
        invariant h < 2 ==> AbsentAt(p, linked, hash, key, h + 1)
      {
        while nodePool[cur].fwdPtrsL[h] != NIL
          invariant cur in linked && p[cur].hash == hash && p[cur].key < key && h <= p[cur].curHeight
          decreases Above(p, linked, cur)
        {
          assert LevelAt(p, linked, h, cur);
          var next := nodePool[cur].fwdPtrsL[h];
          var cmp := Compare(key, nodePool[next].key);
          if cmp < 0 {
            break;
          } else if cmp == 0 {
            return nodePool[next].data;
          }
          StepUp(p, linked, cur, next);
          cur := next;
        }
        assert LevelAt(p, linked, h, cur);
        PathEnds(p, linked, h, cur, key);
        h := h - 1;
      }
      return NIL;
    }

    // ---------- unlinking, under the basket's writer lock ----------

    method DelInSameHashCmp3(n: int, hashHead: int)
      requires Base() && n in linked && IsHead(nodePool[..], linked, hashHead)
      requires nodePool[hashHead].hash == nodePool[n].hash && hashHead != n
      modifies nodePool
      ensures Bypassed(old(nodePool[..]), nodePool[..], linked, n, -1)
    {
      assert ChainAt(nodePool[..], capacity, linked, hashHead);
      var u := FindPredecessors(nodePool, linked, n, hashHead, 2);
      Bypass(nodePool, linked, n, u);
    }

    /** The unlinked state that both deletions reach; `n` itself keeps its fields until it is cleared. */
    ghost predicate Unlinked(p: seq<Node>, b: seq<int>, n: int)
      reads this, baskets, nodePool
    {
      && n in linked && Inside(p, linked) && nodePool.Length == |p| && 0 < |b|
      && OnlyBasket(p, b, linked, nodePool[..], baskets[..], n, p[n].hash % |b|)
      && Shape(nodePool[..], baskets[..], linked - {n})
      && SameEntry(p[n], nodePool[n]) && nodePool[n].curHeight == p[n].curHeight
      && forall x | 0 <= x < |p| && x != n ::
           if x in linked then SameEntry(p[x], nodePool[x]) else nodePool[x] == p[x]
    }

    method DelOnBasketHead(n: int, basketID: int)
      requires Base() && n in linked
      requires basketID == nodePool[n].hash % capacity && baskets[basketID] in linked
      requires nodePool[baskets[basketID]].hash == nodePool[n].hash
      modifies nodePool, baskets
      ensures Unlinked(old(nodePool[..]), old(baskets[..]), n)
    {
      ghost var p, b := nodePool[..], baskets[..];
      assert BasketAt(p, b, linked, basketID);
      var cur := baskets[basketID];
      if n == cur {
        DelFirst(n, basketID);
      } else {
        DelInSameHashCmp3(n, cur);
        UnlinkInner(p, b, linked, n, nodePool[..]);
        BypassedInBasket(p, b, linked, n, nodePool[..]);
      }
    }

    /** The very first node of a basket: the next one of its group, or the next group, follows it. */
    method DelFirst(n: int, basketID: int)
      requires Base() && IsHead(nodePool[..], linked, n)
      requires basketID == nodePool[n].hash % capacity && baskets[basketID] == n
      modifies nodePool, baskets
      ensures Unlinked(old(nodePool[..]), old(baskets[..]), n)
    {
      ghost var p, b := nodePool[..], baskets[..];
      assert LevelAt(p, linked, 0, n) && ChainAt(p, capacity, linked, n);
      var cur := nodePool[n].fwdPtrsL[0];
      if cur != NIL {
        baskets[basketID] := cur;
        Promote(nodePool, n, cur);
      } else {
        baskets[basketID] := nodePool[n].fwdPtrH;
      }
      SlotIsOnly(p, b, linked, n, NIL);
      UnlinkHead(p, b, linked, n, nodePool[..], baskets[..]);
    }

    /** The head before the group of `n`, which is not the first group of its basket. */
    method SeekHash(n: int, startSearch: int) returns (cur: int)
      requires Base() && n in linked
      requires startSearch == baskets[nodePool[n].hash % capacity] && startSearch in linked
      requires nodePool[startSearch].hash != nodePool[n].hash
      ensures IsHead(nodePool[..], linked, cur) && nodePool[cur].hash < nodePool[n].hash
      ensures IsHead(nodePool[..], linked, nodePool[cur].fwdPtrH)
      ensures nodePool[nodePool[cur].fwdPtrH].hash == nodePool[n].hash
    {
      ghost var p := nodePool[..];
      var hash := nodePool[n].hash;
      cur := startSearch;
      assert BasketAt(p, baskets[..], linked, hash % capacity);
      assert ChainAt(p, capacity, linked, cur);
      while nodePool[cur].fwdPtrH != NIL && nodePool[nodePool[cur].fwdPtrH].hash != hash
        invariant IsHead(p, linked, cur) && p[cur].hash % capacity == hash % capacity && p[cur].hash < hash
        invariant ChainAt(p, capacity, linked, cur)
        decreases Onward(p, linked, cur)
      {
        StepOn(p, linked, cur, nodePool[cur].fwdPtrH);
        cur := nodePool[cur].fwdPtrH;
        assert ChainAt(p, capacity, linked, cur);
      }
    }

    method DelWithOtherHash(n: int, startSearch: int)
      requires Base() && n in linked
      requires startSearch == baskets[nodePool[n].hash % capacity] && startSearch in linked
      requires nodePool[startSearch].hash != nodePool[n].hash
      modifies nodePool, baskets
      ensures Unlinked(old(nodePool[..]), old(baskets[..]), n)
    {
      var cur := SeekHash(n, startSearch);
      if n == nodePool[cur].fwdPtrH {
        DelHeadBehind(n, cur);
      } else {
        ghost var p := nodePool[..];
        DelInSameHashCmp3(n, nodePool[cur].fwdPtrH);
        UnlinkInner(p, baskets[..], linked, n, nodePool[..]);
        BypassedInBasket(p, baskets[..], linked, n, nodePool[..]);
      }
    }

    method DelHeadBehind(n: int, slot: int)
      requires Base() && n in linked && slot in linked && nodePool[slot].fwdPtrH == n
      requires IsHead(nodePool[..], linked, n) && nodePool[slot].hash != nodePool[n].hash
      modifies nodePool
      ensures Unlinked(old(nodePool[..]), old(baskets[..]), n)
    {
      ghost var p, b := nodePool[..], baskets[..];
      assert LevelAt(p, linked, 0, n) && ChainAt(p, capacity, linked, n) && ChainAt(p, capacity, linked, slot);
      nodePool[slot] := nodePool[slot].(fwdPtrH := nodePool[n].fwdPtrsL[0]);
      if nodePool[slot].fwdPtrH != NIL {
        Promote(nodePool, n, nodePool[slot].fwdPtrH);
      } else {
        nodePool[slot] := nodePool[slot].(fwdPtrH := nodePool[n].fwdPtrH);
      }
      SlotIsOnly(p, b, linked, n, slot);
      UnlinkHead(p, b, linked, n, nodePool[..], baskets[..]);
    }

    /** The locked region of allocNode, and the clear() after it: the entry of `n` leaves the cache. */
    method Evict(n: int)
      requires Base() && n in linked
      modifies this`linked, nodePool, baskets
      ensures Base()
      ensures Evicts(old(nodePool[..]), old(baskets[..]), old(linked), nodePool[..], baskets[..], linked, n)
    {
      ghost var p, b := nodePool[..], baskets[..];
      var basketID := nodePool[n].hash % capacity;
      assert BasketAt(p, b, linked, basketID);
      if nodePool[baskets[basketID]].hash == nodePool[n].hash {
        DelOnBasketHead(n, basketID);
      } else {
        DelWithOtherHash(n, baskets[basketID]);
      }
      ghost var q := nodePool[..];
      linked := linked - {n};
      nodePool[n] := Cleared(nodePool[n]);
      ShapeIgnores(q, baskets[..], linked, nodePool[..]);
    }

    // ---------- linking, under the basket's writer lock ----------

    /** A node that its thread has filled: it holds an entry but is in no list. */
    ghost predicate Filled(n: int)
      reads this, nodePool
    {
      && 0 <= n < nodePool.Length && n !in linked
      && 0 <= nodePool[n].key && nodePool[n].hash == getHash(nodePool[n].key)
      && nodePool[n].fwdPtrH == NIL && nodePool[n].fwdPtrsL == [NIL, NIL, NIL]
    }

    /** Replaces the entry in place; the node that brought it is left blank. */
    method ReplaceAt(cur: int, n: int)
      requires Base() && Filled(n) && cur in linked && nodePool[cur].key == nodePool[n].key
      modifies nodePool
      ensures Base()
      ensures Stores(old(nodePool[..]), baskets[..], linked, nodePool[..], baskets[..], linked, n)
    {
      ghost var p := nodePool[..];
      nodePool[cur] := nodePool[cur].(data := nodePool[n].data);
      nodePool[n] := nodePool[n].(data := NIL);
      nodePool[cur] := nodePool[cur].(key := nodePool[n].key);
      nodePool[n] := Cleared(nodePool[n]);
      assert HasKey(p, linked, p[n].key);
      ShapeIgnoresData(p, baskets[..], linked, nodePool[..]);
    }

    method SpliceBehind(n: int, u: seq<int>)
      requires Base() && Filled(n) && |u| == 3
      requires forall i | 0 <= i <= 2 ::
        OnPath(nodePool[..], linked, nodePool[n].hash, nodePool[n].key, i, u[i])
      requires !HasKey(nodePool[..], linked, nodePool[n].key)
      modifies this`landP, this`linked, nodePool
      ensures Base()
      ensures Stores(old(nodePool[..]), baskets[..], old(linked), nodePool[..], baskets[..], linked, n)
    {
      ghost var p := nodePool[..];
      nodePool[n] := nodePool[n].(curHeight := Landscape(landP));
      landP := NextLand(landP);
      ghost var p1 := nodePool[..];
      Splice(nodePool, linked, n, u);
      SpliceLinks(p, baskets[..], linked, n, u, p1, nodePool[..]);
      linked := linked + {n};
    }

    method SetOnBasketHead(n: int, cur: int, basketID: int)
      requires Base() && Filled(n)
      requires basketID == nodePool[n].hash % capacity && cur == baskets[basketID] && cur in linked
      requires nodePool[cur].hash == nodePool[n].hash
      modifies this`landP, this`linked, nodePool, baskets
      ensures Base()
      ensures Stores(old(nodePool[..]), old(baskets[..]), old(linked), nodePool[..], baskets[..], linked, n)
    {
      ghost var p, b := nodePool[..], baskets[..];
      assert BasketAt(p, b, linked, basketID);
      var cmp := Compare(nodePool[n].key, nodePool[cur].key);
      if cmp < 0 {
        baskets[basketID] := n;
        DemoteHead(nodePool, n, cur, Landscape(landP));
        landP := NextLand(landP);
        NewHeadLinks(p, b, linked, n, cur, NIL, nodePool[..], baskets[..]);
        linked := linked + {n};
      } else if cmp == 0 {
        ReplaceAt(cur, n);
      } else {
        SetInGroup(n, cur);
      }
    }

    /** The part that setOnBasketHead and setOther share: the key is above the head of its group. */
    method SetInGroup(n: int, head: int)
      requires Base() && Filled(n) && IsHead(nodePool[..], linked, head)
      requires nodePool[head].hash == nodePool[n].hash && nodePool[head].key < nodePool[n].key
      modifies this`landP, this`linked, nodePool
      ensures Base()
      ensures Stores(old(nodePool[..]), baskets[..], old(linked), nodePool[..], baskets[..], linked, n)
    {
      assert ChainAt(nodePool[..], capacity, linked, head);
      var hit, _, _, u := SearchPath(nodePool, linked, nodePool[n].key, head);
      if hit != NIL {
        ReplaceAt(hit, n);
      } else {
        SpliceBehind(n, u);
      }
    }

    /** The last head of the basket with a hash below that of `n`. */
    method SeekSlot(n: int, start: int) returns (cur: int)
      requires Base() && Filled(n)
      requires start == baskets[nodePool[n].hash % capacity] && start in linked
      requires nodePool[start].hash < nodePool[n].hash
      ensures IsHead(nodePool[..], linked, cur) && nodePool[cur].hash < nodePool[n].hash
      ensures nodePool[cur].hash % capacity == nodePool[n].hash % capacity
      ensures ChainAt(nodePool[..], capacity, linked, cur)
      ensures nodePool[cur].fwdPtrH == NIL || nodePool[n].hash <= nodePool[nodePool[cur].fwdPtrH].hash
    {
      ghost var p := nodePool[..];
      var hash := nodePool[n].hash;
      cur := start;
      assert BasketAt(p, baskets[..], linked, hash % capacity);
      assert ChainAt(p, capacity, linked, cur);
      while nodePool[cur].fwdPtrH != NIL && hash > nodePool[nodePool[cur].fwdPtrH].hash
        invariant IsHead(p, linked, cur) && p[cur].hash % capacity == hash % capacity && p[cur].hash < hash
        invariant ChainAt(p, capacity, linked, cur)
        decreases Onward(p, linked, cur)
      {
        StepOn(p, linked, cur, nodePool[cur].fwdPtrH);
        cur := nodePool[cur].fwdPtrH;
        assert ChainAt(p, capacity, linked, cur);
      }
    }

    method SetOther(n: int, start: int)
      requires Base() && Filled(n)
      requires start == baskets[nodePool[n].hash % capacity] && start in linked
      requires nodePool[start].hash < nodePool[n].hash
      modifies this`landP, this`linked, nodePool, baskets
      ensures Base()
      ensures Stores(old(nodePool[..]), old(baskets[..]), old(linked), nodePool[..], baskets[..], linked, n)
    {
      var cur := SeekSlot(n, start);
      if nodePool[cur].fwdPtrH != NIL && nodePool[nodePool[cur].fwdPtrH].hash == nodePool[n].hash {
        var cmp := Compare(nodePool[n].key, nodePool[nodePool[cur].fwdPtrH].key);
        if cmp < 0 {
          SetBeforeHead(n, cur);
        } else if cmp == 0 {
          ReplaceAt(nodePool[cur].fwdPtrH, n);
        } else {
          SetInGroup(n, nodePool[cur].fwdPtrH);
        }
      } else {
        SetNewGroup(n, cur);
      }
    }

    method SetNewGroup(n: int, cur: int)
      requires Base() && Filled(n) && cur in linked && SlotFor(nodePool[..], baskets[..], linked, nodePool[n].hash, cur)
      modifies this`linked, nodePool
      ensures Base()
      ensures Stores(old(nodePool[..]), old(baskets[..]), old(linked), nodePool[..], baskets[..], linked, n)
    {
      ghost var p, b := nodePool[..], baskets[..];
      nodePool[n] := nodePool[n].(curHeight := 2);
      nodePool[n] := nodePool[n].(fwdPtrH := nodePool[cur].fwdPtrH);
      nodePool[cur] := nodePool[cur].(fwdPtrH := n);
      NewGroupLinks(p, b, linked, n, cur, nodePool[..], baskets[..]);
      linked := linked + {n};
    }

    method SetBeforeHead(n: int, cur: int)
      requires Base() && Filled(n) && cur in linked && nodePool[cur].fwdPtrH in linked
      requires IsHead(nodePool[..], linked, nodePool[cur].fwdPtrH)
      requires nodePool[nodePool[cur].fwdPtrH].hash == nodePool[n].hash
      requires nodePool[n].key < nodePool[nodePool[cur].fwdPtrH].key && nodePool[cur].hash < nodePool[n].hash
      modifies this`landP, this`linked, nodePool
      ensures Base()
      ensures Stores(old(nodePool[..]), old(baskets[..]), old(linked), nodePool[..], baskets[..], linked, n)
    {
      ghost var p, b := nodePool[..], baskets[..];
      var prevHead := nodePool[cur].fwdPtrH;
      nodePool[cur] := nodePool[cur].(fwdPtrH := n);
      DemoteHead(nodePool, n, prevHead, Landscape(landP));
      landP := NextLand(landP);
      NewHeadLinks(p, b, linked, n, prevHead, cur, nodePool[..], baskets[..]);
      linked := linked + {n};
    }

    /** The locked region of insertNode. */
    method InsertN(n: int, basketID: int)
      requires Base() && Filled(n) && basketID == nodePool[n].hash % capacity
      modifies this`landP, this`linked, nodePool, baskets
      ensures Base()
      ensures Stores(old(nodePool[..]), old(baskets[..]), old(linked), nodePool[..], baskets[..], linked, n)
    {
      ghost var p, b := nodePool[..], baskets[..];
      var updatePathOutH := baskets[basketID];
      assert BasketAt(p, b, linked, basketID);
      if updatePathOutH != NIL {
        if nodePool[updatePathOutH].hash == nodePool[n].hash {
          SetOnBasketHead(n, updatePathOutH, basketID);
        } else if nodePool[updatePathOutH].hash > nodePool[n].hash {
          baskets[basketID] := n;
          nodePool[n] := nodePool[n].(fwdPtrH := updatePathOutH);
          nodePool[n] := nodePool[n].(curHeight := 2);
          NewGroupLinks(p, b, linked, n, NIL, nodePool[..], baskets[..]);
          linked := linked + {n};
        } else {
          SetOther(n, updatePathOutH);
        }
      } else {
        baskets[basketID] := n;
        nodePool[n] := nodePool[n].(curHeight := 2);
        NewGroupLinks(p, b, linked, n, NIL, nodePool[..], baskets[..]);
        linked := linked + {n};
      }
    }

    // ---------- the public insertion ----------

    /** The node handed out for a value of the pool counter: after the last one, the first again. */
    function Slot(poolId: nat): nat {
      if poolId >= capacity then 0 else poolId
    }

    /** The counter afterwards; since it restarts at 0, node 0 is handed out twice in a row. */
    function NextPoolId(poolId: nat): nat {
      if poolId >= capacity then 0 else poolId + 1
    }

    /** How far the counter is from the free node `f`. */
    ghost function Distance(poolId: nat, f: nat): int {
      if poolId <= f then f - poolId else capacity - poolId + 1 + f
    }

    /** The next slot, with the counter moved on: a step closer to f, or f itself. */
    method Draw(ghost f: nat) returns (re: int)
      requires f < capacity && nodePoolId <= capacity
      modifies this`nodePoolId
      ensures re == Slot(old(nodePoolId)) && nodePoolId == NextPoolId(old(nodePoolId)) <= capacity && 0 <= re < capacity
      ensures re != f ==> 0 <= Distance(nodePoolId, f) < Distance(old(nodePoolId), f)
    {
      re := Slot(nodePoolId);
      nodePoolId := NextPoolId(nodePoolId);
    }

    /** The claim of allocNode: nodes in turn, until one's in_use flag was clear. */
    method Claim() returns (re: int)
      requires Valid() && Available()
      modifies this`nodePoolId, inUse
      ensures Base() && nodePoolId <= capacity
      ensures 0 <= re < capacity && !old(inUse[re]) && inUse[..] == old(inUse[..])[re := true]
      ensures Slot(old(nodePoolId)) < inUse.Length
      ensures !old(inUse[Slot(nodePoolId)]) ==> re == Slot(old(nodePoolId)) && nodePoolId == NextPoolId(old(nodePoolId))
    {
      ghost var f: nat :| f < capacity && !inUse[f];
      re := Draw(f);
      while inUse[re]
        invariant 0 <= re < capacity && nodePoolId <= capacity
        invariant !inUse[Slot(old(nodePoolId))] ==>
            re == Slot(old(nodePoolId)) && nodePoolId == NextPoolId(old(nodePoolId))
        invariant re != f ==> 0 <= Distance(nodePoolId, f)
        decreases if re != f then Distance(nodePoolId, f) + 1 else 0
        modifies this`nodePoolId
      {
        re := Draw(f);
      }
      inUse[re] := true;
    }

    /** Claims a node and takes the entry it may hold out of the cache. */
    method AllocNode() returns (re: int)
      requires Valid() && Available()
      modifies this`nodePoolId, this`linked, nodePool, baskets, inUse
      ensures Base() && nodePoolId <= capacity
      ensures 0 <= re < capacity && !old(inUse[re]) && inUse[..] == old(inUse[..])[re := true]
      ensures Slot(old(nodePoolId)) < inUse.Length
      ensures !old(inUse[Slot(nodePoolId)]) ==> re == Slot(old(nodePoolId)) && nodePoolId == NextPoolId(old(nodePoolId))
      ensures Blank(nodePool[re]) && re !in linked
      ensures forall i | 0 <= i < capacity && !inUse[i] :: Settled(i)
      ensures Map() == old(Map()) - {old(nodePool[re].key)}
    {
      re := Claim();
      if nodePool[re].key != NO_KEY {
        Evict(re);
        EvictsContents(old(nodePool[..]), old(baskets[..]), old(linked), nodePool[..], baskets[..], linked, re);
      } else {
        assert NO_KEY !in Map();
      }
    }

    /** Fills the claimed node: it is private until it is linked. */
    method Fill(n: int, key: nat, data: int)
      requires Base() && 0 <= n < capacity && n !in linked && Blank(nodePool[n])
      modifies nodePool
      ensures Base() && Map() == old(Map())
      ensures Filled(n) && nodePool[n].key == key && nodePool[n].data == data
      ensures forall i | 0 <= i < capacity && i != n && old(Settled(i)) :: Settled(i)
    {
      ghost var p := nodePool[..];
      nodePool[n] := nodePool[n].(hash := getHash(key), key := key, data := data);
      ShapeIgnores(p, baskets[..], linked, nodePool[..]);
      SameContents(p, linked, nodePool[..]);
    }

    /** The locked region of insertNode, seen as what it does to the map. */
    method Publish(n: int, basketID: int)
      requires Base() && Filled(n) && basketID == nodePool[n].hash % capacity
      modifies this`landP, this`linked, nodePool, baskets
      ensures Base()
      ensures Map() == old(Map())[old(nodePool[n].key) := old(nodePool[n].data)] && |Map()| <= capacity
      ensures Settled(n) && forall i | 0 <= i < capacity && old(Settled(i)) :: Settled(i)
    {
      ghost var p, b, was := nodePool[..], baskets[..], linked;
      InsertN(n, basketID);
      StoresContents(p, b, was, nodePool[..], baskets[..], linked, n);
      ContentsSize(nodePool[..], linked);
    }

    method Release(n: int, ghost flags: seq<bool>)
      requires Base() && nodePoolId <= capacity && 0 <= n < |flags| && inUse[..] == flags[n := true] && !flags[n]
      requires forall i | 0 <= i < capacity && (i == n || !inUse[i]) :: Settled(i)
      modifies inUse
      ensures Valid() && Map() == old(Map()) && inUse[..] == flags
    {
      inUse[n] := false;
      assert inUse[..] == flags;
    }

    /** The claimed node gets the new entry and is published. */
    method Enter(n: int, key: nat, data: int)
      requires Base() && 0 <= n < capacity && n !in linked && Blank(nodePool[n])
      modifies this`landP, this`linked, nodePool, baskets
      ensures Base() && Map() == old(Map())[key := data] && |Map()| <= capacity
      ensures forall i | 0 <= i < capacity && (i == n || old(Settled(i))) :: Settled(i)
    {
      Fill(n, key, data);
      assert nodePool[n].key == key && nodePool[n].data == data;
      Publish(n, getHash(key) % capacity);
    }

    method InsertNode(key: nat, data: int) returns (ghost recycled: int)
      requires Valid() && Available()
      modifies this`nodePoolId, this`landP, this`linked, nodePool, baskets, inUse
      ensures Valid() && inUse[..] == old(inUse[..])
      ensures 0 <= recycled < capacity && !old(inUse[recycled])
      ensures Slot(old(nodePoolId)) < inUse.Length
      ensures !old(inUse[Slot(nodePoolId)]) ==>
                recycled == Slot(old(nodePoolId)) && nodePoolId == NextPoolId(old(nodePoolId))
      ensures Map() == (old(Map()) - {old(nodePool[recycled].key)})[key := data]
      ensures |Map()| <= capacity
    {
      var newNode := AllocNode();
      recycled := newNode;
      Enter(newNode, key, data);
      Release(newNode, old(inUse[..]));
    }

    constructor (capacity: nat, getHash: int -> nat)
      requires 0 < capacity
      ensures Valid() && Available() && this.capacity == capacity && this.getHash == getHash
      ensures fresh(baskets) && fresh(nodePool) && fresh(inUse)
      ensures nodePoolId == 0 && Map() == map[]
      ensures forall i | 0 <= i < capacity :: !inUse[i]
    {
      this.capacity := capacity;
      this.getHash := getHash;
      baskets := new int[capacity](i => NIL);
      nodePool := new Node[capacity](i => Node(NIL, [NIL, NIL, NIL], NO_KEY, NIL, 0, 0));
      inUse := new bool[capacity](i => false);
      nodePoolId, landP := 0, 0;
      linked := {};
      new;
      forall i | 0 <= i < capacity
        ensures BasketAt(nodePool[..], baskets[..], linked, i)
      {
      }
      assert !inUse[0];
      ContentsUnique(map[], nodePool[..], linked);
    }
  }
}
