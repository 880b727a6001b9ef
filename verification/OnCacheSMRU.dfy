/**
 src/caches/oncachesmru.h: the single-threaded variant.  An insertion first saves the search path of
 the new key, then recycles the next node of the pool, which may lie on that path, and links it in.
 */
module OnCacheSMRU {
  import opened CacheNodes
  import opened PoolSteps
  import opened SavedPath

  /** updatePathOutH points to a pointer: a basket (node null), a chain pointer or a level pointer. */
  datatype Slot = Chain(node: int) | Level(node: int, level: int)

  /** How an insertion ends: as it should, without the new entry, or at the use of a null pointer. */
  datatype Outcome = Stored | Lost | NullDereference

  ghost predicate Settled(p: seq<Node>, linked: set<int>) {
    forall i {:trigger p[i]} | 0 <= i < |p| :: i in linked || Blank(p[i])
  }

  /** Nodes outside the lists did not change, but for `re`, which is linked or still unused. */
  lemma StillSettled(p: seq<Node>, was: set<int>, q: seq<Node>, now: set<int>, re: int)
    requires Settled(p, was) && |q| == |p| && was - {re} <= now
    requires forall i | 0 <= i < |p| && i !in now && i != re :: q[i] == p[i]
    requires 0 <= re < |p| ==> re in now
    ensures Settled(q, now)
  {
    forall i | 0 <= i < |q| ensures i in now || Blank(q[i]) {
      assert i in was || Blank(p[i]);
    }
  }

  function Max(a: int, b: int): (r: int) {
    if a > b then a else b
  }

  class OnCacheSMRU {
    const capacity: nat
    const uselessness: nat
    const getHash: int -> nat
    const baskets: array<int>
    const nodePool: array<Node>
    const used: array<nat>      // the counters of the nodes
    var nodePoolId: nat
    var landP: nat
    var updatePathOutH: Slot
    var updatePathOutL: Tower
    ghost var linked: set<int>

    ghost predicate Base()
      reads this`landP, this`linked, baskets, nodePool
    {
      && 0 < capacity == baskets.Length == nodePool.Length == used.Length
      && landP < 256
      && Shape(nodePool[..], baskets[..], linked)
      && forall x | x in linked :: nodePool[x].hash == getHash(nodePool[x].key)
    }

    /** Between two calls every node holds a cached entry or nothing. */
    ghost predicate Valid()
      reads this, baskets, nodePool
    {
      Base() && nodePoolId < capacity && Settled(nodePool[..], linked)
    }

    ghost function Map(): map<int, int>
      requires Base()
      reads this`landP, this`linked, baskets, nodePool
    {
      Contents(nodePool[..], linked)
    }

    /** *updatePathOutH */
    function Deref(basketID: int): (x: int)
      requires 0 <= basketID < baskets.Length
      requires updatePathOutH.node == NIL || 0 <= updatePathOutH.node < nodePool.Length
      requires updatePathOutH.Level? ==> updatePathOutH.node != NIL && 0 <= updatePathOutH.level <= 2
      reads this`updatePathOutH, baskets, nodePool
    {
      match updatePathOutH
      case Chain(x) => if x == NIL then baskets[basketID] else nodePool[x].fwdPtrH
      case Level(x, h) => nodePool[x].fwdPtrsL[h]
    }

    // ---------- the saved path ----------

    /** What setll leaves in updatePathOutH and updatePathOutL when the key is not cached. */
    ghost predicate Saved(hash: nat, key: int, cmp: int)
      requires Base()
      reads this`landP, this`linked, this`updatePathOutH, this`updatePathOutL, baskets, nodePool
    {
      && updatePathOutH.Chain? && (cmp == 1 || cmp == -1 || 3 <= cmp <= 5)
      && SlotOk(nodePool[..], baskets[..], linked, hash, updatePathOutH.node)
      && Ready(nodePool[..], baskets[..], linked, hash, key, cmp, updatePathOutH.node, updatePathOutL)
      && var next := Target(nodePool[..], baskets[..], updatePathOutH.node, hash % capacity);
         cmp == 1 || cmp == -1 ==> next != NIL && nodePool[next].hash == hash && nodePool[next].key < key
    }

    /** Advances updatePathOutH to the first group whose hash is not below `hash`. */
    method SeekSlot(hash: nat, basketID: int)
      requires Base() && basketID == hash % capacity && updatePathOutH == Chain(NIL)
      modifies this`updatePathOutH
      ensures updatePathOutH.Chain? && SlotOk(nodePool[..], baskets[..], linked, hash, updatePathOutH.node)
    {
      ghost var p, b := nodePool[..], baskets[..];
      assert BasketAt(p, b, linked, basketID);
      ghost var cur := baskets[basketID];
      while Deref(basketID) != NIL && hash > nodePool[Deref(basketID)].hash
        invariant updatePathOutH.Chain? && (updatePathOutH.node == NIL || updatePathOutH.node in linked)
        invariant updatePathOutH.node != NIL ==>
          IsHead(p, linked, updatePathOutH.node) && p[updatePathOutH.node].hash % capacity == basketID
          && p[updatePathOutH.node].hash < hash
        invariant cur == Target(p, b, updatePathOutH.node, basketID)
        invariant cur != NIL ==> IsHead(p, linked, cur) && p[cur].hash % capacity == basketID
        decreases Onward(p, linked, cur)
      {
        assert ChainAt(p, capacity, linked, cur);
        StepOn(p, linked, cur, p[cur].fwdPtrH);
        updatePathOutH := Chain(Deref(basketID));
        cur := p[cur].fwdPtrH;
      }
    }

    /** A key that is not in its own group is not cached at all. */
    lemma AbsentFromGroup(hash: nat, key: int)
      requires Base() && hash == getHash(key)
      requires forall y | y in linked && nodePool[y].hash == hash :: nodePool[y].key != key
      ensures !HasKey(nodePool[..], linked, key)
    {
    }

    /** setll: 0 if the key is cached, else where it belongs, with the path to it saved. */
    method Setll(hash: nat, key: int, basketID: int) returns (cmp: int)
      requires Base() && hash == getHash(key) && basketID == hash % capacity
      requires updatePathOutH == Chain(NIL) && baskets[basketID] != NIL
      modifies this`updatePathOutH, this`updatePathOutL
      ensures updatePathOutH.node == NIL || updatePathOutH.node in linked
      ensures updatePathOutH.Level? ==> updatePathOutH.node in linked && 0 <= updatePathOutH.level <= 2
      ensures cmp == 0 ==> Deref(basketID) in linked && nodePool[Deref(basketID)].key == key
      ensures cmp != 0 ==> Saved(hash, key, cmp) && cmp != 5 && !HasKey(nodePool[..], linked, key)
    {
      ghost var p, b := nodePool[..], baskets[..];
      assert BasketAt(p, b, linked, basketID);
      SeekSlot(hash, basketID);
      var cur := Deref(basketID);
      if cur == NIL || nodePool[cur].hash != hash {
        NoneAtSlot(hash, updatePathOutH.node);
        AbsentFromGroup(hash, key);
        return 4;
      }
      cmp := Compare(key, nodePool[cur].key);
      if cmp == 0 {
        return 0;
      }
      if cmp < 0 {
        AbsentFromGroup(hash, key);
        return 3;
      }
      cmp := SetllInGroup(hash, key, basketID, cur);
    }

    /** The part of setll for a key above the head of its group. */
    method SetllInGroup(hash: nat, key: int, basketID: int, cur: int) returns (cmp: int)
      requires Base() && hash == getHash(key) && basketID == hash % capacity
      requires updatePathOutH.Chain? && SlotOk(nodePool[..], baskets[..], linked, hash, updatePathOutH.node)
      requires cur == Target(nodePool[..], baskets[..], updatePathOutH.node, basketID)
      requires cur in linked && IsHead(nodePool[..], linked, cur) && nodePool[cur].hash == hash
               && nodePool[cur].key < key
      modifies this`updatePathOutH, this`updatePathOutL
      ensures updatePathOutH.node == NIL || updatePathOutH.node in linked
      ensures updatePathOutH.Level? ==> updatePathOutH.node in linked && 0 <= updatePathOutH.level <= 2
      ensures cmp == 0 ==> Deref(basketID) in linked && nodePool[Deref(basketID)].key == key
      ensures cmp != 0 ==> Saved(hash, key, cmp) && cmp != 5 && !HasKey(nodePool[..], linked, key)
    {
      assert ChainAt(nodePool[..], capacity, linked, cur);
      var hit, from, level, u := SearchPath(nodePool, linked, key, cur);
      updatePathOutL := u;
      if hit != NIL {
        updatePathOutH := Level(from, level);
        return 0;
      }
      AbsentFromGroup(hash, key);
      return 1;
    }

    lemma NoneAtSlot(hash: nat, slot: int)
      requires Base() && SlotOk(nodePool[..], baskets[..], linked, hash, slot)
      requires var next := Target(nodePool[..], baskets[..], slot, hash % capacity);
               next == NIL || hash < nodePool[next].hash
      ensures forall y | y in linked :: nodePool[y].hash != hash
    {
      var p, b := nodePool[..], baskets[..];
      if slot == NIL {
        assert BasketAt(p, b, linked, hash % capacity);
      } else {
        assert ChainAt(p, capacity, linked, slot);
      }
    }

    // ---------- taking a node out of the group of the new key ----------

    /** `n` is off every level; only level pointers of other nodes changed. */
    ghost predicate Removed(p: seq<Node>, n: int)
      reads this`linked, baskets, nodePool
    {
      && n in linked && Inside(p, linked) && nodePool.Length == |p| == baskets.Length
      && Bypassed(p, nodePool[..], linked, n, -1)
      && Shape(nodePool[..], baskets[..], linked - {n})
    }

    /** For answers 3 and 4 of setll no path was saved. */
    method DelInSameHashCmp3(n: int, hashHead: int)
      requires Base() && n in linked && IsHead(nodePool[..], linked, hashHead)
      requires nodePool[hashHead].hash == nodePool[n].hash && hashHead != n
      modifies nodePool
      ensures Removed(old(nodePool[..]), n)
    {
      ghost var p := nodePool[..];
      assert ChainAt(p, capacity, linked, hashHead);
      var u := FindPredecessors(nodePool, linked, n, hashHead, 2);
      Bypass(nodePool, linked, n, u);
      UnlinkInner(p, baskets[..], linked, n, nodePool[..]);
    }

    /** `n` is right behind the saved path, first met on level `h`: its predecessors follow from the path. */
    method DelInSameHashSuperFast(n: int, h: int, ghost hash: nat, ghost key: int)
      requires Base() && n in linked && !IsHead(nodePool[..], linked, n) && nodePool[n].hash == hash
      requires PathOk(nodePool[..], linked, hash, key, updatePathOutL) && 0 <= h <= 2
      requires forall y | y in linked :: nodePool[y].key != key
      requires nodePool[updatePathOutL[h]].fwdPtrsL[h] == n
      requires forall i | h < i <= 2 :: nodePool[updatePathOutL[i]].fwdPtrsL[i] != n
      modifies nodePool
      ensures Removed(old(nodePool[..]), n)
      ensures PathOk(nodePool[..], linked - {n}, hash, key, updatePathOutL)
    {
      ghost var p := nodePool[..];
      TopBehindPath(p, linked, hash, key, updatePathOutL, n, h);
      var topH := Max(nodePool[n].curHeight, h);
      assert OnPath(p, linked, hash, key, h, updatePathOutL[h]);
      var u := FindPredecessors(nodePool, linked, n, updatePathOutL[topH], topH);
      Bypass(nodePool, linked, n, u);
      UnlinkInner(p, baskets[..], linked, n, nodePool[..]);
      PathWithoutOther(p, nodePool[..], linked, n, hash, key, updatePathOutL);
    }

    /** `n` is on the saved path, first met on level `h`: its predecessors take its place there. */
    method DelInSameHashPathOut(n: int, h: int, hashHead: int, ghost hash: nat, ghost key: int)
      requires Base() && n in linked && IsHead(nodePool[..], linked, hashHead) && hashHead != n
      requires nodePool[n].hash == hash == nodePool[hashHead].hash
      requires PathOk(nodePool[..], linked, hash, key, updatePathOutL) && 0 <= h <= 2
      requires updatePathOutL[h] == n && forall i | h < i <= 2 :: updatePathOutL[i] != n
      modifies this`updatePathOutL, nodePool
      ensures Removed(old(nodePool[..]), n)
      ensures PathOk(nodePool[..], linked - {n}, hash, key, updatePathOutL)
    {
      ghost var p, path := nodePool[..], updatePathOutL;
      TopOnPath(p, linked, hash, key, path, n, h);
      assert ChainAt(p, capacity, linked, hashHead);
      var topH := Max(nodePool[n].curHeight, h);
      var cur := hashHead;
      var i := 2;
      while i > topH
        invariant topH <= i <= 2
        invariant cur == if i == 2 then hashHead else path[i + 1]
      {
        cur := updatePathOutL[i];
        i := i - 1;
      }
      assert topH < 2 ==> OnPath(p, linked, hash, key, topH + 1, path[topH + 1]);
      RemoveFromPath(n, cur, topH, hash, key);
    }

    method RemoveFromPath(n: int, start: int, topH: int, ghost hash: nat, ghost key: int)
      requires Base() && n in linked && !IsHead(nodePool[..], linked, n)
      requires start in linked && nodePool[start].hash == nodePool[n].hash && nodePool[start].key < nodePool[n].key
      requires nodePool[n].curHeight == topH <= nodePool[start].curHeight
      requires PathOk(nodePool[..], linked, hash, key, updatePathOutL)
      requires forall i | topH < i <= 2 :: updatePathOutL[i] != n
      modifies this`updatePathOutL, nodePool
      ensures Removed(old(nodePool[..]), n)
      ensures PathOk(nodePool[..], linked - {n}, hash, key, updatePathOutL)
    {
      ghost var p, path := nodePool[..], updatePathOutL;
      var u := FindPredecessors(nodePool, linked, n, start, topH);
      Bypass(nodePool, linked, n, u);
      UnlinkInner(p, baskets[..], linked, n, nodePool[..]);
      Reroute(n, u, topH);
      PathWithout(p, nodePool[..], linked, n, hash, key, path, updatePathOutL);
    }

    /** Replaces the deleted node on the path by its predecessors. */
    method Reroute(n: int, u: seq<int>, topH: int)
      requires |u| == 3 && 0 <= topH <= 2
      modifies this`updatePathOutL
      ensures forall j | 0 <= j <= 2 ::
        updatePathOutL[j] == if j <= topH && old(updatePathOutL)[j] == n then u[j] else old(updatePathOutL)[j]
    {
      var i := topH;
      while 0 <= i
        invariant -1 <= i <= topH
        invariant forall j | 0 <= j <= 2 ::
          updatePathOutL[j] == if i < j <= topH && old(updatePathOutL)[j] == n then u[j] else old(updatePathOutL)[j]
      {
        if n == updatePathOutL[i] {
          updatePathOutL := updatePathOutL[i := u[i]];
        }
        i := i - 1;
      }
    }

    /**
     Takes `n` out and repairs the saved path: on every level it ends again at the last node below
     the pending key.
     */
    method DelInSameHash(n: int, hashHead: int, ghost hash: nat, ghost key: int)
      requires Base() && n in linked && IsHead(nodePool[..], linked, hashHead) && hashHead != n
      requires nodePool[n].hash == hash == nodePool[hashHead].hash
      requires PathOk(nodePool[..], linked, hash, key, updatePathOutL)
      requires forall y | y in linked :: nodePool[y].key != key
      modifies this`updatePathOutL, nodePool
      ensures Removed(old(nodePool[..]), n)
      ensures PathOk(nodePool[..], linked - {n}, hash, key, updatePathOutL)
    {
      ghost var p := nodePool[..];
      assert !IsHead(p, linked, n);
      var h := 2;
      while 0 <= h
        invariant -1 <= h <= 2
        invariant forall i | h < i <= 2 :: updatePathOutL[i] != n && nodePool[updatePathOutL[i]].fwdPtrsL[i] != n
        invariant nodePool[..] == p && updatePathOutL == old(updatePathOutL)
      {
        if n == updatePathOutL[h] {
          DelInSameHashPathOut(n, h, hashHead, hash, key);
          return;
        }
        if n == nodePool[updatePathOutL[h]].fwdPtrsL[h] {
          TopBehindPath(p, linked, hash, key, updatePathOutL, n, h);
          var h2 := h - 1;
          while 0 <= h2
            invariant -1 <= h2 < h
          {
            if n == updatePathOutL[h2] {
              assert false;
              return;
            }
            h2 := h2 - 1;
          }
          DelInSameHashSuperFast(n, h, hash, key);
          return;
        }
        h := h - 1;
      }
      DelInSameHashCmp3(n, hashHead);
      PathWithoutOther(p, nodePool[..], linked, n, hash, key, updatePathOutL);
    }

    /** The victim is the head of the group: it takes over its successor's entry, whose node is recycled. */
    method SwapWithSuccessor(re: int) returns (cur: int)
      requires Base() && IsHead(nodePool[..], linked, re) && nodePool[re].fwdPtrsL[0] in linked
      modifies this`updatePathOutL, nodePool
      ensures cur == old(nodePool[re].fwdPtrsL[0])
      ensures Swapped(old(nodePool[..]), nodePool[..], re, cur)
      ensures forall h | 0 <= h <= 2 ::
        updatePathOutL[h] == if old(updatePathOutL)[h] == cur then re else old(updatePathOutL)[h]
    {
      ghost var p := nodePool[..];
      cur := nodePool[re].fwdPtrsL[0];
      assert LevelAt(nodePool[..], linked, 0, re);
      AboveHeight(cur);
      nodePool[re] := nodePool[re].(key := nodePool[cur].key, data := nodePool[cur].data);
      nodePool[cur] := nodePool[cur].(data := NIL);
      var h := 0;
      while h <= 2
        invariant 0 <= h <= 3 && nodePool.Length == |p|
        invariant PartlySwapped(p, nodePool[..], re, cur, h)
        invariant forall i | 0 <= i <= 2 ::
          updatePathOutL[i] == if i < h && old(updatePathOutL)[i] == cur then re else old(updatePathOutL)[i]
      {
        SwapStep(p, nodePool[..], re, cur, h);
        if h <= nodePool[cur].curHeight {
          SetLevelPtr(nodePool, re, h, nodePool[cur].fwdPtrsL[h]);
          SetLevelPtr(nodePool, cur, h, NIL);
        }
        if updatePathOutL[h] == cur {
          updatePathOutL := updatePathOutL[h := re];
        }
        h := h + 1;
      }
      SwapDone(p, nodePool[..], re, cur);
    }

    lemma AboveHeight(x: int)
      requires Base() && x in linked
      ensures forall h | nodePool[x].curHeight < h <= 2 :: nodePool[x].fwdPtrsL[h] == NIL
    {
      assert LevelAt(nodePool[..], linked, 0, x) && LevelAt(nodePool[..], linked, 1, x)
        && LevelAt(nodePool[..], linked, 2, x);
    }

    // ---------- taking a node out of another group ----------

    /** *slot = to */
    method SetSlot(slot: int, basket: int, to: int)
      requires 0 <= basket < baskets.Length && (slot == NIL || 0 <= slot < nodePool.Length)
      modifies baskets, nodePool
      ensures baskets[..] == if slot == NIL then old(baskets[..])[basket := to] else old(baskets[..])
      ensures nodePool[..]
           == if slot == NIL then old(nodePool[..]) else old(nodePool[..])[slot := old(nodePool[slot]).(fwdPtrH := to)]
    {
      if slot == NIL {
        baskets[basket] := to;
      } else {
        nodePool[slot] := nodePool[slot].(fwdPtrH := to);
      }
    }

    /** The slot that leads to the group of `n`, from `start` on. */
    method SeekHash(n: int, start: int) returns (slot: int)
      requires Base() && n in linked
      requires start == NIL || (IsHead(nodePool[..], linked, start)
                                && nodePool[start].hash % capacity == nodePool[n].hash % capacity
                                && nodePool[start].hash < nodePool[n].hash)
      ensures slot == NIL || (IsHead(nodePool[..], linked, slot)
                              && nodePool[slot].hash % capacity == nodePool[n].hash % capacity
                              && nodePool[slot].hash < nodePool[n].hash)
      ensures (var head := Target(nodePool[..], baskets[..], slot, nodePool[n].hash % capacity);
               IsHead(nodePool[..], linked, head) && nodePool[head].hash == nodePool[n].hash)
    {
      ghost var p, b := nodePool[..], baskets[..];
      var hash := nodePool[n].hash;
      var basket := hash % capacity;
      slot := start;
      assert BasketAt(p, b, linked, basket);
      assert slot != NIL ==> ChainAt(p, capacity, linked, slot);
      var cur := if slot == NIL then baskets[basket] else nodePool[slot].fwdPtrH;
      while cur != NIL && nodePool[cur].hash != hash
        invariant slot == NIL || (IsHead(p, linked, slot) && p[slot].hash % capacity == basket && p[slot].hash < hash)
        invariant cur == Target(p, b, slot, basket) && cur != NIL
        invariant IsHead(p, linked, cur) && p[cur].hash % capacity == basket && p[cur].hash <= hash
        decreases Onward(p, linked, cur)
      {
        assert ChainAt(p, capacity, linked, cur);
        StepOn(p, linked, cur, nodePool[cur].fwdPtrH);
        slot := cur;
        cur := nodePool[cur].fwdPtrH;
      }
    }

    /** The entry of `n` is out of the cache; `n` itself keeps its fields until it is cleared. */
    ghost predicate Gone(p: seq<Node>, n: int)
      reads this`linked, baskets, nodePool
    {
      && n in linked && Inside(p, linked) && nodePool.Length == |p|
      && Shape(nodePool[..], baskets[..], linked - {n})
      && forall x | 0 <= x < |p| && x != n ::
           if x in linked then SameEntry(p[x], nodePool[x]) else nodePool[x] == p[x]
    }

    /** The head of a group leaves; updatePathOutH follows only if the group is emptied. */
    method DelHead(n: int, slot: int)
      requires Base() && IsHead(nodePool[..], linked, n)
      requires slot == NIL || (slot in linked && nodePool[slot].hash != nodePool[n].hash)
      requires Target(nodePool[..], baskets[..], slot, nodePool[n].hash % capacity) == n
      modifies this`updatePathOutH, nodePool, baskets
      ensures HeadPromoted(old(nodePool[..]), nodePool[..], linked, n) && Gone(old(nodePool[..]), n)
      ensures ChainsClosed(old(nodePool[..]), old(baskets[..]), baskets[..], n)
      ensures updatePathOutH
           == (if old(updatePathOutH) == Chain(n) && old(nodePool[n].fwdPtrsL[0]) == NIL then Chain(slot)
               else old(updatePathOutH))
    {
      ghost var p, b := nodePool[..], baskets[..];
      assert LevelAt(p, linked, 0, n);
      CutHead(n, slot);
      HeadCut(p, b, n, slot, nodePool[..], baskets[..]);
      UnlinkHead(p, b, linked, n, nodePool[..], baskets[..]);
    }

    ghost predicate ChainsClosed(p: seq<Node>, b: seq<int>, b': seq<int>, n: int)
      requires 0 <= n < |p|
    {
      |b'| == |b| && forall i | 0 <= i < |b| :: b'[i] == if b[i] == n then Successor(p, n) else b[i]
    }

    /** `p'` is `p` after the slot was redirected and the next node of the group promoted. */
    ghost predicate Cut(p: seq<Node>, b: seq<int>, n: int, slot: int, p': seq<Node>, b': seq<int>)
      requires 0 <= n < |p| && (slot == NIL || 0 <= slot < |p|) && 0 < |b|
    {
      var next := p[n].fwdPtrsL[0];
      && |p'| == |p| && slot != n && next != n && (slot == NIL || slot != next)
      && b' == (if slot == NIL then b[p[n].hash % |b| := Successor(p, n)] else b)
      && (forall x | 0 <= x < |p| && x != slot && x != next :: p'[x] == p[x])
      && (slot != NIL ==> p'[slot] == p[slot].(fwdPtrH := Successor(p, n)))
      && (0 <= next < |p| ==>
            && SameEntry(p[next], p'[next]) && p'[next].curHeight == 2 && p'[next].fwdPtrH == p[n].fwdPtrH
            && forall h | 0 <= h <= 2 ::
                 p'[next].fwdPtrsL[h] == if h <= p[next].curHeight then p[next].fwdPtrsL[h] else p[n].fwdPtrsL[h])
    }

    lemma HeadCut(p: seq<Node>, b: seq<int>, n: int, slot: int, p': seq<Node>, b': seq<int>)
      requires 0 < |b| && Shape(p, b, linked) && IsHead(p, linked, n)
      requires slot == NIL || (slot in linked && p[slot].hash != p[n].hash)
      requires Target(p, b, slot, p[n].hash % |b|) == n && Cut(p, b, n, slot, p', b')
      ensures HeadPromoted(p, p', linked, n) && ChainsClosed(p, b, b', n)
      ensures forall x | 0 <= x < |p| && x != n :: if x in linked then SameEntry(p[x], p'[x]) else p'[x] == p[x]
    {
      assert LevelAt(p, linked, 0, n) && ChainAt(p, |b|, linked, n);
      SlotIsOnly(p, b, linked, n, slot);
    }

    method CutHead(n: int, slot: int)
      requires Base() && IsHead(nodePool[..], linked, n)
      requires slot == NIL || (slot in linked && nodePool[slot].hash != nodePool[n].hash)
      requires Target(nodePool[..], baskets[..], slot, nodePool[n].hash % capacity) == n
      modifies this`updatePathOutH, nodePool, baskets
      ensures Cut(old(nodePool[..]), old(baskets[..]), n, slot, nodePool[..], baskets[..])
      ensures updatePathOutH
           == (if old(updatePathOutH) == Chain(n) && old(nodePool[n].fwdPtrsL[0]) == NIL then Chain(slot)
               else old(updatePathOutH))
    {
      ghost var p := nodePool[..];
      assert LevelAt(p, linked, 0, n) && NextInGroup(p, linked, n, 0, p[n].fwdPtrsL[0]);
      var basket := nodePool[n].hash % capacity;
      var cur := nodePool[n].fwdPtrsL[0];
      SetSlot(slot, basket, cur);
      if cur != NIL {
        Promote(nodePool, n, cur);
      } else {
        SetSlot(slot, basket, nodePool[n].fwdPtrH);
        if updatePathOutH == Chain(n) {
          updatePathOutH := Chain(slot);
        }
      }
    }

    /** allocNode recycles the chain slot itself although its group lives on: updatePathOutH goes stale. */
    ghost predicate Stale(n: int, cmp: int)
      requires 0 <= n < nodePool.Length
      reads this`updatePathOutH, nodePool
    {
      (cmp == 3 || cmp == 4) && updatePathOutH == Chain(n) && nodePool[n].fwdPtrsL[0] != NIL
    }

    /** The state after the entry of `n`, of another group, was taken out. */
    ghost predicate AfterOther(p: seq<Node>, n: int, hash: nat, key: int, cmp: int, stale: bool)
      reads this`linked, this`updatePathOutH, this`updatePathOutL, baskets, nodePool
    {
      && Gone(p, n) && updatePathOutH.Chain?
      && if stale then updatePathOutH == Chain(n)
         else Ready(nodePool[..], baskets[..], linked - {n}, hash, key, cmp, updatePathOutH.node, updatePathOutL)
    }

    method DelWithOtherHash(n: int, start: int, ghost hash: nat, ghost key: int, ghost cmp: int)
      requires Base() && n in linked && nodePool[n].hash != hash && Saved(hash, key, cmp)
      requires start == NIL || (start == updatePathOutH.node && hash < nodePool[n].hash
                                && nodePool[n].hash % capacity == hash % capacity)
      modifies this`updatePathOutH, nodePool, baskets
      ensures AfterOther(old(nodePool[..]), n, hash, key, cmp, old(Stale(n, cmp)))
    {
      var startSearch := SeekHash(n, start);
      var head := if startSearch == NIL then baskets[nodePool[n].hash % capacity] else nodePool[startSearch].fwdPtrH;
      if n == head {
        DelOtherHead(n, startSearch, hash, key, cmp);
      } else {
        DelOtherInner(n, head, hash, key, cmp);
      }
    }

    method DelOtherHead(n: int, slot: int, ghost hash: nat, ghost key: int, ghost cmp: int)
      requires Base() && IsHead(nodePool[..], linked, n) && nodePool[n].hash != hash && Saved(hash, key, cmp)
      requires slot == NIL || (IsHead(nodePool[..], linked, slot) && nodePool[slot].hash < nodePool[n].hash
                               && nodePool[slot].hash % capacity == nodePool[n].hash % capacity)
      requires Target(nodePool[..], baskets[..], slot, nodePool[n].hash % capacity) == n
      modifies this`updatePathOutH, nodePool, baskets
      ensures AfterOther(old(nodePool[..]), n, hash, key, cmp, old(Stale(n, cmp)))
    {
      ghost var p, b, saved := nodePool[..], baskets[..], updatePathOutH.node;
      DelHead(n, slot);
      if !old(Stale(n, cmp)) {
        ReadyWithoutHead(p, b, linked, n, slot, nodePool[..], baskets[..], hash, key, cmp, saved, updatePathOutL);
      }
    }

    method DelOtherInner(n: int, head: int, ghost hash: nat, ghost key: int, ghost cmp: int)
      requires Base() && n in linked && nodePool[n].hash != hash && Saved(hash, key, cmp)
      requires IsHead(nodePool[..], linked, head) && nodePool[head].hash == nodePool[n].hash && head != n
      modifies nodePool
      ensures AfterOther(old(nodePool[..]), n, hash, key, cmp, old(Stale(n, cmp)))
    {
      ghost var p := nodePool[..];
      DelInSameHashCmp3(n, head);
      ReadyWithoutInner(p, baskets[..], linked, n, nodePool[..], hash, key, cmp, updatePathOutH.node, updatePathOutL);
      assert !old(Stale(n, cmp));
    }

    // ---------- recycling ----------

    /** The counters after node x was drawn: a counter that reached `uselessness` pays for it. */
    function Lowered(u: seq<nat>, x: int): (u': seq<nat>)
      requires 0 <= x < |u|
    {
      if u[x] >= uselessness then u[x := u[x] - uselessness] else u
    }

    /** Node x alone has another counter, that of a used entry. */
    predicate RaisedAt(u: seq<nat>, u': seq<nat>, x: int) {
      0 <= x < |u| && u' == u[x := uselessness]
    }

    /**
     The counters once the victim's entry is out.  They stay if it held none, or was the head of the new
     key's group and the new key is below the rest of the group; if it was that head and is not below,
     the next node of the group gets the counter of a used entry; any other victim is cleared.
     */
    ghost function Recounted(p: seq<Node>, was: set<int>, u: seq<nat>, victim: int, hash: nat, key: int): (u': seq<nat>)
      requires Inside(p, was) && |u| == |p| && 0 <= victim < |p|
    {
      if victim !in was then u
      else if p[victim].hash == hash && IsHead(p, was, victim) then
        var next := p[victim].fwdPtrsL[0];
        if 0 <= next < |p| && p[next].key < key then u[next := uselessness] else u
      else u[victim := 0]
    }

    /** The next node of the pool.  A counter that reached `uselessness` is lowered, but its node is taken anyway. */
    method Draw() returns (re: int)
      requires nodePoolId < capacity == used.Length
      modifies this`nodePoolId, used
      ensures re == nodePoolId == (old(nodePoolId) + 1) % capacity
      ensures used[..] == Lowered(old(used[..]), re)
    {
      nodePoolId := nodePoolId + 1;
      if nodePoolId >= capacity {
        nodePoolId := 0;
      }
      re := nodePoolId;
      if used[re] >= uselessness {
        used[re] := used[re] - uselessness;
      }
    }

    /** Out of every list, and without links of its own. */
    ghost predicate Free(n: int)
      reads this`linked, nodePool
    {
      0 <= n < nodePool.Length && n !in linked && nodePool[n].fwdPtrH == NIL && nodePool[n].fwdPtrsL == [NIL, NIL, NIL]
    }

    method Clear(n: int)
      requires 0 <= n < nodePool.Length == used.Length
      modifies nodePool, used
      ensures nodePool[..] == old(nodePool[..])[n := Cleared(old(nodePool[n]))]
      ensures used[..] == old(used[..])[n := 0]
    {
      nodePool[n] := Cleared(nodePool[n]);
      used[n] := 0;
    }

    /** `re` is recycled: the entry with `key0` is gone, and nothing else has changed for the others. */
    ghost predicate Recycled(p: seq<Node>, was: set<int>, re: int, key0: int)
      reads this`landP, this`linked, baskets, nodePool
    {
      && Base() && Free(re) && re in was && linked == was - {re}
      && Inside(p, was) && NodesOk(p, was) && |p| == nodePool.Length
      && Map() == Contents(p, was) - {key0}
      && forall x | 0 <= x < |p| && x !in was :: nodePool[x] == p[x]
    }

    /** The unlinked node `re` is cleared and no longer counts as linked. */
    method Drop(re: int, ghost p: seq<Node>)
      requires 0 < capacity == baskets.Length == nodePool.Length == used.Length && landP < 256
      requires Gone(p, re) && NodesOk(p, linked)
      requires forall x | x in linked :: p[x].hash == getHash(p[x].key)
      modifies this`linked, nodePool, used
      ensures Recycled(p, old(linked), re, p[re].key) && used[..] == old(used[..])[re := 0]
      ensures forall x | x in linked :: nodePool[x] == old(nodePool[x])
    {
      ghost var q := nodePool[..];
      linked := linked - {re};
      Clear(re);
      ShapeIgnores(q, baskets[..], linked, nodePool[..]);
      assert linked + {re} == old(linked);
      RecycledMap(p, re);
    }

    /** The victim is the head of the new key's group and the new key does not replace it: its successor makes room. */
    method RecycleHead(re: int, ghost hash: nat, ghost key: int) returns (cur: int)
      requires Base() && IsHead(nodePool[..], linked, re) && nodePool[re].hash == hash
      requires PathOk(nodePool[..], linked, hash, key, updatePathOutL) && updatePathOutL[0] != re
      modifies this`linked, this`updatePathOutL, nodePool, used
      ensures Recycled(old(nodePool[..]), old(linked), cur, old(nodePool[re].key))
      ensures cur == old(nodePool[re].fwdPtrsL[0]) && used[..] == old(used[..])[cur := uselessness]
      ensures PathOk(nodePool[..], linked, hash, key, updatePathOutL)
    {
      ghost var p, b, path := nodePool[..], baskets[..], updatePathOutL;
      assert LevelAt(p, linked, 0, re) && ChainAt(p, capacity, linked, re);
      assert OnPath(p, linked, hash, key, 0, path[0]);
      cur := SwapWithSuccessor(re);
      SwapPath(p, b, linked, re, cur, nodePool[..], key, path, updatePathOutL);
      used[cur] := uselessness;
      linked := linked - {cur};
      SwapRecycles(p, old(linked), re, cur);
    }

    lemma SwapRecycles(p: seq<Node>, was: set<int>, re: int, cur: int)
      requires 0 < capacity == baskets.Length == nodePool.Length == used.Length && landP < 256
      requires Shape(p, baskets[..], was) && IsHead(p, was, re) && cur in was && p[re].fwdPtrsL[0] == cur
      requires Swapped(p, nodePool[..], re, cur) && linked == was - {cur}
      requires forall x | x in was :: p[x].hash == getHash(p[x].key)
      ensures Recycled(p, was, cur, p[re].key)
    {
      assert LevelAt(p, was, 0, re) && ChainAt(p, capacity, was, cur);
      SwapShape(p, baskets[..], was, re, cur, nodePool[..]);
      SwapContents(p, was, re, cur, nodePool[..]);
    }

    /** Takes an inner node out of the new key's group. */
    method DelInGroup(re: int, head: int, ghost hash: nat, ghost key: int, cmp: int)
      requires Base() && re in linked && nodePool[re].hash == hash && Saved(hash, key, cmp)
      requires head == Target(nodePool[..], baskets[..], updatePathOutH.node, hash % capacity) && head != re
      requires IsHead(nodePool[..], linked, head) && nodePool[head].hash == hash
      requires !HasKey(nodePool[..], linked, key)
      modifies this`updatePathOutL, nodePool
      ensures Removed(old(nodePool[..]), re)
      ensures Ready(nodePool[..], baskets[..], linked - {re}, hash, key, cmp, updatePathOutH.node, updatePathOutL)
    {
      ghost var p := nodePool[..];
      if cmp == 3 {
        DelInSameHashCmp3(re, head);
      } else {
        DelInSameHash(re, head, hash, key);
      }
      SlotWithoutInner(p, baskets[..], linked, re, nodePool[..], hash, updatePathOutH.node);
    }

    /** The victim is further down in the new key's group. */
    method RecycleInner(re: int, head: int, ghost hash: nat, ghost key: int, cmp: int)
      requires Base() && re in linked && nodePool[re].hash == hash && Saved(hash, key, cmp)
      requires head == Target(nodePool[..], baskets[..], updatePathOutH.node, hash % capacity) && head != re
      requires IsHead(nodePool[..], linked, head) && nodePool[head].hash == hash
      requires !HasKey(nodePool[..], linked, key)
      modifies this`linked, this`updatePathOutL, nodePool, used
      ensures Recycled(old(nodePool[..]), old(linked), re, old(nodePool[re].key))
      ensures used[..] == old(used[..])[re := 0]
      ensures Ready(nodePool[..], baskets[..], linked, hash, key, cmp, updatePathOutH.node, updatePathOutL)
    {
      ghost var p, b := nodePool[..], baskets[..];
      DelInGroup(re, head, hash, key, cmp);
      ghost var q := nodePool[..];
      Drop(re, p);
      ReadyIgnores(q, b, hash, key, cmp);
    }

    lemma RecycledMap(p: seq<Node>, re: int)
      requires Base() && Inside(p, linked + {re}) && NodesOk(p, linked + {re}) && re !in linked
               && |p| == nodePool.Length
      requires forall x | x in linked :: SameEntry(p[x], nodePool[x])
      ensures Map() == Contents(p, linked + {re}) - {p[re].key}
    {
      ContentsWithout(p, linked + {re}, nodePool[..], re);
      assert linked + {re} - {re} == linked;
      ContentsUnique(Contents(p, linked + {re}) - {p[re].key}, nodePool[..], linked);
    }

    /** Only linked nodes matter for the saved path. */
    lemma ReadyIgnores(q: seq<Node>, b: seq<int>, hash: nat, key: int, cmp: int)
      requires Inside(q, linked) && 0 < |b| && nodePool.Length == |q| && updatePathOutH.Chain?
      requires forall x | x in linked :: nodePool[x] == q[x]
      requires Ready(q, b, linked, hash, key, cmp, updatePathOutH.node, updatePathOutL)
      ensures Ready(nodePool[..], b, linked, hash, key, cmp, updatePathOutH.node, updatePathOutL)
    {
      var p := nodePool[..];
      if cmp == 1 || cmp == -1 {
        forall h | 0 <= h <= 2 ensures OnPath(p, linked, hash, key, h, updatePathOutL[h]) {
          assert OnPath(q, linked, hash, key, h, updatePathOutL[h]);
        }
      }
    }

    /** The victim belongs to another group. */
    method RecycleOther(re: int, basketID: int, hash: nat, ghost key: int, ghost cmp: int)
      requires Base() && re in linked && nodePool[re].hash != hash && Saved(hash, key, cmp)
      requires basketID == hash % capacity
      modifies this`linked, this`updatePathOutH, nodePool, baskets, used
      ensures Recycled(old(nodePool[..]), old(linked), re, old(nodePool[re].key)) && updatePathOutH.Chain?
      ensures used[..] == old(used[..])[re := 0]
      ensures if old(Stale(re, cmp)) then updatePathOutH == Chain(re)
              else Ready(nodePool[..], baskets[..], linked, hash, key, cmp, updatePathOutH.node, updatePathOutL)
    {
      ghost var p := nodePool[..];
      var reBasketID := nodePool[re].hash % capacity;
      var start := if nodePool[re].hash > hash && reBasketID == basketID then updatePathOutH.node else NIL;
      DelWithOtherHash(re, start, hash, key, cmp);
      ghost var q := nodePool[..];
      Drop(re, p);
      if !old(Stale(re, cmp)) {
        ReadyIgnores(q, baskets[..], hash, key, cmp);
      }
    }

    // ---------- linking the recycled node ----------

    /** The recycled node with the new entry, in no list yet. */
    ghost predicate Filled(n: int, hash: nat, key: int)
      reads this`linked, nodePool
    {
      Free(n) && 0 <= key == nodePool[n].key && nodePool[n].hash == hash == getHash(key)
    }

    /** Answers 1 and -1: behind the saved path. */
    method LinkBehindPath(n: int, ghost hash: nat, ghost key: int)
      requires Base() && Filled(n, hash, key) && PathOk(nodePool[..], linked, hash, key, updatePathOutL)
      requires !HasKey(nodePool[..], linked, key)
      modifies this`landP, this`linked, nodePool
      ensures Base() && linked == old(linked) + {n}
      ensures Stores(old(nodePool[..]), baskets[..], old(linked), nodePool[..], baskets[..], linked, n)
    {
      ghost var p := nodePool[..];
      nodePool[n] := nodePool[n].(curHeight := Landscape(landP));
      landP := NextLand(landP);
      ghost var p1 := nodePool[..];
      forall i | 0 <= i <= 2 ensures updatePathOutL[i] in linked && OnPath(p, linked, hash, key, i, updatePathOutL[i]) {
      }
      Splice(nodePool, linked, n, updatePathOutL);
      SpliceLinks(p, baskets[..], linked, n, updatePathOutL, p1, nodePool[..]);
      linked := linked + {n};
    }

    function OutcomeOf(stale: bool, cmp: int): (outcome: Outcome) {
      if !stale then Stored else if cmp == 3 then NullDereference else Lost
    }

    /** A node that held nothing was linked with the new entry, the others keep theirs. */
    ghost predicate Entered(p: seq<Node>, was: set<int>, n: int, hash: nat, key: int)
      reads this`linked, nodePool
    {
      && |p| == nodePool.Length && Inside(p, was) && 0 <= n < |p|
      && linked == was + {n} && nodePool[n].key == key && nodePool[n].hash == hash
      && forall x | x in was :: SameEntry(p[x], nodePool[x])
    }

    /** Where the saved slot is: right for setll's answer, or the cleared chain pointer of the recycled node itself. */
    ghost predicate SlotKnown(n: int, hash: nat, key: int, cmp: int, stale: bool)
      requires 0 < capacity == baskets.Length && Inside(nodePool[..], linked)
      reads this`linked, this`updatePathOutH, this`updatePathOutL, baskets, nodePool
    {
      && updatePathOutH.Chain? && (cmp == 1 || cmp == -1 || 3 <= cmp <= 5)
      && if stale then (cmp == 3 || cmp == 4) && updatePathOutH == Chain(n)
         else Ready(nodePool[..], baskets[..], linked, hash, key, cmp, updatePathOutH.node, updatePathOutL)
    }

    /** Answer 3: in front of the head, which steps down. */
    method LinkBeforeHead(n: int, basketID: int, ghost hash: nat, ghost key: int, ghost stale: bool)
      returns (ghost outcome: Outcome)
      requires Base() && Filled(n, hash, key) && basketID == hash % capacity && SlotKnown(n, hash, key, 3, stale)
      modifies this`landP, this`linked, nodePool, baskets
      ensures outcome == if stale then NullDereference else Stored
      ensures !stale ==>
        && Base() && linked == old(linked) + {n}
        && Stores(old(nodePool[..]), old(baskets[..]), old(linked), nodePool[..], baskets[..], linked, n)
    {
      ghost var p, b := nodePool[..], baskets[..];
      var slot := updatePathOutH.node;
      var prevHead := Deref(basketID);
      SetSlot(slot, basketID, n);
      if prevHead == NIL {
        return NullDereference;
      }
      DemoteHead(nodePool, n, prevHead, Landscape(landP));
      landP := NextLand(landP);
      NewHeadLinks(p, b, linked, n, prevHead, slot, nodePool[..], baskets[..]);
      linked := linked + {n};
      outcome := Stored;
    }

    /** Answers 4 and 5: a group of its own.  In the stale slot the node leads to itself, and nothing leads to it. */
    method LinkNewGroup(n: int, basketID: int, ghost hash: nat, ghost key: int, ghost cmp: int, ghost stale: bool)
      requires Base() && Filled(n, hash, key) && basketID == hash % capacity
      requires (cmp == 4 || cmp == 5) && SlotKnown(n, hash, key, cmp, stale)
      modifies this`linked, nodePool, baskets
      ensures Base() && linked == if stale then old(linked) else old(linked) + {n}
      ensures !stale ==> Stores(old(nodePool[..]), old(baskets[..]), old(linked), nodePool[..], baskets[..], linked, n)
      ensures stale ==> nodePool[..] == old(nodePool[..])[n := old(nodePool[n]).(curHeight := 2, fwdPtrH := n)]
    {
      ghost var p, b := nodePool[..], baskets[..];
      var slot := updatePathOutH.node;
      nodePool[n] := nodePool[n].(curHeight := 2);
      nodePool[n] := nodePool[n].(fwdPtrH := Deref(basketID));
      SetSlot(slot, basketID, n);
      if !stale {
        NewGroupLinks(p, b, linked, n, slot, nodePool[..], baskets[..]);
        linked := linked + {n};
      } else {
        ShapeIgnores(p, b, linked, nodePool[..]);
      }
    }

    /** The node holds the new entry and leads to itself; nothing leads to it. */
    predicate Orphan(n: int, hash: nat, key: int, data: int)
      requires 0 <= n < nodePool.Length
      reads nodePool
    {
      nodePool[n] == Node(n, [NIL, NIL, NIL], key, data, hash, 2)
    }

    /** Puts the new entry into the recycled node, which is in no list yet. */
    method Enter(n: int, hash: nat, key: int, data: int, ghost cmp: int, ghost stale: bool)
      requires Base() && Free(n) && 0 <= key && hash == getHash(key) && SlotKnown(n, hash, key, cmp, stale)
      modifies nodePool
      ensures nodePool[..] == old(nodePool[..])[n := old(nodePool[n]).(hash := hash, key := key, data := data)]
      ensures Base() && Map() == old(Map()) && Filled(n, hash, key) && SlotKnown(n, hash, key, cmp, stale)
    {
      ghost var p := nodePool[..];
      nodePool[n] := nodePool[n].(hash := hash, key := key, data := data);
      ShapeIgnores(p, baskets[..], linked, nodePool[..]);
      SameContents(p, linked, nodePool[..]);
      if !stale {
        ReadyIgnores(p, baskets[..], hash, key, cmp);
      }
    }

    /** What linking the filled node n leaves behind, from the pool p on. */
    ghost predicate Linked(outcome: Outcome, p: seq<Node>, was: set<int>, m: map<int, int>, n: int)
      requires 0 <= n < |p|
      reads this`landP, this`linked, baskets, nodePool
    {
      && (outcome.Stored? ==>
            && Base() && |p| == nodePool.Length && Entered(p, was, n, p[n].hash, p[n].key)
            && Map() == m[p[n].key := p[n].data]
            && forall x | 0 <= x < |p| && x !in linked :: nodePool[x] == p[x])
      && (outcome.Lost? ==>
            Base() && linked == was && Map() == m && nodePool[..] == p[n := p[n].(curHeight := 2, fwdPtrH := n)])
    }

    /** Links the filled node as setll's answer says. */
    method LinkFilled(n: int, basketID: int, cmp: int, ghost hash: nat, ghost key: int, ghost stale: bool)
      returns (ghost outcome: Outcome)
      requires Base() && Filled(n, hash, key) && basketID == hash % capacity
      requires !HasKey(nodePool[..], linked, key) && SlotKnown(n, hash, key, cmp, stale)
      modifies this`landP, this`linked, nodePool, baskets
      ensures outcome == OutcomeOf(stale, cmp)
      ensures Linked(outcome, old(nodePool[..]), old(linked), old(Map()), n)
    {
      ghost var p, b, was := nodePool[..], baskets[..], linked;
      if cmp == 1 || cmp == -1 {
        LinkBehindPath(n, hash, key);
        outcome := Stored;
      } else if cmp == 3 {
        outcome := LinkBeforeHead(n, basketID, hash, key, stale);
      } else {
        LinkNewGroup(n, basketID, hash, key, cmp, stale);
        outcome := if stale then Lost else Stored;
      }
      if outcome.Stored? {
        StoredIsLinked(p, b, was, n);
      } else if outcome.Lost? {
        SameContents(p, linked, nodePool[..]);
      }
    }

    lemma StoredIsLinked(p: seq<Node>, b: seq<int>, was: set<int>, n: int)
      requires Base() && Shape(p, b, was) && Stores(p, b, was, nodePool[..], baskets[..], linked, n)
      requires linked == was + {n} && nodePool.Length == |p|
      ensures Linked(Stored, p, was, Contents(p, was), n)
    {
      StoresContents(p, b, was, nodePool[..], baskets[..], linked, n);
      assert SameEntry(p[n], nodePool[..][n]);
      forall x | x in was ensures SameEntry(p[x], nodePool[x]) {
        assert x in linked;
      }
    }

    lemma EnteredFrom(p0: seq<Node>, p: seq<Node>, was: set<int>, n: int, hash: nat, key: int)
      requires 0 <= n < |p0| == |p| && n !in was && Entered(p, was, n, hash, key)
      requires forall x | 0 <= x < |p| && x != n :: p[x] == p0[x]
      ensures Entered(p0, was, n, hash, key)
    {
    }

    /** The entry is put into the recycled node and the node is linked. */
    method Link(n: int, hash: nat, key: int, data: int, basketID: int, cmp: int, ghost stale: bool)
      returns (ghost outcome: Outcome)
      requires Base() && Free(n) && 0 <= key && hash == getHash(key) && basketID == hash % capacity
      requires !HasKey(nodePool[..], linked, key) && SlotKnown(n, hash, key, cmp, stale)
      modifies this`landP, this`linked, nodePool, baskets
      ensures outcome == OutcomeOf(stale, cmp)
      ensures outcome.Stored? ==>
        && Base() && Entered(old(nodePool[..]), old(linked), n, hash, key) && Map() == old(Map())[key := data]
        && forall x | 0 <= x < nodePool.Length && x !in linked :: nodePool[x] == old(nodePool[x])
      ensures outcome.Lost? ==> Base() && linked == old(linked) && Map() == old(Map()) && Orphan(n, hash, key, data)
    {
      ghost var p0, was := nodePool[..], linked;
      Enter(n, hash, key, data, cmp, stale);
      ghost var p := nodePool[..];
      outcome := LinkFilled(n, basketID, cmp, hash, key, stale);
      if outcome.Stored? {
        EnteredFrom(p0, p, was, n, hash, key);
      }
    }

    // ---------- insertNode ----------

    /** The head is recycled in place: the new key belongs exactly where it stands. */
    method ReplaceHead(re: int, key: int, data: int)
      requires Base() && IsHead(nodePool[..], linked, re) && 0 <= key && nodePool[re].hash == getHash(key)
      requires !HasKey(nodePool[..], linked, key)
      requires forall y | y in linked && y != re && nodePool[y].hash == nodePool[re].hash :: key < nodePool[y].key
      modifies nodePool
      ensures Base() && Map() == (old(Map()) - {old(nodePool[re].key)})[key := data]
      ensures forall x | 0 <= x < nodePool.Length && x != re :: nodePool[x] == old(nodePool[x])
    {
      ghost var p := nodePool[..];
      nodePool[re] := nodePool[re].(key := key);
      nodePool[re] := nodePool[re].(data := data);
      RekeyHead(p, baskets[..], linked, re, nodePool[..]);
      RekeyContents(p, linked, re, nodePool[..]);
    }

    lemma InPlaceFits(re: int, hash: nat, key: int, cmp: int)
      requires Base() && Saved(hash, key, cmp) && !HasKey(nodePool[..], linked, key)
               && (cmp == 3 || cmp == 1 || cmp == -1)
      requires Target(nodePool[..], baskets[..], updatePathOutH.node, hash % capacity) == re
      requires cmp == 3 || updatePathOutL[0] == re
      ensures forall y | y in linked && y != re && nodePool[y].hash == hash :: key < nodePool[y].key
    {
      if cmp != 3 {
        assert OnPath(nodePool[..], linked, hash, key, 0, updatePathOutL[0]);
      }
    }

    /** The head can take the new entry just when the new key is below the next one of its group. */
    lemma NextIsBelow(re: int, hash: nat, key: int, cmp: int)
      requires Base() && Saved(hash, key, cmp) && !HasKey(nodePool[..], linked, key)
               && (cmp == 3 || cmp == 1 || cmp == -1)
      requires Target(nodePool[..], baskets[..], updatePathOutH.node, hash % capacity) == re
      requires IsHead(nodePool[..], linked, re) && nodePool[re].hash == hash
      ensures (var next := nodePool[re].fwdPtrsL[0];
               cmp == 3 || updatePathOutL[0] == re <==> !(0 <= next < nodePool.Length && nodePool[next].key < key))
    {
      var p := nodePool[..];
      assert LevelAt(p, linked, 0, re);
      if cmp != 3 {
        assert OnPath(p, linked, hash, key, 0, updatePathOutL[0]);
      }
    }

    lemma GroupExists(re: int, hash: nat, key: int, cmp: int)
      requires Base() && Saved(hash, key, cmp) && re in linked && nodePool[re].hash == hash
      ensures cmp == 3 || cmp == 1 || cmp == -1
      ensures (var head := Target(nodePool[..], baskets[..], updatePathOutH.node, hash % capacity);
               IsHead(nodePool[..], linked, head) && nodePool[head].hash == hash)
    {
      if cmp == 4 || cmp == 5 {
        NoneAtSlot(hash, updatePathOutH.node);
      }
    }

    /** The victim is the head of the new key's group: it takes the new entry, or its successor makes room. */
    method RecycleGroupHead(victim: int, hash: nat, key: int, data: int, cmp: int) returns (re: int, done: bool)
      requires Base() && IsHead(nodePool[..], linked, victim) && nodePool[victim].hash == hash == getHash(key)
      requires 0 <= key && Saved(hash, key, cmp) && !HasKey(nodePool[..], linked, key)
      requires victim == Target(nodePool[..], baskets[..], updatePathOutH.node, hash % capacity)
      requires cmp == 3 || cmp == 1 || cmp == -1
      modifies this`linked, this`updatePathOutL, nodePool, used
      ensures used[..] == old(Recounted(nodePool[..], linked, used[..], victim, hash, key))
      ensures done ==> Base() && linked == old(linked)
                       && Map() == (old(Map()) - {old(nodePool[victim].key)})[key := data]
                       && forall x | 0 <= x < nodePool.Length && x !in linked :: nodePool[x] == old(nodePool[x])
      ensures !done ==> Recycled(old(nodePool[..]), old(linked), re, old(nodePool[victim].key)) &&
                        Ready(nodePool[..], baskets[..], linked, hash, key, cmp, updatePathOutH.node, updatePathOutL)
    {
      re, done := victim, false;
      NextIsBelow(victim, hash, key, cmp);
      if cmp == 3 || updatePathOutL[0] == victim {
        InPlaceFits(victim, hash, key, cmp);
        ReplaceHead(victim, key, data);
        done := true;
      } else {
        re := RecycleHead(victim, hash, key);
      }
    }

    /** Takes the victim's entry out and answers with the node to link, unless that head simply takes the new entry. */
    method Recycle(victim: int, hash: nat, key: int, data: int, basketID: int, cmp: int) returns (re: int, done: bool)
      requires Base() && victim in linked && hash == getHash(key) && 0 <= key && basketID == hash % capacity
      requires Saved(hash, key, cmp) && !HasKey(nodePool[..], linked, key)
      modifies this`linked, this`updatePathOutH, this`updatePathOutL, nodePool, baskets, used
      ensures used[..] == old(Recounted(nodePool[..], linked, used[..], victim, hash, key))
      ensures done ==> Base() && linked == old(linked) && !old(Stale(victim, cmp))
                       && Map() == (old(Map()) - {old(nodePool[victim].key)})[key := data]
                       && forall x | 0 <= x < nodePool.Length && x !in linked :: nodePool[x] == old(nodePool[x])
      ensures !done ==> Recycled(old(nodePool[..]), old(linked), re, old(nodePool[victim].key)) && updatePathOutH.Chain?
      ensures !done && old(Stale(victim, cmp)) ==> re == victim && updatePathOutH == Chain(victim)
      ensures !done && !old(Stale(victim, cmp)) ==>
                Ready(nodePool[..], baskets[..], linked, hash, key, cmp, updatePathOutH.node, updatePathOutL)
    {
      re, done := victim, false;
      if nodePool[victim].hash == hash {
        GroupExists(victim, hash, key, cmp);
        var head := Deref(basketID);
        assert !Stale(victim, cmp);
        if victim == head {
          re, done := RecycleGroupHead(victim, hash, key, data, cmp);
        } else {
          RecycleInner(victim, head, hash, key, cmp);
        }
      } else {
        RecycleOther(victim, basketID, hash, key, cmp);
      }
    }

    /** What allocNode leaves behind for the cache `m`, of whose nodes `p` those of `was` were linked. */
    ghost predicate Ended(outcome: Outcome, p: seq<Node>, was: set<int>, m: map<int, int>,
                          victim: int, hash: nat, key: int, data: int)
      requires 0 <= victim < |p|
      reads this`landP, this`linked, baskets, nodePool
    {
      && (outcome.Stored? ==>
            Base() && Settled(nodePool[..], linked) && Map() == (m - {p[victim].key})[key := data])
      && (outcome.Stored? && victim !in was ==> Entered(p, was, victim, hash, key))
      && (outcome.Lost? ==>
            && Base() && Map() == m - {p[victim].key} && key !in Map()
            && victim < nodePool.Length && victim !in linked && Orphan(victim, hash, key, data))
    }

    /** allocNode for a victim that holds an entry. */
    method ReuseLinked(victim: int, hash: nat, key: int, data: int, basketID: int, cmp: int)
      returns (ghost outcome: Outcome)
      requires Base() && Settled(nodePool[..], linked) && victim in linked
      requires hash == getHash(key) && 0 <= key && basketID == hash % capacity
      requires Saved(hash, key, cmp) && !HasKey(nodePool[..], linked, key)
      modifies this`landP, this`linked, this`updatePathOutH, this`updatePathOutL, nodePool, baskets, used
      ensures outcome == OutcomeOf(old(Stale(victim, cmp)), cmp)
      ensures used[..] == old(Recounted(nodePool[..], linked, used[..], victim, hash, key))
      ensures Ended(outcome, old(nodePool[..]), old(linked), old(Map()), victim, hash, key, data)
    {
      ghost var p, was, stale := nodePool[..], linked, Stale(victim, cmp);
      assert key !in Map();
      var re, done := Recycle(victim, hash, key, data, basketID, cmp);
      if done {
        StillSettled(p, was, nodePool[..], linked, NIL);
        return Stored;
      }
      assert key !in Map();
      outcome := Link(re, hash, key, data, basketID, cmp, stale);
      if outcome.Stored? {
        StillSettled(p, was, nodePool[..], linked, re);
      }
    }

    /** allocNode for a node that holds nothing. */
    method ReuseBlank(victim: int, hash: nat, key: int, data: int, basketID: int, cmp: int)
      returns (ghost outcome: Outcome)
      requires Base() && Settled(nodePool[..], linked) && 0 <= victim < nodePool.Length
      requires victim !in linked && Blank(nodePool[victim])
      requires hash == getHash(key) && 0 <= key && basketID == hash % capacity
      requires Saved(hash, key, cmp) && !HasKey(nodePool[..], linked, key)
      modifies this`landP, this`linked, nodePool, baskets
      ensures outcome == Stored
      ensures Ended(outcome, old(nodePool[..]), old(linked), old(Map()), victim, hash, key, data)
    {
      ghost var p, was, m := nodePool[..], linked, Map();
      assert m - {NO_KEY} == m;
      outcome := Link(victim, hash, key, data, basketID, cmp, false);
      StillSettled(p, was, nodePool[..], linked, victim);
    }

    /** Recycles the next node of the pool for the new entry. */
    method AllocNode(hash: nat, key: int, data: int, basketID: int, cmp: int)
      returns (ghost outcome: Outcome, ghost victim: int)
      requires Valid() && hash == getHash(key) && 0 <= key && basketID == hash % capacity
      requires Saved(hash, key, cmp) && !HasKey(nodePool[..], linked, key)
      modifies this`nodePoolId, this`landP, this`linked, this`updatePathOutH, this`updatePathOutL, nodePool, baskets,
               used
      ensures victim == nodePoolId == (old(nodePoolId) + 1) % capacity && 0 <= victim < nodePool.Length
      ensures outcome == OutcomeOf(victim in old(linked) && old(Stale(victim, cmp)), cmp)
      ensures used[..] ==
              old(Recounted(nodePool[..], linked, Lowered(used[..], (nodePoolId + 1) % capacity),
                            (nodePoolId + 1) % capacity, hash, key))
      ensures Ended(outcome, old(nodePool[..]), old(linked), old(Map()), victim, hash, key, data)
    {
      var re := Draw();
      victim := re;
      assert re in linked || Blank(nodePool[..][re]);
      if nodePool[re].key != NO_KEY {
        outcome := ReuseLinked(re, hash, key, data, basketID, cmp);
      } else {
        outcome := ReuseBlank(re, hash, key, data, basketID, cmp);
      }
    }

    lemma StaleLoses(victim: int, hash: nat, key: int, cmp: int)
      requires Base() && Saved(hash, key, cmp) && !HasKey(nodePool[..], linked, key) && 0 <= victim < nodePool.Length
      ensures (var outcome := OutcomeOf(victim in linked && Stale(victim, cmp), cmp);
               && (outcome.Lost? <==> LosesEntry(nodePool[..], baskets[..], linked, victim, hash))
               && (outcome.NullDereference? <==> FollowsNull(nodePool[..], baskets[..], linked, victim, hash, key)))
    {
      if SlotOk(nodePool[..], baskets[..], linked, hash, victim) {
        SlotUnique(nodePool[..], baskets[..], linked, hash, victim, updatePathOutH.node);
      }
    }

    method Replace(cur: int, key: int, data: int)
      requires Valid() && cur in linked && nodePool[cur].key == key
      modifies nodePool, used
      ensures Valid() && Map() == old(Map())[key := data] && key in old(Map()) && |Map()| <= capacity
      ensures used[..] == old(used[..])[cur := uselessness] && linked == old(linked) && nodePool[cur].key == key
    {
      ghost var p := nodePool[..];
      nodePool[cur] := nodePool[cur].(key := key);
      nodePool[cur] := nodePool[cur].(data := data);
      used[cur] := uselessness;
      DataReplaced(p, cur);
      StillSettled(p, linked, nodePool[..], linked, NIL);
      MapFits();
    }

    lemma DataReplaced(p: seq<Node>, cur: int)
      requires 0 < capacity == baskets.Length == nodePool.Length == used.Length == |p| && landP < 256
      requires Shape(p, baskets[..], linked) && cur in linked
      requires nodePool[..] == p[cur := p[cur].(data := nodePool[..][cur].data)]
      requires forall x | x in linked :: p[x].hash == getHash(p[x].key)
      ensures Base() && Map() == Contents(p, linked)[p[cur].key := nodePool[..][cur].data]
    {
      ShapeIgnoresData(p, baskets[..], linked, nodePool[..]);
      assert HasKey(p, linked, p[cur].key);
      ContentsUpdated(p, linked, nodePool[..], p[cur].key, nodePool[..][cur].data);
      ContentsUnique(Contents(p, linked)[p[cur].key := nodePool[..][cur].data], nodePool[..], linked);
    }

    method InsertNew(hash: nat, key: int, data: int, basketID: int, cmp: int)
      returns (ghost outcome: Outcome, ghost recycled: int)
      requires Valid() && hash == getHash(key) && 0 <= key && basketID == hash % capacity
      requires Saved(hash, key, cmp) && !HasKey(nodePool[..], linked, key)
      modifies this`nodePoolId, this`landP, this`linked, this`updatePathOutH, this`updatePathOutL, nodePool, baskets,
               used
      ensures recycled == nodePoolId == (old(nodePoolId) + 1) % capacity && 0 <= recycled < nodePool.Length
      ensures outcome.Lost? <==> old(LosesEntry(nodePool[..], baskets[..], linked, recycled, hash))
      ensures outcome.NullDereference? <==> old(FollowsNull(nodePool[..], baskets[..], linked, recycled, hash, key))
      ensures Ended(outcome, old(nodePool[..]), old(linked), old(Map()), recycled, hash, key, data)
      ensures outcome.Stored? ==> Valid() && |Map()| <= capacity
      ensures used[..] ==
              old(Recounted(nodePool[..], linked, Lowered(used[..], (nodePoolId + 1) % capacity),
                            (nodePoolId + 1) % capacity, hash, key))
    {
      StaleLoses((nodePoolId + 1) % capacity, hash, key, cmp);
      outcome, recycled := AllocNode(hash, key, data, basketID, cmp);
      if outcome.Stored? {
        MapFits();
      }
    }

    /** 5 for an empty basket, else the answer of setll. */
    method SavePath(hash: nat, key: int, basketID: int) returns (cmp: int)
      requires Base() && hash == getHash(key) && basketID == hash % capacity
      modifies this`updatePathOutH, this`updatePathOutL
      ensures nodePool[..] == old(nodePool[..]) && baskets[..] == old(baskets[..])
      ensures updatePathOutH.node == NIL || updatePathOutH.node in linked
      ensures updatePathOutH.Level? ==> updatePathOutH.node in linked && 0 <= updatePathOutH.level <= 2
      ensures cmp == 0 ==> Deref(basketID) in linked && nodePool[Deref(basketID)].key == key && key in Map()
      ensures cmp != 0 ==> Saved(hash, key, cmp) && !HasKey(nodePool[..], linked, key) && key !in Map()
    {
      updatePathOutH := Chain(NIL);
      if baskets[basketID] != NIL {
        cmp := Setll(hash, key, basketID);
      } else {
        cmp := 5;
        assert BasketAt(nodePool[..], baskets[..], linked, basketID);
        AbsentFromGroup(hash, key);
      }
    }

    /** The linked node that holds `key` has the counter of a used entry now, the others have theirs. */
    ghost predicate Raised(u: seq<nat>, key: int)
      reads this`linked, nodePool, used
    {
      && |u| == used.Length == nodePool.Length
      && exists x :: x in linked && RaisedAt(u, used[..], x) && nodePool[x].key == key
    }

    /** The node drawn for a new key holds an entry whose counter has reached `uselessness`. */
    ghost predicate Hot(victim: int, key: int)
      requires Base()
      reads this`landP, this`linked, baskets, nodePool, used
    {
      key !in Map() && victim in linked && used[victim] >= uselessness
    }

    /** An entry whose counter had reached `uselessness` is gone. */
    ghost predicate HotEvicted(p: seq<Node>, was: set<int>, u: seq<nat>)
      requires Base() && Inside(p, was) && |u| == |p|
      reads this`landP, this`linked, baskets, nodePool
    {
      exists x :: x in was && u[x] >= uselessness && p[x].key !in Map()
    }

    lemma HotIff(p: seq<Node>, was: set<int>, u: seq<nat>, m: map<int, int>, victim: int, key: int, data: int,
                 hot: bool)
      requires Base() && Inside(p, was) && NodesOk(p, was) && |u| == |p| && m == Contents(p, was)
      requires 0 <= victim < |p| && hot == (key !in m && victim in was && u[victim] >= uselessness)
      requires key in m ==> Map() == m[key := data]
      requires key !in m ==> Map() == (m - {p[victim].key})[key := data] || Map() == m - {p[victim].key}
      requires victim !in was ==> p[victim].key == NO_KEY
      ensures hot <==> HotEvicted(p, was, u)
    {
    }

    /**
     A cached key gets its new data.  A new key replaces the entry of the next node of the pool,
     whatever the counter of that node says.  It is lost if and only if `LosesEntry` holds, and the
     program follows a null pointer, after which nothing is promised, if and only if `FollowsNull` does.
     */
    method InsertNode(key: int, data: int) returns (ghost outcome: Outcome, ghost recycled: int)
      requires Valid() && 0 <= key
      modifies this`nodePoolId, this`landP, this`linked, this`updatePathOutH, this`updatePathOutL, nodePool, baskets,
               used
      ensures recycled == (old(nodePoolId) + 1) % capacity && 0 <= recycled < nodePool.Length
      ensures key in old(Map()) ==>
        outcome == Stored && Valid() && Map() == old(Map())[key := data] && nodePoolId == old(nodePoolId)
      ensures key !in old(Map()) ==>
        && (outcome.Lost? <==> old(LosesEntry(nodePool[..], baskets[..], linked, recycled, getHash(key))))
        && (outcome.NullDereference? <==>
              old(FollowsNull(nodePool[..], baskets[..], linked, recycled, getHash(key), key)))
        && Ended(outcome, old(nodePool[..]), old(linked), old(Map()), recycled, getHash(key), key, data)
        && nodePoolId == recycled
        && used[..] ==
           old(Recounted(nodePool[..], linked, Lowered(used[..], (nodePoolId + 1) % capacity),
                         (nodePoolId + 1) % capacity, getHash(key), key))
      ensures key in old(Map()) ==> Raised(old(used[..]), key)
      ensures outcome.Stored? ==> Valid() && |Map()| <= capacity
      ensures !outcome.NullDereference? ==>
        (old(Hot(recycled, key)) <==> HotEvicted(old(nodePool[..]), old(linked), old(used[..])))
    {
      ghost var p, was, u := nodePool[..], linked, used[..];
      ghost var hot := Hot((nodePoolId + 1) % capacity, key);
      var hash := getHash(key);
      var basketID := hash % capacity;
      var cmp := SavePath(hash, key, basketID);
      if cmp == 0 {
        recycled := (nodePoolId + 1) % capacity;
        Replace(Deref(basketID), key, data);
        outcome := Stored;
      } else {
        outcome, recycled := InsertNew(hash, key, data, basketID, cmp);
      }
      if !outcome.NullDereference? {
        HotIff(p, was, u, old(Map()), recycled, key, data, hot);
      }
    }

    lemma MapFits()
      requires Base()
      ensures |Map()| <= capacity
    {
      ContentsSize(nodePool[..], linked);
    }

    /** While the pool has nodes that hold nothing, an insertion only adds. */
    method InsertIntoBlank(key: int, data: int)
      requires Valid() && 0 <= key && key !in Map() && (nodePoolId + 1) % capacity !in linked
      modifies this`nodePoolId, this`landP, this`linked, this`updatePathOutH, this`updatePathOutL, nodePool, baskets,
               used
      ensures Valid() && nodePoolId == (old(nodePoolId) + 1) % capacity
      ensures Map() == old(Map())[key := data]
      ensures Entered(old(nodePool[..]), old(linked), nodePoolId, getHash(key), key)
    {
      ghost var p, m := nodePool[..], Map();
      assert Blank(p[(nodePoolId + 1) % capacity]);
      assert NO_KEY !in m;
      assert m - {NO_KEY} == m;
      ghost var outcome, recycled := InsertNode(key, data);
    }

    /** An insertion with a stale slot, seen from a caller who knows that it is one. */
    method InsertStale(key: int, data: int, ghost p: seq<Node>, ghost b: seq<int>, ghost victim: int)
      returns (ghost outcome: Outcome)
      requires Valid() && 0 <= key && key !in Map() && p == nodePool[..] && b == baskets[..]
      requires victim == (nodePoolId + 1) % capacity && StaleSlot(p, b, linked, victim, getHash(key))
      modifies this`nodePoolId, this`landP, this`linked, this`updatePathOutH, this`updatePathOutL, nodePool, baskets,
               used
      ensures FollowsNull(p, b, old(linked), victim, getHash(key), key) ==> outcome == NullDereference
      ensures LosesEntry(p, b, old(linked), victim, getHash(key)) ==>
        outcome == Lost && Base() && Map() == old(Map()) - {p[victim].key}
    {
      ghost var recycled;
      outcome, recycled := InsertNode(key, data);
    }

    /** In a pool of one node, a cached key that is inserted again. */
    method UseAgain(key: int, data: int)
      requires Valid() && capacity == 1 && 0 <= key && key in Map()
      modifies this`nodePoolId, this`landP, this`linked, this`updatePathOutH, this`updatePathOutL, nodePool, baskets,
               used
      ensures Valid() && Map() == old(Map())[key := data] && linked == {0} && used[0] == uselessness
    {
      ghost var outcome, recycled := InsertNode(key, data);
      assert forall x | x in linked :: x == 0;
      assert linked == {0};
    }

    /** In a pool of one node, whose counter may be anything, a new key takes the place of the one that is there. */
    method InsertOver(key: int, data: int)
      requires Valid() && capacity == 1 && linked == {0} && 0 <= key && key !in Map()
      modifies this`nodePoolId, this`landP, this`linked, this`updatePathOutH, this`updatePathOutL, nodePool, baskets,
               used
      ensures Valid() && Map() == map[key := data]
    {
      AloneIsNotStale(nodePool[..], baskets[..], linked, 0, getHash(key));
      ghost var p := nodePool[..];
      assert forall k | k in Map() :: k == p[0].key;
      assert Map() - {p[0].key} == map[];
      ghost var outcome, recycled := InsertNode(key, data);
    }

    constructor (capacity: nat, uselessness: nat, getHash: int -> nat)
      requires 0 < capacity
      ensures Valid() && linked == {} && Map() == map[] && nodePoolId == 0
      ensures this.capacity == capacity && this.uselessness == uselessness && this.getHash == getHash
      ensures fresh(baskets) && fresh(nodePool) && fresh(used)
    {
      this.capacity, this.uselessness, this.getHash := capacity, uselessness, getHash;
      baskets := new int[capacity](i => NIL);
      nodePool := new Node[capacity](i => Node(NIL, [NIL, NIL, NIL], NO_KEY, NIL, 0, 0));
      used := new nat[capacity](i => 0);
      nodePoolId, landP := 0, 0;
      updatePathOutH, updatePathOutL := Chain(NIL), [NIL, NIL, NIL];
      linked := {};
      new;
      forall i | 0 <= i < capacity ensures BasketAt(nodePool[..], baskets[..], linked, i) {
      }
      ContentsUnique(map[], nodePool[..], linked);
    }
  }

  // ---------- a hot entry ----------

  lemma AloneIsNotStale(p: seq<Node>, b: seq<int>, linked: set<int>, n: int, hash: nat)
    requires Shape(p, b, linked) && linked == {n}
    ensures !StaleSlot(p, b, linked, n, hash)
  {
    assert LevelAt(p, linked, 0, n);
  }

  /** A pool of one node in which key 1 was used again: its counter is that of a used entry. */
  method UsedAgain(uselessness: nat, getHash: int -> nat, data: int) returns (cache: OnCacheSMRU)
    ensures fresh(cache) && fresh(cache.baskets) && fresh(cache.nodePool) && fresh(cache.used)
    ensures cache.Valid() && cache.capacity == 1 && cache.uselessness == uselessness
    ensures cache.Map() == map[1 := data] && cache.linked == {0} && cache.used[0] == uselessness
  {
    cache := new OnCacheSMRU(1, uselessness, getHash);
    cache.InsertIntoBlank(1, data);
    cache.UseAgain(1, data);
  }

  /** The used entry makes room for key 2 all the same. */
  method HotExample(uselessness: nat, getHash: int -> nat, data: int)
    returns (cache: OnCacheSMRU, counter: nat, ghost before: map<int, int>)
    ensures counter == uselessness && before == map[1 := data]
    ensures cache.Valid() && cache.uselessness == uselessness && cache.Map() == map[2 := data]
  {
    cache := UsedAgain(uselessness, getHash, data);
    counter, before := cache.used[0], cache.Map();
    cache.InsertOver(2, data);
  }

  // ---------- caches with a stale slot ----------

  predicate Holding(n: Node, key: int, hash: nat) {
    n.key == key && n.hash == hash
  }

  /** A pool of three nodes after two insertions: keys 1 and 2 share hash 0. */
  method TwoKeys(getHash: int -> nat) returns (cache: OnCacheSMRU)
    requires getHash(1) == getHash(2) == 0
    ensures fresh(cache) && fresh(cache.baskets) && fresh(cache.nodePool) && fresh(cache.used)
    ensures cache.Valid() && cache.capacity == 3 && cache.getHash == getHash && cache.nodePoolId == 2
    ensures cache.Map() == map[1 := 10, 2 := 20] && cache.linked == {1, 2}
    ensures Holding(cache.nodePool[1], 1, 0) && Holding(cache.nodePool[2], 2, 0)
  {
    cache := new OnCacheSMRU(3, 1, getHash);
    assert cache.linked == {};
    cache.InsertIntoBlank(1, 10);
    assert cache.linked == {1} && Holding(cache.nodePool[1], 1, 0);
    cache.InsertIntoBlank(2, 20);
    assert cache.linked == {1, 2};
  }

  predicate HoldsThree(p: seq<Node>, linked: set<int>, third: nat, hash: nat) {
    && |p| == 3 && linked == {0, 1, 2}
    && Holding(p[0], third, hash) && Holding(p[1], 1, 0) && Holding(p[2], 2, 0)
  }

  lemma StaleForThree(p: seq<Node>, b: seq<int>, linked: set<int>, third: nat, hash: nat)
    requires Shape(p, b, linked) && HoldsThree(p, linked, third, hash) && third > 2 && (hash == 1 || hash == 3)
    ensures hash == 1 ==> LosesEntry(p, b, linked, 1, 3)
    ensures hash == 3 && third > 5 ==> FollowsNull(p, b, linked, 1, 3, 5)
  {
    assert LevelAt(p, linked, 0, 1) && ChainAt(p, 3, linked, 1);
    assert 2 in linked && IsHead(p, linked, 1) && IsHead(p, linked, 0);
  }

  /** A third key in node 0; node 1 is recycled next, for key 5 of hash 3, whose slot it is. */
  method ThreeKeys(third: nat, getHash: int -> nat) returns (cache: OnCacheSMRU)
    requires third > 5 && getHash(1) == getHash(2) == 0 && getHash(5) == 3
             && (getHash(third) == 1 || getHash(third) == 3)
    ensures fresh(cache) && fresh(cache.baskets) && fresh(cache.nodePool) && fresh(cache.used)
    ensures cache.Valid() && cache.capacity == 3 && cache.getHash == getHash && cache.nodePoolId == 0
    ensures cache.Map() == map[1 := 10, 2 := 20, third := 30] && Holding(cache.nodePool[1], 1, 0)
    ensures getHash(third) == 1 ==> LosesEntry(cache.nodePool[..], cache.baskets[..], cache.linked, 1, 3)
    ensures getHash(third) == 3 ==> FollowsNull(cache.nodePool[..], cache.baskets[..], cache.linked, 1, 3, 5)
  {
    cache := TwoKeys(getHash);
    cache.InsertIntoBlank(third, 30);
    assert HoldsThree(cache.nodePool[..], cache.linked, third, getHash(third));
    StaleForThree(cache.nodePool[..], cache.baskets[..], cache.linked, third, getHash(third));
  }

  /** After keys 1, 2 (hash 0) and 7 (hash 1), key 5 of hash 3 is lost. */
  method LossExample() returns (cache: OnCacheSMRU, ghost outcome: Outcome)
    ensures outcome == Lost && cache.Base() && cache.Map() == map[2 := 20, 7 := 30]
  {
    cache := ThreeKeys(7, key => if key == 5 then 3 else if key == 7 then 1 else 0);
    outcome := cache.InsertStale(5, 50, cache.nodePool[..], cache.baskets[..], 1);
  }

  /** After keys 1, 2 (hash 0) and 6 (hash 3), the insertion of key 5 of hash 3 follows a null pointer. */
  method NullExample() returns (ghost outcome: Outcome)
    ensures outcome == NullDereference
  {
    var cache := ThreeKeys(6, key => if key == 5 || key == 6 then 3 else 0);
    outcome := cache.InsertStale(5, 50, cache.nodePool[..], cache.baskets[..], 1);
  }
}
