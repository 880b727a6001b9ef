/**
 The search path that OnCacheSMRU saves before it recycles a node (src/caches/oncachesmru.h), and
 what the removal of a node means for it.
 */
module SavedPath {
  import opened CacheNodes

  /** `u` leads to the place of `key` on every level of the group of `hash`. */
  ghost predicate PathOk(p: seq<Node>, linked: set<int>, hash: nat, key: int, u: seq<int>)
    requires Inside(p, linked)
  {
    && |u| == 3 && u[0] in linked && u[1] in linked && u[2] in linked
    && forall h {:trigger OnPath(p, linked, hash, key, h, u[h])} | 0 <= h <= 2 :: OnPath(p, linked, hash, key, h, u[h])
  }

  /** Going down a level never leads back. */
  lemma PathAscends(p: seq<Node>, linked: set<int>, hash: nat, key: int, u: seq<int>, h: int, i: int)
    requires Inside(p, linked) && PathOk(p, linked, hash, key, u) && 0 <= h <= i <= 2
    ensures p[u[i]].key <= p[u[h]].key
  {
    assert OnPath(p, linked, hash, key, h, u[h]) && OnPath(p, linked, hash, key, i, u[i]);
  }

  /** A node met first on level `h`, as the path's node there, reaches no higher. */
  lemma TopOnPath(p: seq<Node>, linked: set<int>, hash: nat, key: int, u: seq<int>, n: int, h: int)
    requires Inside(p, linked) && NodesOk(p, linked) && PathOk(p, linked, hash, key, u)
    requires n in linked && p[n].hash == hash && 0 <= h <= 2 && u[h] == n
    requires forall i | h < i <= 2 :: u[i] != n
    ensures p[n].curHeight == h && p[n].key < key
    ensures h < 2 ==> p[u[h + 1]].key < p[n].key && h < p[u[h + 1]].curHeight
  {
    assert OnPath(p, linked, hash, key, h, u[h]);
    if h < 2 {
      assert OnPath(p, linked, hash, key, h + 1, u[h + 1]);
      PathAscends(p, linked, hash, key, u, h, h + 1);
    }
  }

  /** A node met first on level `h`, right behind the path, reaches no higher and is above the key. */
  lemma TopBehindPath(p: seq<Node>, linked: set<int>, hash: nat, key: int, u: seq<int>, n: int, h: int)
    requires Inside(p, linked) && NodesOk(p, linked) && LevelsOk(p, linked) && PathOk(p, linked, hash, key, u)
    requires n in linked && p[n].hash == hash && 0 <= h <= 2 && p[u[h]].fwdPtrsL[h] == n
    requires forall y | y in linked :: p[y].key != key
    requires forall i | h < i <= 2 :: p[u[i]].fwdPtrsL[i] != n
    ensures p[n].curHeight == h && key < p[n].key
    ensures forall i | 0 <= i <= 2 :: u[i] != n
  {
    assert OnPath(p, linked, hash, key, h, u[h]) && LevelAt(p, linked, h, u[h]);
    if h < 2 {
      var i := h + 1;
      assert OnPath(p, linked, hash, key, i, u[i]) && LevelAt(p, linked, i, u[i]);
      PathAscends(p, linked, hash, key, u, h, i);
    }
    forall i | 0 <= i <= 2 ensures u[i] != n {
      assert OnPath(p, linked, hash, key, i, u[i]);
    }
  }

  /** A node on no level of the path is on none behind its first appearance either. */
  lemma PathWithoutOther(p: seq<Node>, p': seq<Node>, linked: set<int>, n: int, hash: nat, key: int, u: seq<int>)
    requires Inside(p, linked) && PathOk(p, linked, hash, key, u) && SameButLevels(p, p', linked - {n})
    requires forall h | 0 <= h <= 2 :: u[h] != n
    ensures PathOk(p', linked - {n}, hash, key, u)
  {
    forall h | 0 <= h <= 2 ensures OnPath(p', linked - {n}, hash, key, h, u[h]) {
      assert OnPath(p, linked, hash, key, h, u[h]);
    }
  }

  /** Where the path went through `n`, its predecessor on that level takes its place. */
  lemma PathWithout(p: seq<Node>, p': seq<Node>, linked: set<int>, n: int, hash: nat, key: int, u: seq<int>,
                    w: seq<int>)
    requires Inside(p, linked) && NodesOk(p, linked) && LevelsOk(p, linked) && PathOk(p, linked, hash, key, u)
    requires n in linked && SameButLevels(p, p', linked - {n}) && |w| == 3
    requires forall h | 0 <= h <= 2 ::
      if u[h] == n then w[h] in linked && w[h] != n && p[w[h]].fwdPtrsL[h] == n else w[h] == u[h]
    ensures PathOk(p', linked - {n}, hash, key, w)
  {
    forall h | 0 <= h <= 2 ensures OnPath(p', linked - {n}, hash, key, h, w[h]) {
      assert OnPath(p, linked, hash, key, h, u[h]);
      if u[h] == n {
        assert LevelAt(p, linked, h, w[h]);
      }
    }
  }

  // ---------- a head that takes another entry ----------

  /** `p'` is `p` with another entry in the head `x`, still below the rest of its group. */
  ghost predicate HeadRekeyed(p: seq<Node>, p': seq<Node>, linked: set<int>, x: int)
    requires Inside(p, linked)
  {
    && |p'| == |p| && IsHead(p, linked, x)
    && (forall y | y in linked && y != x :: p'[y] == p[y] && p[y].key != p'[x].key)
    && p'[x] == p[x].(key := p'[x].key, data := p'[x].data) && 0 <= p'[x].key
    && forall y | y in linked && y != x && p[y].hash == p[x].hash :: p'[x].key < p[y].key
  }

  lemma RekeyLevel(p: seq<Node>, linked: set<int>, x: int, p': seq<Node>, h: int)
    requires Inside(p, linked) && NodesOk(p, linked) && 0 <= h <= 2 && LevelOk(p, linked, h)
    requires HeadRekeyed(p, p', linked, x)
    ensures LevelOk(p', linked, h)
  {
    forall y | y in linked ensures LevelAt(p', linked, h, y) {
      assert LevelAt(p, linked, h, y);
    }
  }

  lemma RekeyHeads(p: seq<Node>, linked: set<int>, x: int, p': seq<Node>, y: int)
    requires Inside(p, linked) && NodesOk(p, linked) && HeadRekeyed(p, p', linked, x) && y in linked
    ensures IsHead(p', linked, y) <==> IsHead(p, linked, y)
  {
    assert p'[x].hash == p[x].hash && p'[y].hash == p[y].hash;
    if y != x && p[y].hash == p[x].hash {
      assert p'[x].key < p'[y].key && p[x].key < p[y].key;
    }
  }

  /** A head may change its entry as long as it stays below the rest of its group. */
  lemma RekeyHead(p: seq<Node>, b: seq<int>, linked: set<int>, x: int, p': seq<Node>)
    requires Shape(p, b, linked) && HeadRekeyed(p, p', linked, x)
    ensures Shape(p', b, linked)
  {
    RekeyLevel(p, linked, x, p', 0);
    RekeyLevel(p, linked, x, p', 1);
    RekeyLevel(p, linked, x, p', 2);
    forall y | y in linked ensures IsHead(p', linked, y) <==> IsHead(p, linked, y) {
      RekeyHeads(p, linked, x, p', y);
    }
    forall y | y in linked ensures ChainAt(p', |b|, linked, y) {
      assert ChainAt(p, |b|, linked, y);
    }
    forall i | 0 <= i < |b| ensures BasketAt(p', b, linked, i) {
      assert BasketAt(p, b, linked, i);
    }
  }

  // ---------- the victim is the head: its successor moves into its place ----------

  /** `re` took over the entry and the links of its successor `cur`, which is left without links. */
  ghost predicate Swapped(p: seq<Node>, p': seq<Node>, re: int, cur: int)
    requires 0 <= re < |p| && 0 <= cur < |p|
  {
    && |p'| == |p| && re != cur
    && (forall y | 0 <= y < |p| && y != re && y != cur :: p'[y] == p[y])
    && p'[re] == p[re].(key := p[cur].key, data := p[cur].data, fwdPtrsL := p'[re].fwdPtrsL)
    && (forall h | 0 <= h <= 2 ::
          p'[re].fwdPtrsL[h] == if h <= p[cur].curHeight then p[cur].fwdPtrsL[h] else p[re].fwdPtrsL[h])
    && p'[cur] == p[cur].(data := NIL, fwdPtrsL := [NIL, NIL, NIL])
  }

  /** The same with the links of the levels below `h` only. */
  ghost predicate PartlySwapped(p: seq<Node>, p': seq<Node>, re: int, cur: int, h: int)
    requires 0 <= re < |p| && 0 <= cur < |p|
  {
    && |p'| == |p| && re != cur
    && (forall y | 0 <= y < |p| && y != re && y != cur :: p'[y] == p[y])
    && p'[re] == p[re].(key := p[cur].key, data := p[cur].data, fwdPtrsL := p'[re].fwdPtrsL)
    && p'[cur] == p[cur].(data := NIL, fwdPtrsL := p'[cur].fwdPtrsL)
    && (forall i | 0 <= i <= 2 ::
          p'[re].fwdPtrsL[i] == if i < h && i <= p[cur].curHeight then p[cur].fwdPtrsL[i] else p[re].fwdPtrsL[i])
    && (forall i | 0 <= i <= 2 ::
          p'[cur].fwdPtrsL[i] == if i < h && i <= p[cur].curHeight then NIL else p[cur].fwdPtrsL[i])
  }

  lemma SwapStep(p: seq<Node>, q: seq<Node>, re: int, cur: int, h: int)
    requires 0 <= re < |p| && 0 <= cur < |p| && 0 <= h <= 2 && PartlySwapped(p, q, re, cur, h)
    ensures PartlySwapped(p, if h <= q[cur].curHeight
                             then SetLevel(SetLevel(q, re, h, q[cur].fwdPtrsL[h]), cur, h, NIL) else q, re, cur, h + 1)
  {
  }

  lemma SwapDone(p: seq<Node>, p': seq<Node>, re: int, cur: int)
    requires 0 <= re < |p| && 0 <= cur < |p| && PartlySwapped(p, p', re, cur, 3)
    requires forall h | 0 <= h <= 2 && p[cur].curHeight < h :: p[cur].fwdPtrsL[h] == NIL
    ensures Swapped(p, p', re, cur)
  {
    assert p'[cur].fwdPtrsL == [NIL, NIL, NIL];
  }

  lemma SuccessorOnLevel(p: seq<Node>, linked: set<int>, re: int, cur: int, h: int, y: int)
    requires Inside(p, linked) && NodesOk(p, linked) && LevelsOk(p, linked) && 0 <= h <= 2
    requires re in linked && cur in linked && p[re].curHeight == 2 && p[re].fwdPtrsL[0] == cur && y in linked
    ensures p[y].fwdPtrsL[h] == cur <==> y == re && h <= p[cur].curHeight
  {
    assert LevelAt(p, linked, 0, re) && LevelAt(p, linked, h, re) && LevelAt(p, linked, h, y);
    if h <= p[cur].curHeight {
      assert p[re].fwdPtrsL[h] == cur;
      if p[y].fwdPtrsL[h] == cur {
        OnlyPredecessor(p, linked, h, cur, re, y);
      }
    }
  }

  lemma SwapShape(p: seq<Node>, b: seq<int>, linked: set<int>, re: int, cur: int, p': seq<Node>)
    requires Shape(p, b, linked) && IsHead(p, linked, re) && cur in linked && p[re].fwdPtrsL[0] == cur
    requires Swapped(p, p', re, cur)
    ensures Shape(p', b, linked - {cur}) && IsHead(p', linked - {cur}, re)
  {
    assert ChainAt(p, |b|, linked, re) && LevelAt(p, linked, 0, re);
    var rest := linked - {cur};
    var q := p[re := p[re].(fwdPtrsL := p'[re].fwdPtrsL)];
    forall h, y | 0 <= h <= 2 && y in rest
      ensures q[y].fwdPtrsL[h] == if p[y].fwdPtrsL[h] == cur then p[cur].fwdPtrsL[h] else p[y].fwdPtrsL[h]
    {
      SuccessorOnLevel(p, linked, re, cur, h, y);
    }
    UnlinkInner(p, b, linked, cur, q);
    var r := p'[cur := q[cur]];
    forall y | y in rest && y != re && p[y].hash == p[re].hash ensures p[cur].key < p[y].key {
      assert p[re].key < p[y].key;
    }
    assert IsHead(q, rest, re);
    RekeyHead(q, b, rest, re, r);
    ShapeIgnores(r, b, rest, p');
    RekeyHeads(q, rest, re, r, re);
  }

  /** Where the path went through the successor, it now goes through the head. */
  lemma SwapPath(p: seq<Node>, b: seq<int>, linked: set<int>, re: int, cur: int, p': seq<Node>,
                 key: int, u: seq<int>, w: seq<int>)
    requires Shape(p, b, linked) && IsHead(p, linked, re) && cur in linked && p[re].fwdPtrsL[0] == cur
    requires Swapped(p, p', re, cur)
    requires PathOk(p, linked, p[re].hash, key, u) && u[0] != re && |w| == 3
    requires forall h | 0 <= h <= 2 :: w[h] == if u[h] == cur then re else u[h]
    ensures p[cur].key < key && PathOk(p', linked - {cur}, p[re].hash, key, w)
  {
    assert ChainAt(p, |b|, linked, re) && LevelAt(p, linked, 0, re);
    assert OnPath(p, linked, p[re].hash, key, 0, u[0]);
    assert p[cur].key <= p[u[0]].key;
    forall h | 0 <= h <= 2 ensures OnPath(p', linked - {cur}, p[re].hash, key, h, w[h]) {
      assert OnPath(p, linked, p[re].hash, key, h, u[h]);
    }
  }

  lemma SwapContents(p: seq<Node>, linked: set<int>, re: int, cur: int, p': seq<Node>)
    requires Inside(p, linked) && NodesOk(p, linked) && re in linked && cur in linked && Swapped(p, p', re, cur)
    requires NodesOk(p', linked - {cur})
    ensures Contents(p', linked - {cur}) == Contents(p, linked) - {p[re].key}
  {
    var m := Contents(p, linked) - {p[re].key};
    forall k | k in m ensures HasKey(p', linked - {cur}, k) {
      var x :| x in linked && p[x].key == k;
      var y := if x == cur then re else x;
      assert y in linked - {cur} && p'[y].key == k;
    }
    ContentsUnique(m, p', linked - {cur});
  }

  /** A head that takes a new entry in place of its own. */
  lemma RekeyContents(p: seq<Node>, linked: set<int>, x: int, p': seq<Node>)
    requires Inside(p, linked) && NodesOk(p, linked) && HeadRekeyed(p, p', linked, x) && NodesOk(p', linked)
    ensures Contents(p', linked) == (Contents(p, linked) - {p[x].key})[p'[x].key := p'[x].data]
  {
    var m := (Contents(p, linked) - {p[x].key})[p'[x].key := p'[x].data];
    forall k | k in m ensures HasKey(p', linked, k) {
      if k == p'[x].key {
        assert x in linked;
      } else {
        var y :| y in linked && p[y].key == k;
        assert p'[y].key == k;
      }
    }
    ContentsUnique(m, p', linked);
  }

  // ---------- the victim belongs to another group ----------

  /** What the slot leads to: `slot` is a head, or null for the basket itself. */
  function Target(p: seq<Node>, b: seq<int>, slot: int, basket: int): (x: int)
    requires 0 <= basket < |b| && (slot == NIL || 0 <= slot < |p|)
  {
    if slot == NIL then b[basket] else p[slot].fwdPtrH
  }

  /** Behind the slot comes the first group whose hash is not below `hash`. */
  ghost predicate SlotOk(p: seq<Node>, b: seq<int>, linked: set<int>, hash: nat, slot: int)
    requires Inside(p, linked) && 0 < |b|
  {
    && (slot == NIL || (IsHead(p, linked, slot) && p[slot].hash % |b| == hash % |b| && p[slot].hash < hash))
    && var next := Target(p, b, slot, hash % |b|);
       next == NIL || (IsHead(p, linked, next) && hash <= p[next].hash)
  }

  /** Nodes of the group keep key and height when another group loses a node. */
  lemma PathOfOtherGroup(p: seq<Node>, p': seq<Node>, linked: set<int>, n: int, hash: nat, key: int, u: seq<int>)
    requires Inside(p, linked) && PathOk(p, linked, hash, key, u) && SameKeys(p, p', linked - {n})
    requires n in linked && p[n].hash != hash
    requires forall y | y in linked && p[y].hash == hash :: p'[y].curHeight == p[y].curHeight
    ensures PathOk(p', linked - {n}, hash, key, u)
  {
    forall h | 0 <= h <= 2 ensures OnPath(p', linked - {n}, hash, key, h, u[h]) {
      assert OnPath(p, linked, hash, key, h, u[h]);
    }
  }

  lemma SlotWithoutInner(p: seq<Node>, b: seq<int>, linked: set<int>, n: int, p': seq<Node>, hash: nat, slot: int)
    requires Shape(p, b, linked) && n in linked && !IsHead(p, linked, n) && SameButLevels(p, p', linked - {n})
    requires SlotOk(p, b, linked, hash, slot)
    ensures SlotOk(p', b, linked - {n}, hash, slot)
    ensures Target(p', b, slot, hash % |b|) == Target(p, b, slot, hash % |b|)
  {
    if slot != NIL {
      HeadWithoutInner(p, p', linked, n, slot);
    }
    var next := Target(p, b, slot, hash % |b|);
    if next != NIL {
      HeadWithoutInner(p, p', linked, n, next);
    }
  }

  /**
   The head `n` behind `before` left its group.  The slot stays right, unless it was the chain
   pointer of `n`: then that of `before` takes its place, provided that `n` was alone in its group.
   */
  lemma SlotWithoutHead(p: seq<Node>, b: seq<int>, linked: set<int>, n: int, before: int,
                        p': seq<Node>, b': seq<int>, hash: nat, slot: int)
    requires Shape(p, b, linked) && IsHead(p, linked, n) && p[n].hash != hash && HeadPromoted(p, p', linked, n)
    requires |b'| == |b| && forall i | 0 <= i < |b| :: b'[i] == if b[i] == n then Successor(p, n) else b[i]
    requires SlotOk(p, b, linked, hash, slot)
    requires before == NIL
             || (IsHead(p, linked, before) && p[before].hash % |b| == p[n].hash % |b| && p[before].hash < p[n].hash)
    requires Target(p, b, before, p[n].hash % |b|) == n
    requires slot == n ==> p[n].fwdPtrsL[0] == NIL
    ensures (var slot' := if slot == n then before else slot;
             var next, next' := Target(p, b, slot, hash % |b|), Target(p', b', slot', hash % |b|);
             && SlotOk(p', b', linked - {n}, hash, slot')
             && next' == if next == n then Successor(p, n) else next)
  {
    assert ChainAt(p, |b|, linked, n) && LevelAt(p, linked, 0, n);
    var slot' := if slot == n then before else slot;
    if slot' != NIL {
      HeadWithoutHead(p, p', linked, n, slot');
      assert ChainAt(p, |b|, linked, slot');
    }
    var next := Target(p, b, slot, hash % |b|);
    var next' := if next == n then Successor(p, n) else next;
    if next' != NIL {
      HeadWithoutHead(p, p', linked, n, next');
    }
  }

  /** The slot of a hash is unique. */
  lemma SlotUnique(p: seq<Node>, b: seq<int>, linked: set<int>, hash: nat, s: int, t: int)
    requires Shape(p, b, linked) && SlotOk(p, b, linked, hash, s) && SlotOk(p, b, linked, hash, t)
    ensures s == t
  {
    assert BasketAt(p, b, linked, hash % |b|);
    assert s != NIL ==> ChainAt(p, |b|, linked, s);
    assert t != NIL ==> ChainAt(p, |b|, linked, t);
  }

  /**
   The saved slot of a key of `hash` is the chain pointer of the node to be recycled, whose group lives
   on: clearing the node makes it a null pointer that belongs to no list.
   */
  ghost predicate StaleSlot(p: seq<Node>, b: seq<int>, linked: set<int>, victim: int, hash: nat)
    requires Inside(p, linked) && 0 < |b|
  {
    victim in linked && p[victim].fwdPtrsL[0] != NIL && SlotOk(p, b, linked, hash, victim)
  }

  /** What makes an insertion of a new key lose its entry: the slot goes stale and the key needs a group of its own. */
  ghost predicate LosesEntry(p: seq<Node>, b: seq<int>, linked: set<int>, victim: int, hash: nat)
    requires Inside(p, linked) && 0 < |b|
  {
    && StaleSlot(p, b, linked, victim, hash)
    && var next := p[victim].fwdPtrH;
       next == NIL || hash < p[next].hash
  }

  /** What makes it use a null pointer: the slot goes stale and the key is to become the head of a group. */
  ghost predicate FollowsNull(p: seq<Node>, b: seq<int>, linked: set<int>, victim: int, hash: nat, key: int)
    requires Inside(p, linked) && 0 < |b|
  {
    && StaleSlot(p, b, linked, victim, hash)
    && var next := p[victim].fwdPtrH;
       next != NIL && p[next].hash == hash && key < p[next].key
  }

  /** What linking in the new key needs: for answer 1 or -1 of setll the path, for 3, 4 and 5 the slot. */
  ghost predicate Ready(p: seq<Node>, b: seq<int>, linked: set<int>, hash: nat, key: int, cmp: int, slot: int,
                        u: seq<int>)
    requires Inside(p, linked) && 0 < |b|
  {
    if cmp == 1 || cmp == -1 then PathOk(p, linked, hash, key, u)
    else
      && SlotOk(p, b, linked, hash, slot)
      && var next := Target(p, b, slot, hash % |b|);
         match cmp
         case 3 => next != NIL && p[next].hash == hash && key < p[next].key
         case 4 => next == NIL || hash < p[next].hash
         case _ => cmp == 5 && slot == NIL && next == NIL
  }

  lemma ReadyWithoutInner(p: seq<Node>, b: seq<int>, linked: set<int>, n: int, p': seq<Node>,
                          hash: nat, key: int, cmp: int, slot: int, u: seq<int>)
    requires Shape(p, b, linked) && n in linked && !IsHead(p, linked, n) && SameButLevels(p, p', linked - {n})
    requires p[n].hash != hash && Ready(p, b, linked, hash, key, cmp, slot, u)
    ensures Ready(p', b, linked - {n}, hash, key, cmp, slot, u)
  {
    if cmp == 1 || cmp == -1 {
      PathOfOtherGroup(p, p', linked, n, hash, key, u);
    } else {
      SlotWithoutInner(p, b, linked, n, p', hash, slot);
    }
  }

  lemma ReadyWithoutHead(p: seq<Node>, b: seq<int>, linked: set<int>, n: int, before: int,
                         p': seq<Node>, b': seq<int>, hash: nat, key: int, cmp: int, slot: int, u: seq<int>)
    requires Shape(p, b, linked) && IsHead(p, linked, n) && p[n].hash != hash && HeadPromoted(p, p', linked, n)
    requires |b'| == |b| && forall i | 0 <= i < |b| :: b'[i] == if b[i] == n then Successor(p, n) else b[i]
    requires Ready(p, b, linked, hash, key, cmp, slot, u)
    requires before == NIL
             || (IsHead(p, linked, before) && p[before].hash % |b| == p[n].hash % |b| && p[before].hash < p[n].hash)
    requires Target(p, b, before, p[n].hash % |b|) == n
    requires (cmp == 3 || cmp == 4) && slot == n ==> p[n].fwdPtrsL[0] == NIL
    ensures Ready(p', b', linked - {n}, hash, key, cmp, if slot == n then before else slot, u)
  {
    assert LevelAt(p, linked, 0, n) && ChainAt(p, |b|, linked, n);
    if cmp == 1 || cmp == -1 {
      PathOfOtherGroup(p, p', linked, n, hash, key, u);
    } else {
      SlotWithoutHead(p, b, linked, n, before, p', b', hash, slot);
    }
  }
}
