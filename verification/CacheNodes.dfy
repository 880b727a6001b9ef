/**
 The node pool shared by the OnCache family: every node lives in one fixed pool, a pointer is a
 pool index, and the pool is threaded into baskets.  A basket is a chain of hash groups in
 increasing hash order (`fwdPtrH`); a group is a skip list of three levels in increasing key order
 (`fwdPtrsL`) whose head always has full height.

 `Shape` is the invariant of that structure.  It carries no ghost sequences: every pointer is
 characterised as "the nearest linked node further on", which makes a level exactly the
 subsequence of the nodes tall enough for it.
 */
module CacheNodes {
  // nullptr: for node pointers and data pointers, and for keys.
  const NIL: int := -1
  const NO_KEY: int := -1

  type Tower = s: seq<int> | |s| == 3 witness [-1, -1, -1]

  // `key` is the rank of the key in the order of `compare`; `data` names the stored object.
  datatype Node = Node(fwdPtrH: int, fwdPtrsL: Tower, key: int, data: int, hash: nat, curHeight: int)

  /** The node as `clear()` leaves it: hash and height keep their old values. */
  function Cleared(n: Node): Node {
    n.(fwdPtrH := NIL, fwdPtrsL := [NIL, NIL, NIL], key := NO_KEY)
  }

  /** A node without an entry, as the pool constructs it and as `clear()` leaves it. */
  predicate Blank(n: Node) {
    n.key == NO_KEY && n.fwdPtrH == NIL && n.fwdPtrsL == [NIL, NIL, NIL]
  }

  function Compare(lhv: int, rhv: int): int {
    if lhv < rhv then -1 else if lhv > rhv then 1 else 0
  }

  ghost predicate Inside(p: seq<Node>, linked: set<int>) {
    forall x | x in linked :: 0 <= x < |p|
  }

  /** `s` is the node that follows `x` on level `h` of their group. */
  ghost predicate NextInGroup(p: seq<Node>, linked: set<int>, x: int, h: int, s: int)
    requires Inside(p, linked) && x in linked
  {
    && (s == NIL || (s in linked && p[s].hash == p[x].hash && p[x].key < p[s].key && h <= p[s].curHeight))
    && forall y | y in linked && p[y].hash == p[x].hash && p[x].key < p[y].key && h <= p[y].curHeight ::
        s in linked && p[s].key <= p[y].key
  }

  /** `x` starts its hash group. */
  ghost predicate IsHead(p: seq<Node>, linked: set<int>, x: int)
    requires Inside(p, linked)
  {
    x in linked && forall y | y in linked && p[y].hash == p[x].hash :: p[x].key <= p[y].key
  }

  /** `s` is the head of the first group of `basket` whose hash is above `low`. */
  ghost predicate NextGroup(p: seq<Node>, linked: set<int>, capacity: nat, basket: int, low: int, s: int)
    requires Inside(p, linked) && 0 < capacity
  {
    && (s == NIL || (IsHead(p, linked, s) && p[s].hash % capacity == basket && low < p[s].hash))
    && forall y | y in linked && p[y].hash % capacity == basket && low < p[y].hash ::
        s in linked && p[s].hash <= p[y].hash
  }

  /** The pointer of `x` on level `h`: to its successor there, or null above its height. */
  ghost predicate LevelAt(p: seq<Node>, linked: set<int>, h: int, x: int)
    requires Inside(p, linked) && 0 <= h <= 2 && x in linked
  {
    if h <= p[x].curHeight then NextInGroup(p, linked, x, h, p[x].fwdPtrsL[h]) else p[x].fwdPtrsL[h] == NIL
  }

  // The explicit triggers keep the verifier from walking along the pointers on its own.
  ghost predicate LevelOk(p: seq<Node>, linked: set<int>, h: int)
    requires Inside(p, linked) && 0 <= h <= 2
  {
    forall x {:trigger LevelAt(p, linked, h, x)} | x in linked :: LevelAt(p, linked, h, x)
  }

  ghost predicate LevelsOk(p: seq<Node>, linked: set<int>)
    requires Inside(p, linked)
  {
    LevelOk(p, linked, 0) && LevelOk(p, linked, 1) && LevelOk(p, linked, 2)
  }

  /** Heads have full height and lead to the next group; the others are in no chain. */
  ghost predicate ChainAt(p: seq<Node>, capacity: nat, linked: set<int>, x: int)
    requires Inside(p, linked) && 0 < capacity && x in linked
  {
    if IsHead(p, linked, x)
    then p[x].curHeight == 2 && NextGroup(p, linked, capacity, p[x].hash % capacity, p[x].hash, p[x].fwdPtrH)
    else p[x].fwdPtrH == NIL
  }

  ghost predicate BasketAt(p: seq<Node>, b: seq<int>, linked: set<int>, i: int)
    requires Inside(p, linked) && 0 <= i < |b|
  {
    NextGroup(p, linked, |b|, i, -1, b[i])
  }

  ghost predicate ChainsOk(p: seq<Node>, b: seq<int>, linked: set<int>)
    requires Inside(p, linked) && 0 < |b|
  {
    && (forall x {:trigger ChainAt(p, |b|, linked, x)} | x in linked :: ChainAt(p, |b|, linked, x))
    && (forall i {:trigger BasketAt(p, b, linked, i)} | 0 <= i < |b| :: BasketAt(p, b, linked, i))
  }

  ghost predicate NodesOk(p: seq<Node>, linked: set<int>)
    requires Inside(p, linked)
  {
    && (forall x | x in linked :: 0 <= p[x].key && 0 <= p[x].curHeight <= 2)
    && (forall x, y | x in linked && y in linked && p[x].key == p[y].key :: x == y)
  }

  ghost predicate Shape(p: seq<Node>, b: seq<int>, linked: set<int>) {
    && 0 < |b| == |p|
    && Inside(p, linked)
    && NodesOk(p, linked)
    && LevelsOk(p, linked)
    && ChainsOk(p, b, linked)
  }

  // ---------- the map that the pool stands for ----------

  ghost predicate HasKey(p: seq<Node>, linked: set<int>, key: int)
    requires Inside(p, linked)
  {
    exists x :: x in linked && p[x].key == key
  }

  /** `m` maps exactly the keys of the linked nodes, each to the data in its node. */
  ghost predicate IsContents(m: map<int, int>, p: seq<Node>, linked: set<int>)
    requires Inside(p, linked)
  {
    && (forall x | x in linked :: p[x].key in m && m[p[x].key] == p[x].data)
    && (forall k | k in m :: HasKey(p, linked, k))
  }

  ghost function Contents(p: seq<Node>, linked: set<int>): (m: map<int, int>)
    requires Inside(p, linked) && NodesOk(p, linked)
    ensures IsContents(m, p, linked)
  {
    assert exists m :: IsContents(m, p, linked) by {
      var m := map x | x in linked :: p[x].key := p[x].data;
      assert IsContents(m, p, linked);
    }
    var m :| IsContents(m, p, linked);
    m
  }

  lemma ContentsUnique(m: map<int, int>, p: seq<Node>, linked: set<int>)
    requires Inside(p, linked) && NodesOk(p, linked) && IsContents(m, p, linked)
    ensures m == Contents(p, linked)
  {
    var c := Contents(p, linked);
    assert forall k | k in m :: k in c && c[k] == m[k];
    assert forall k | k in c :: k in m;
  }

  ghost function KeySet(p: seq<Node>, linked: set<int>): (keys: set<int>)
    requires Inside(p, linked)
  {
    set x | x in linked :: p[x].key
  }

  /** As many keys as linked nodes, so never more than the pool has room for. */
  lemma {:induction false} ContentsSize(p: seq<Node>, linked: set<int>)
    requires Inside(p, linked) && NodesOk(p, linked)
    ensures |Contents(p, linked)| == |linked| <= |p|
  {
    KeysSize(p, linked, |p|);
    var m := Contents(p, linked);
    forall k | k in m
      ensures k in KeySet(p, linked)
    {
      assert HasKey(p, linked, k);
    }
    assert m.Keys == KeySet(p, linked);
  }

  lemma {:induction false} KeysSize(p: seq<Node>, linked: set<int>, n: nat)
    requires Inside(p, linked) && forall x | x in linked :: x < n
    requires forall x, y | x in linked && y in linked && p[x].key == p[y].key :: x == y
    ensures |KeySet(p, linked)| == |linked| <= n
  {
    if n == 0 {
      assert forall x :: x !in linked;
    } else if n - 1 in linked {
      var x: int := n - 1;
      var rest := linked - {x};
      assert linked == rest + {x};
      KeysSize(p, rest, n - 1);
      OneMoreKey(p, rest, x);
      assert |rest + {x}| == |rest| + 1;
    } else {
      KeysSize(p, linked, n - 1);
    }
  }

  lemma OneMoreKey(p: seq<Node>, rest: set<int>, x: int)
    requires Inside(p, rest) && 0 <= x < |p| && forall y | y in rest :: p[y].key != p[x].key
    ensures |KeySet(p, rest + {x})| == |KeySet(p, rest)| + 1
  {
    var all, more := KeySet(p, rest + {x}), KeySet(p, rest) + {p[x].key};
    forall k | k in more ensures k in all {
      if k == p[x].key {
        assert x in rest + {x};
      } else {
        var y :| y in rest && p[y].key == k;
        assert y in rest + {x};
      }
    }
    assert all == more;
  }

  // ---------- what is left to search, for termination ----------

  ghost function Above(p: seq<Node>, linked: set<int>, cur: int): set<int>
    requires Inside(p, linked) && cur in linked
  {
    set y | y in linked && p[cur].key < p[y].key
  }

  ghost function Onward(p: seq<Node>, linked: set<int>, cur: int): set<int>
    requires Inside(p, linked) && (cur == NIL || cur in linked)
  {
    if cur == NIL then {} else set y | y in linked && p[cur].hash <= p[y].hash
  }

  lemma StepUp(p: seq<Node>, linked: set<int>, cur: int, next: int)
    requires Inside(p, linked) && cur in linked && next in linked && p[cur].key < p[next].key
    ensures Above(p, linked, next) < Above(p, linked, cur)
  {
    assert next in Above(p, linked, cur) && next !in Above(p, linked, next);
  }

  lemma StepOn(p: seq<Node>, linked: set<int>, cur: int, next: int)
    requires Inside(p, linked) && cur in linked && (next == NIL || (next in linked && p[cur].hash < p[next].hash))
    ensures Onward(p, linked, next) < Onward(p, linked, cur)
  {
    assert cur in Onward(p, linked, cur) && cur !in Onward(p, linked, next);
  }

  // ---------- unlinking an inner node ----------

  /** `p'` keeps key and hash of the nodes of `linked`. */
  ghost predicate SameKeys(p: seq<Node>, p': seq<Node>, linked: set<int>) {
    && |p'| == |p|
    && Inside(p, linked)
    && forall y | y in linked :: p'[y].key == p[y].key && p'[y].hash == p[y].hash
  }

  /** `p'` keeps everything but the level pointers of the nodes of `linked`. */
  ghost predicate SameButLevels(p: seq<Node>, p': seq<Node>, linked: set<int>) {
    && SameKeys(p, p', linked)
    && forall y | y in linked :: p'[y].curHeight == p[y].curHeight && p'[y].fwdPtrH == p[y].fwdPtrH
  }

  /** On level `h` of `p'`, whoever pointed to `from` points to `to`; nothing else moved. */
  ghost predicate Redirected(p: seq<Node>, p': seq<Node>, linked: set<int>, h: int, from: int, to: int)
    requires Inside(p, linked) && Inside(p', linked) && 0 <= h <= 2
  {
    forall y | y in linked ::
      p'[y].fwdPtrsL[h] == if p[y].fwdPtrsL[h] == from then to else p[y].fwdPtrsL[h]
  }

  lemma HeadWithoutInner(p: seq<Node>, p': seq<Node>, linked: set<int>, n: int, x: int)
    requires Inside(p, linked) && SameKeys(p, p', linked - {n})
    requires n in linked && !IsHead(p, linked, n) && x in linked && x != n
    ensures IsHead(p', linked - {n}, x) <==> IsHead(p, linked, x)
  {
    if IsHead(p', linked - {n}, x) && p[n].hash == p[x].hash {
      var y :| y in linked && p[y].hash == p[n].hash && p[y].key < p[n].key;
      assert y in linked - {n};
    }
  }

  lemma NextGroupWithoutInner(p: seq<Node>, p': seq<Node>, linked: set<int>, n: int,
                              capacity: nat, basket: int, low: int, s: int)
    requires Inside(p, linked) && 0 < capacity && SameKeys(p, p', linked - {n})
    requires n in linked && !IsHead(p, linked, n)
    requires NextGroup(p, linked, capacity, basket, low, s)
    ensures NextGroup(p', linked - {n}, capacity, basket, low, s)
  {
    if s != NIL {
      HeadWithoutInner(p, p', linked, n, s);
    }
  }

  lemma ChainsWithoutInner(p: seq<Node>, b: seq<int>, linked: set<int>, n: int, p': seq<Node>)
    requires Inside(p, linked) && 0 < |b| && ChainsOk(p, b, linked) && n in linked && !IsHead(p, linked, n)
    requires SameButLevels(p, p', linked - {n})
    ensures ChainsOk(p', b, linked - {n})
  {
    var rest := linked - {n};
    forall x | x in rest
      ensures ChainAt(p', |b|, rest, x)
    {
      assert x in linked ==> ChainAt(p, |b|, linked, x);
      HeadWithoutInner(p, p', linked, n, x);
      if IsHead(p', rest, x) {
        NextGroupWithoutInner(p, p', linked, n, |b|, p[x].hash % |b|, p[x].hash, p[x].fwdPtrH);
      }
    }
    forall i | 0 <= i < |b|
      ensures BasketAt(p', b, rest, i)
    {
      assert BasketAt(p, b, linked, i);
      NextGroupWithoutInner(p, p', linked, n, |b|, i, -1, b[i]);
    }
  }

  lemma LevelWithoutInner(p: seq<Node>, linked: set<int>, n: int, p': seq<Node>, h: int)
    requires Inside(p, linked) && NodesOk(p, linked) && 0 <= h <= 2 && LevelOk(p, linked, h) && n in linked
    requires SameButLevels(p, p', linked - {n})
    requires Redirected(p, p', linked - {n}, h, n, p[n].fwdPtrsL[h])
    ensures LevelOk(p', linked - {n}, h)
  {
    var rest := linked - {n};
    forall x | x in rest
      ensures LevelAt(p', rest, h, x)
    {
      assert LevelAt(p, linked, h, x) && LevelAt(p, linked, h, n);
    }
  }

  /** Redirecting every level pointer that met `n` takes an inner node out of its group. */
  lemma {:induction false} UnlinkInner(p: seq<Node>, b: seq<int>, linked: set<int>, n: int, p': seq<Node>)
    requires Shape(p, b, linked) && n in linked && !IsHead(p, linked, n)
    requires SameButLevels(p, p', linked - {n})
    requires forall h | 0 <= h <= 2 :: Redirected(p, p', linked - {n}, h, n, p[n].fwdPtrsL[h])
    ensures Shape(p', b, linked - {n})
  {
    ChainsWithoutInner(p, b, linked, n, p');
    LevelWithoutInner(p, linked, n, p', 0);
    LevelWithoutInner(p, linked, n, p', 1);
    LevelWithoutInner(p, linked, n, p', 2);
  }

  // ---------- unlinking the head of a group ----------

  /** What takes the head's place in the chain: its successor, or the next group. */
  function Successor(p: seq<Node>, n: int): int
    requires 0 <= n < |p|
  {
    if p[n].fwdPtrsL[0] == NIL then p[n].fwdPtrH else p[n].fwdPtrsL[0]
  }

  /** `p'` is `p` with the head `n` out of its group and the next node of the group promoted. */
  ghost predicate HeadPromoted(p: seq<Node>, p': seq<Node>, linked: set<int>, n: int)
    requires Inside(p, linked) && n in linked
  {
    var next := p[n].fwdPtrsL[0];
    && SameKeys(p, p', linked - {n})
    && (forall y | y in linked && y != n && y != next ::
          p'[y].curHeight == p[y].curHeight && p'[y].fwdPtrsL == p[y].fwdPtrsL
          && p'[y].fwdPtrH == if p[y].fwdPtrH == n then Successor(p, n) else p[y].fwdPtrH)
    && (next in linked ==>
          && p'[next].curHeight == 2
          && p'[next].fwdPtrH == p[n].fwdPtrH
          && forall h | 0 <= h <= 2 ::
               p'[next].fwdPtrsL[h] == if h <= p[next].curHeight then p[next].fwdPtrsL[h] else p[n].fwdPtrsL[h])
  }

  lemma LevelWithoutHead(p: seq<Node>, linked: set<int>, n: int, p': seq<Node>, h: int)
    requires Inside(p, linked) && NodesOk(p, linked) && LevelsOk(p, linked) && IsHead(p, linked, n)
    requires p[n].curHeight == 2 && 0 <= h <= 2 && HeadPromoted(p, p', linked, n)
    ensures LevelOk(p', linked - {n}, h)
  {
    var rest := linked - {n};
    var next := p[n].fwdPtrsL[0];
    assert LevelAt(p, linked, 0, n) && LevelAt(p, linked, h, n);
    forall x | x in rest
      ensures LevelAt(p', rest, h, x)
    {
      assert LevelAt(p, linked, h, x);
    }
  }

  lemma HeadWithoutHead(p: seq<Node>, p': seq<Node>, linked: set<int>, n: int, x: int)
    requires Inside(p, linked) && NodesOk(p, linked) && SameKeys(p, p', linked - {n})
    requires IsHead(p, linked, n) && NextInGroup(p, linked, n, 0, p[n].fwdPtrsL[0]) && x in linked && x != n
    ensures IsHead(p', linked - {n}, x) <==> IsHead(p, linked, x) || x == p[n].fwdPtrsL[0]
  {
    if p[x].hash == p[n].hash && IsHead(p', linked - {n}, x) {
      assert p[n].fwdPtrsL[0] in linked - {n};
    }
  }

  lemma NextGroupWithoutHead(p: seq<Node>, p': seq<Node>, linked: set<int>, n: int,
                             capacity: nat, basket: int, low: int, s: int)
    requires Inside(p, linked) && NodesOk(p, linked) && 0 < capacity && SameKeys(p, p', linked - {n})
    requires IsHead(p, linked, n) && NextInGroup(p, linked, n, 0, p[n].fwdPtrsL[0])
    requires NextGroup(p, linked, capacity, p[n].hash % capacity, p[n].hash, p[n].fwdPtrH)
    requires NextGroup(p, linked, capacity, basket, low, s)
    ensures NextGroup(p', linked - {n}, capacity, basket, low, if s == n then Successor(p, n) else s)
  {
    var s' := if s == n then Successor(p, n) else s;
    if s' != NIL {
      HeadWithoutHead(p, p', linked, n, s');
    }
    forall y | y in linked && y != n && p[y].hash % capacity == basket && low < p[y].hash
      ensures s' in linked - {n} && p[s'].hash <= p[y].hash
    {
      if s == n && p[y].hash == p[n].hash {
        assert p[n].key < p[y].key;
      }
    }
  }

  lemma ChainsWithoutHead(p: seq<Node>, b: seq<int>, linked: set<int>, n: int, p': seq<Node>, b': seq<int>)
    requires Inside(p, linked) && 0 < |b| && NodesOk(p, linked) && ChainsOk(p, b, linked) && LevelOk(p, linked, 0)
    requires IsHead(p, linked, n) && HeadPromoted(p, p', linked, n)
    requires |b'| == |b| && forall i | 0 <= i < |b| :: b'[i] == if b[i] == n then Successor(p, n) else b[i]
    ensures ChainsOk(p', b', linked - {n})
  {
    var rest := linked - {n};
    var next := p[n].fwdPtrsL[0];
    assert LevelAt(p, linked, 0, n) && ChainAt(p, |b|, linked, n);
    forall x | x in rest
      ensures ChainAt(p', |b|, rest, x)
    {
      assert x in linked ==> ChainAt(p, |b|, linked, x);
      HeadWithoutHead(p, p', linked, n, x);
      if x == next {
        NextGroupWithoutHead(p, p', linked, n, |b|, p[n].hash % |b|, p[n].hash, p[n].fwdPtrH);
      } else if IsHead(p', rest, x) {
        NextGroupWithoutHead(p, p', linked, n, |b|, p[x].hash % |b|, p[x].hash, p[x].fwdPtrH);
      }
    }
    forall i | 0 <= i < |b|
      ensures BasketAt(p', b', rest, i)
    {
      assert BasketAt(p, b, linked, i);
      NextGroupWithoutHead(p, p', linked, n, |b|, i, -1, b[i]);
    }
  }

  /** Promoting the next node, or closing the chain over an emptied group, takes a head out. */
  lemma {:induction false} UnlinkHead(p: seq<Node>, b: seq<int>, linked: set<int>, n: int, p': seq<Node>, b': seq<int>)
    requires Shape(p, b, linked) && IsHead(p, linked, n) && HeadPromoted(p, p', linked, n)
    requires |b'| == |b| && forall i | 0 <= i < |b| :: b'[i] == if b[i] == n then Successor(p, n) else b[i]
    ensures Shape(p', b', linked - {n})
  {
    assert LevelAt(p, linked, 0, n) && ChainAt(p, |b|, linked, n);
    ChainsWithoutHead(p, b, linked, n, p', b');
    LevelWithoutHead(p, linked, n, p', 0);
    LevelWithoutHead(p, linked, n, p', 1);
    LevelWithoutHead(p, linked, n, p', 2);
  }

  // ---------- linking an inner node ----------

  /** `u` is the last node of the group of `hash` on level `h` with a key below `key`. */
  ghost predicate OnPath(p: seq<Node>, linked: set<int>, hash: nat, key: int, h: int, u: int)
    requires Inside(p, linked) && 0 <= h <= 2
  {
    && u in linked && p[u].hash == hash && p[u].key < key && h <= p[u].curHeight
    && forall y | y in linked && p[y].hash == hash && h <= p[y].curHeight && p[y].key < key :: p[y].key <= p[u].key
  }

  /** No node that reaches level `h` holds `key`. */
  ghost predicate AbsentAt(p: seq<Node>, linked: set<int>, hash: nat, key: int, h: int)
    requires Inside(p, linked)
  {
    forall y | y in linked && p[y].hash == hash && h <= p[y].curHeight :: p[y].key != key
  }

  /** The search stops at `u` because what follows on the level is above `key`. */
  lemma PathEnds(p: seq<Node>, linked: set<int>, h: int, u: int, key: int)
    requires Inside(p, linked) && 0 <= h <= 2 && LevelOk(p, linked, h)
    requires u in linked && h <= p[u].curHeight && p[u].key < key
    requires p[u].fwdPtrsL[h] == NIL || (p[u].fwdPtrsL[h] in linked && key < p[p[u].fwdPtrsL[h]].key)
    ensures OnPath(p, linked, p[u].hash, key, h, u)
    ensures AbsentAt(p, linked, p[u].hash, key, h)
  {
    assert LevelAt(p, linked, h, u);
  }

  /** On level `h`, `n` stands between `u` and what followed `u`. */
  ghost predicate Spliced(p: seq<Node>, p': seq<Node>, linked: set<int>, h: int, n: int, u: int)
    requires Inside(p, linked) && Inside(p', linked) && 0 <= h <= 2 && u in linked && 0 <= n < |p'|
  {
    && p'[n].fwdPtrsL[h] == p[u].fwdPtrsL[h]
    && forall y | y in linked :: p'[y].fwdPtrsL[h] == if y == u then n else p[y].fwdPtrsL[h]
  }

  ghost predicate LevelKept(p: seq<Node>, p': seq<Node>, linked: set<int>, h: int)
    requires Inside(p, linked) && Inside(p', linked) && 0 <= h <= 2
  {
    forall y | y in linked :: p'[y].fwdPtrsL[h] == p[y].fwdPtrsL[h]
  }

  /** The splice, as far as the height of `n` asks for it. */
  ghost predicate SplicedUpTo(p: seq<Node>, p': seq<Node>, linked: set<int>, h: int, n: int, u: int)
    requires Inside(p, linked) && Inside(p', linked) && 0 <= h <= 2 && u in linked && 0 <= n < |p'|
  {
    if h <= p'[n].curHeight then Spliced(p, p', linked, h, n, u)
    else p'[n].fwdPtrsL[h] == NIL && LevelKept(p, p', linked, h)
  }

  lemma LevelWithSplice(p: seq<Node>, linked: set<int>, n: int, u: int, p': seq<Node>, h: int)
    requires Inside(p, linked) && NodesOk(p, linked) && 0 <= h <= 2 && LevelOk(p, linked, h)
    requires 0 <= n < |p| && n !in linked && SameButLevels(p, p', linked)
    requires h <= p'[n].curHeight && OnPath(p, linked, p'[n].hash, p'[n].key, h, u)
    requires Spliced(p, p', linked, h, n, u)
    requires forall y | y in linked :: p[y].key != p'[n].key
    ensures LevelOk(p', linked + {n}, h)
  {
    var all := linked + {n};
    assert LevelAt(p, linked, h, u);
    forall x | x in linked
      ensures LevelAt(p', all, h, x)
    {
      assert LevelAt(p, linked, h, x);
    }
    assert LevelAt(p', all, h, n);
  }

  lemma LevelBelowNode(p: seq<Node>, linked: set<int>, n: int, p': seq<Node>, h: int)
    requires Inside(p, linked) && 0 <= h <= 2 && LevelOk(p, linked, h)
    requires 0 <= n < |p| && n !in linked && SameButLevels(p, p', linked)
    requires p'[n].curHeight < h && p'[n].fwdPtrsL[h] == NIL && LevelKept(p, p', linked, h)
    ensures LevelOk(p', linked + {n}, h)
  {
    forall x | x in linked
      ensures LevelAt(p', linked + {n}, h, x)
    {
      assert LevelAt(p, linked, h, x);
    }
  }

  lemma HeadWithInner(p: seq<Node>, p': seq<Node>, linked: set<int>, n: int, u: int, x: int)
    requires Inside(p, linked) && SameKeys(p, p', linked) && 0 <= n < |p| && n !in linked
    requires u in linked && p[u].hash == p'[n].hash && p[u].key < p'[n].key
    requires x in linked + {n}
    ensures IsHead(p', linked + {n}, x) <==> IsHead(p, linked, x)
  {
    if IsHead(p, linked, x) && p[x].hash == p'[n].hash {
      assert p[x].key <= p[u].key;
    }
    assert u in linked + {n};
    if IsHead(p', linked + {n}, x) {
      forall y | y in linked && p[y].hash == p[x].hash
        ensures p[x].key <= p[y].key
      {
        assert y in linked + {n};
      }
    }
  }

  lemma NextGroupWithInner(p: seq<Node>, p': seq<Node>, linked: set<int>, n: int, u: int,
                           capacity: nat, basket: int, low: int, s: int)
    requires Inside(p, linked) && 0 < capacity && SameKeys(p, p', linked) && 0 <= n < |p| && n !in linked
    requires u in linked && p[u].hash == p'[n].hash && p[u].key < p'[n].key
    requires NextGroup(p, linked, capacity, basket, low, s)
    ensures NextGroup(p', linked + {n}, capacity, basket, low, s)
  {
    if s != NIL {
      HeadWithInner(p, p', linked, n, u, s);
    }
  }

  lemma ChainsWithInner(p: seq<Node>, b: seq<int>, linked: set<int>, n: int, u: int, p': seq<Node>)
    requires Inside(p, linked) && 0 < |b| && ChainsOk(p, b, linked) && 0 <= n < |p| && n !in linked
    requires SameButLevels(p, p', linked) && p'[n].fwdPtrH == NIL
    requires u in linked && p[u].hash == p'[n].hash && p[u].key < p'[n].key
    ensures ChainsOk(p', b, linked + {n})
  {
    var all := linked + {n};
    forall x | x in all
      ensures ChainAt(p', |b|, all, x)
    {
      assert x in linked ==> ChainAt(p, |b|, linked, x);
      HeadWithInner(p, p', linked, n, u, x);
      if IsHead(p', all, x) {
        NextGroupWithInner(p, p', linked, n, u, |b|, p[x].hash % |b|, p[x].hash, p[x].fwdPtrH);
      }
    }
    forall i | 0 <= i < |b|
      ensures BasketAt(p', b, all, i)
    {
      assert BasketAt(p, b, linked, i);
      NextGroupWithInner(p, p', linked, n, u, |b|, i, -1, b[i]);
    }
  }

  /** Splicing a node in behind the saved path, up to its own height, keeps the shape. */
  lemma {:induction false} LinkInner(p: seq<Node>, b: seq<int>, linked: set<int>, n: int, u: seq<int>, p': seq<Node>)
    requires Shape(p, b, linked) && 0 <= n < |p| && n !in linked && |u| == 3
    requires SameButLevels(p, p', linked) && 0 <= p'[n].key && 0 <= p'[n].curHeight <= 2 && p'[n].fwdPtrH == NIL
    requires forall h | 0 <= h <= 2 ::
      OnPath(p, linked, p'[n].hash, p'[n].key, h, u[h]) && SplicedUpTo(p, p', linked, h, n, u[h])
    requires forall y | y in linked :: p[y].key != p'[n].key
    ensures Shape(p', b, linked + {n})
  {
    ChainsWithInner(p, b, linked, n, u[0], p');
    forall h | 0 <= h <= 2
      ensures LevelOk(p', linked + {n}, h)
    {
      assert SplicedUpTo(p, p', linked, h, n, u[h]);
      if h <= p'[n].curHeight {
        LevelWithSplice(p, linked, n, u[h], p', h);
      } else {
        LevelBelowNode(p, linked, n, p', h);
      }
    }
  }

  // ---------- linking in front of a group ----------

  /** `p'` is `p` with `n` in front of the group of `prev`, which steps down to `p'[prev].curHeight`. */
  ghost predicate HeadDemoted(p: seq<Node>, p': seq<Node>, linked: set<int>, n: int, prev: int)
    requires Inside(p, linked) && prev in linked && 0 <= n < |p| && n !in linked
  {
    && SameKeys(p, p', linked)
    && (forall y | y in linked && y != prev ::
          p'[y].curHeight == p[y].curHeight && p'[y].fwdPtrsL == p[y].fwdPtrsL
          && p'[y].fwdPtrH == if p[y].fwdPtrH == prev then n else p[y].fwdPtrH)
    && p'[n].curHeight == 2 && p'[n].fwdPtrH == p[prev].fwdPtrH
    && 0 <= p'[prev].curHeight <= 2 && p'[prev].fwdPtrH == NIL
    && forall h | 0 <= h <= 2 ::
         if h <= p'[prev].curHeight
         then p'[n].fwdPtrsL[h] == prev && p'[prev].fwdPtrsL[h] == p[prev].fwdPtrsL[h]
         else p'[n].fwdPtrsL[h] == p[prev].fwdPtrsL[h] && p'[prev].fwdPtrsL[h] == NIL
  }

  lemma LevelWithNewHead(p: seq<Node>, linked: set<int>, n: int, prev: int, p': seq<Node>, h: int)
    requires Inside(p, linked) && NodesOk(p, linked) && 0 <= h <= 2 && LevelOk(p, linked, h)
    requires IsHead(p, linked, prev) && p[prev].curHeight == 2 && 0 <= n < |p| && n !in linked
    requires HeadDemoted(p, p', linked, n, prev)
    requires p'[n].hash == p[prev].hash && p'[n].key < p[prev].key
    ensures LevelOk(p', linked + {n}, h)
  {
    var all := linked + {n};
    assert LevelAt(p, linked, h, prev);
    forall x | x in linked
      ensures LevelAt(p', all, h, x)
    {
      assert LevelAt(p, linked, h, x);
    }
    assert LevelAt(p', all, h, n);
  }

  lemma HeadWithNewHead(p: seq<Node>, p': seq<Node>, linked: set<int>, n: int, prev: int, x: int)
    requires Inside(p, linked) && NodesOk(p, linked) && SameKeys(p, p', linked) && 0 <= n < |p| && n !in linked
    requires IsHead(p, linked, prev) && p'[n].hash == p[prev].hash && p'[n].key < p[prev].key
    requires x in linked + {n}
    ensures IsHead(p', linked + {n}, x) <==> x == n || (x != prev && IsHead(p, linked, x))
  {
    var all := linked + {n};
    assert n in all;
    if IsHead(p', all, x) && x != n {
      forall y | y in linked && p[y].hash == p[x].hash
        ensures p[x].key <= p[y].key
      {
        assert y in all;
      }
    }
    if x in linked && p[x].hash == p[prev].hash && IsHead(p, linked, x) {
      assert x == prev;
    }
  }

  lemma NextGroupWithNewHead(p: seq<Node>, p': seq<Node>, linked: set<int>, n: int, prev: int,
                             capacity: nat, basket: int, low: int, s: int)
    requires Inside(p, linked) && NodesOk(p, linked) && 0 < capacity && SameKeys(p, p', linked)
    requires 0 <= n < |p| && n !in linked
    requires IsHead(p, linked, prev) && p'[n].hash == p[prev].hash && p'[n].key < p[prev].key
    requires NextGroup(p, linked, capacity, basket, low, s)
    ensures NextGroup(p', linked + {n}, capacity, basket, low, if s == prev then n else s)
  {
    HeadWithNewHead(p, p', linked, n, prev, n);
    if s != NIL {
      HeadWithNewHead(p, p', linked, n, prev, s);
    }
    assert p'[n].hash == p'[prev].hash;
  }

  lemma ChainsWithNewHead(p: seq<Node>, b: seq<int>, linked: set<int>, n: int, prev: int, p': seq<Node>, b': seq<int>)
    requires Inside(p, linked) && 0 < |b| && NodesOk(p, linked) && ChainsOk(p, b, linked)
    requires IsHead(p, linked, prev) && 0 <= n < |p| && n !in linked
    requires HeadDemoted(p, p', linked, n, prev)
    requires p'[n].hash == p[prev].hash && p'[n].key < p[prev].key
    requires |b'| == |b| && forall i | 0 <= i < |b| :: b'[i] == if b[i] == prev then n else b[i]
    ensures ChainsOk(p', b', linked + {n})
  {
    var all := linked + {n};
    assert ChainAt(p, |b|, linked, prev);
    forall x | x in all
      ensures ChainAt(p', |b|, all, x)
    {
      HeadWithNewHead(p, p', linked, n, prev, x);
      var from := if x == n then prev else x;
      assert ChainAt(p, |b|, linked, from);
      if IsHead(p', all, x) {
        assert p[from].fwdPtrH != prev || x != n;
        NextGroupWithNewHead(p, p', linked, n, prev, |b|, p[from].hash % |b|, p[from].hash, p[from].fwdPtrH);
      }
    }
    forall i | 0 <= i < |b|
      ensures BasketAt(p', b', all, i)
    {
      assert BasketAt(p, b, linked, i);
      NextGroupWithNewHead(p, p', linked, n, prev, |b|, i, -1, b[i]);
    }
  }

  /** Linking in front of a group replaces its head and lowers the old one. */
  lemma {:induction false} LinkHead(p: seq<Node>, b: seq<int>, linked: set<int>, n: int, prev: int, p': seq<Node>,
                                    b': seq<int>)
    requires Shape(p, b, linked) && IsHead(p, linked, prev) && 0 <= n < |p| && n !in linked
    requires HeadDemoted(p, p', linked, n, prev)
    requires p'[n].hash == p[prev].hash && 0 <= p'[n].key < p[prev].key
    requires |b'| == |b| && forall i | 0 <= i < |b| :: b'[i] == if b[i] == prev then n else b[i]
    requires forall y | y in linked :: p[y].key != p'[n].key
    ensures Shape(p', b', linked + {n})
  {
    assert ChainAt(p, |b|, linked, prev);
    ChainsWithNewHead(p, b, linked, n, prev, p', b');
    LevelWithNewHead(p, linked, n, prev, p', 0);
    LevelWithNewHead(p, linked, n, prev, p', 1);
    LevelWithNewHead(p, linked, n, prev, p', 2);
  }

  // ---------- linking a group of its own ----------

  /**
   `p'` and `b'` are `p` and `b` with `n` alone in a new group behind `slot`: behind the head
   `slot`, or at the start of its basket when `slot` is null.
   */
  ghost predicate GroupAdded(p: seq<Node>, b: seq<int>, p': seq<Node>, b': seq<int>, linked: set<int>, n: int,
                             slot: int)
    requires Inside(p, linked) && 0 < |b| == |p| && 0 <= n < |p| && n !in linked
    requires slot == NIL || slot in linked
  {
    && SameKeys(p, p', linked) && |b'| == |b|
    && (forall y | y in linked ::
          p'[y].curHeight == p[y].curHeight && p'[y].fwdPtrsL == p[y].fwdPtrsL
          && p'[y].fwdPtrH == if y == slot then n else p[y].fwdPtrH)
    && p'[n].curHeight == 2 && p'[n].fwdPtrsL == [NIL, NIL, NIL]
    && (var basket := p'[n].hash % |b|;
        && p'[n].fwdPtrH == (if slot == NIL then b[basket] else p[slot].fwdPtrH)
        && forall i | 0 <= i < |b| :: b'[i] == if slot == NIL && i == basket then n else b[i])
  }

  /** The group of `hash` belongs right behind `slot`: what follows there has a larger hash. */
  ghost predicate SlotFor(p: seq<Node>, b: seq<int>, linked: set<int>, hash: nat, slot: int)
    requires Inside(p, linked) && 0 < |b|
  {
    && (slot == NIL || (IsHead(p, linked, slot) && p[slot].hash % |b| == hash % |b| && p[slot].hash < hash))
    && var next := if slot == NIL then b[hash % |b|] else p[slot].fwdPtrH;
       next == NIL || (next in linked && hash < p[next].hash)
  }

  lemma HeadWithNewGroup(p: seq<Node>, p': seq<Node>, linked: set<int>, n: int, x: int)
    requires Inside(p, linked) && SameKeys(p, p', linked) && 0 <= n < |p| && n !in linked
    requires forall y | y in linked :: p[y].hash != p'[n].hash
    requires x in linked + {n}
    ensures IsHead(p', linked + {n}, x) <==> x == n || IsHead(p, linked, x)
  {
    if IsHead(p', linked + {n}, x) && x != n {
      forall y | y in linked && p[y].hash == p[x].hash
        ensures p[x].key <= p[y].key
      {
        assert y in linked + {n};
      }
    }
  }

  /** A group pointer that does not lead across the place of the new group stays right. */
  lemma NextGroupBesideNewGroup(p: seq<Node>, p': seq<Node>, linked: set<int>, n: int,
                                capacity: nat, basket: int, low: int, s: int)
    requires Inside(p, linked) && 0 < capacity && SameKeys(p, p', linked) && 0 <= n < |p| && n !in linked
    requires forall y | y in linked :: p[y].hash != p'[n].hash
    requires NextGroup(p, linked, capacity, basket, low, s)
    requires p'[n].hash % capacity != basket || p'[n].hash <= low || (s in linked && p[s].hash < p'[n].hash)
    ensures NextGroup(p', linked + {n}, capacity, basket, low, s)
  {
    if s != NIL {
      HeadWithNewGroup(p, p', linked, n, s);
    }
  }

  /** The pointer that led across that place leads to the new group. */
  lemma NextGroupIsNewGroup(p: seq<Node>, p': seq<Node>, linked: set<int>, n: int,
                            capacity: nat, basket: int, low: int, s: int)
    requires Inside(p, linked) && 0 < capacity && SameKeys(p, p', linked) && 0 <= n < |p| && n !in linked
    requires forall y | y in linked :: p[y].hash != p'[n].hash
    requires NextGroup(p, linked, capacity, basket, low, s)
    requires p'[n].hash % capacity == basket && low < p'[n].hash
    requires s == NIL || p'[n].hash < p[s].hash
    ensures NextGroup(p', linked + {n}, capacity, basket, low, n)
  {
    HeadWithNewGroup(p, p', linked, n, n);
  }

  lemma ChainsWithNewGroup(p: seq<Node>, b: seq<int>, linked: set<int>, n: int, slot: int, p': seq<Node>, b': seq<int>)
    requires 0 < |b| == |p| && Inside(p, linked) && NodesOk(p, linked) && ChainsOk(p, b, linked)
    requires 0 <= n < |p| && n !in linked
    requires slot == NIL || slot in linked
    requires GroupAdded(p, b, p', b', linked, n, slot) && SlotFor(p, b, linked, p'[n].hash, slot)
    requires forall y | y in linked :: p[y].hash != p'[n].hash
    ensures ChainsOk(p', b', linked + {n})
  {
    var all := linked + {n};
    var hash := p'[n].hash;
    assert BasketAt(p, b, linked, hash % |b|);
    if slot != NIL {
      assert ChainAt(p, |b|, linked, slot);
    }
    forall x | x in all
      ensures ChainAt(p', |b|, all, x)
    {
      HeadWithNewGroup(p, p', linked, n, x);
      if x == n {
        NextGroupBesideNewGroup(p, p', linked, n, |b|, hash % |b|, hash, p'[n].fwdPtrH) by {
          AfterSlot(p, b, linked, hash, slot);
        }
      } else if x == slot {
        NextGroupIsNewGroup(p, p', linked, n, |b|, p[slot].hash % |b|, p[slot].hash, p[slot].fwdPtrH);
      } else {
        assert ChainAt(p, |b|, linked, x);
        if IsHead(p', all, x) {
          BeforeSlot(p, b, linked, hash, slot, p[x].hash % |b|, p[x].hash, p[x].fwdPtrH);
          NextGroupBesideNewGroup(p, p', linked, n, |b|, p[x].hash % |b|, p[x].hash, p[x].fwdPtrH);
        }
      }
    }
    forall i | 0 <= i < |b|
      ensures BasketAt(p', b', all, i)
    {
      assert BasketAt(p, b, linked, i);
      if slot == NIL && i == hash % |b| {
        NextGroupIsNewGroup(p, p', linked, n, |b|, i, -1, b[i]);
      } else {
        BeforeSlot(p, b, linked, hash, slot, i, -1, b[i]);
        NextGroupBesideNewGroup(p, p', linked, n, |b|, i, -1, b[i]);
      }
    }
  }

  /** What follows the slot is also what follows the new group. */
  lemma AfterSlot(p: seq<Node>, b: seq<int>, linked: set<int>, hash: nat, slot: int)
    requires Inside(p, linked) && 0 < |b| && ChainsOk(p, b, linked) && SlotFor(p, b, linked, hash, slot)
    ensures NextGroup(p, linked, |b|, hash % |b|, hash, if slot == NIL then b[hash % |b|] else p[slot].fwdPtrH)
  {
    if slot == NIL {
      assert BasketAt(p, b, linked, hash % |b|);
    } else {
      assert ChainAt(p, |b|, linked, slot);
    }
  }

  /** Any other pointer into the basket of `hash` that starts below it ends below it. */
  lemma BeforeSlot(p: seq<Node>, b: seq<int>, linked: set<int>, hash: nat, slot: int, basket: int, low: int, s: int)
    requires Inside(p, linked) && 0 < |b| && NodesOk(p, linked) && ChainsOk(p, b, linked)
    requires SlotFor(p, b, linked, hash, slot)
    requires forall y | y in linked :: p[y].hash != hash
    requires NextGroup(p, linked, |b|, basket, low, s)
    requires basket == hash % |b| ==>
      (low == -1 && slot != NIL) || exists x :: x in linked && p[x].hash % |b| == basket && p[x].hash == low
    requires slot != NIL ==> low != p[slot].hash
    ensures hash % |b| != basket || hash <= low || (s in linked && p[s].hash < hash)
  {
    AfterSlot(p, b, linked, hash, slot);
    if slot == NIL {
      assert BasketAt(p, b, linked, hash % |b|);
    } else {
      assert ChainAt(p, |b|, linked, slot);
    }
  }

  lemma LevelWithNewGroup(p: seq<Node>, linked: set<int>, n: int, p': seq<Node>, h: int)
    requires Inside(p, linked) && 0 <= h <= 2 && LevelOk(p, linked, h) && 0 <= n < |p| && n !in linked
    requires SameKeys(p, p', linked)
    requires forall y | y in linked :: p'[y].curHeight == p[y].curHeight && p'[y].fwdPtrsL == p[y].fwdPtrsL
    requires p'[n].curHeight == 2 && p'[n].fwdPtrsL == [NIL, NIL, NIL]
    requires forall y | y in linked :: p[y].hash != p'[n].hash
    ensures LevelOk(p', linked + {n}, h)
  {
    forall x | x in linked
      ensures LevelAt(p', linked + {n}, h, x)
    {
      assert LevelAt(p, linked, h, x);
    }
    assert LevelAt(p', linked + {n}, h, n);
  }

  /** A node whose hash is new becomes a group of its own at its place in the chain. */
  lemma {:induction false} LinkGroup(p: seq<Node>, b: seq<int>, linked: set<int>, n: int, slot: int, p': seq<Node>,
                                     b': seq<int>)
    requires Shape(p, b, linked) && 0 <= n < |p| && n !in linked
    requires slot == NIL || slot in linked
    requires GroupAdded(p, b, p', b', linked, n, slot) && SlotFor(p, b, linked, p'[n].hash, slot)
    requires 0 <= p'[n].key
    requires forall y | y in linked :: p[y].hash != p'[n].hash && p[y].key != p'[n].key
    ensures Shape(p', b', linked + {n})
  {
    ChainsWithNewGroup(p, b, linked, n, slot, p', b');
    LevelWithNewGroup(p, linked, n, p', 0);
    LevelWithNewGroup(p, linked, n, p', 1);
    LevelWithNewGroup(p, linked, n, p', 2);
  }

  // ---------- the steps of the two loops that rewrite level pointers ----------

  function SetLevel(p: seq<Node>, x: int, h: int, to: int): seq<Node>
    requires 0 <= x < |p| && 0 <= h <= 2
  {
    p[x := p[x].(fwdPtrsL := p[x].fwdPtrsL[h := to])]
  }

  /** `q` is `p` with `n` bypassed on the levels above `h`. */
  ghost predicate Bypassed(p: seq<Node>, q: seq<Node>, linked: set<int>, n: int, h: int)
    requires Inside(p, linked) && n in linked
  {
    && |q| == |p|
    && (forall y | 0 <= y < |p| && (y !in linked || y == n) :: q[y] == p[y])
    && (forall y | y in linked :: q[y] == p[y].(fwdPtrsL := q[y].fwdPtrsL))
    && (forall y, i {:trigger q[y].fwdPtrsL[i]} | y in linked && y != n && 0 <= i <= 2 ::
          q[y].fwdPtrsL[i] == if h < i && p[y].fwdPtrsL[i] == n then p[n].fwdPtrsL[i] else p[y].fwdPtrsL[i])
  }

  lemma OnlyPredecessor(p: seq<Node>, linked: set<int>, h: int, n: int, u: int, y: int)
    requires Inside(p, linked) && NodesOk(p, linked) && 0 <= h <= 2 && LevelOk(p, linked, h)
    requires n in linked && u in linked && y in linked && p[u].fwdPtrsL[h] == n == p[y].fwdPtrsL[h]
    ensures u == y
  {
    assert LevelAt(p, linked, h, u) && LevelAt(p, linked, h, y);
  }

  lemma BypassStep(p: seq<Node>, q: seq<Node>, linked: set<int>, n: int, h: int, u: int)
    requires Inside(p, linked) && NodesOk(p, linked) && 0 <= h <= 2 && LevelOk(p, linked, h)
    requires n in linked && Bypassed(p, q, linked, n, h)
    requires u in linked && u != n && p[u].fwdPtrsL[h] == n
    ensures Bypassed(p, SetLevel(q, u, h, p[n].fwdPtrsL[h]), linked, n, h - 1)
  {
    var q' := SetLevel(q, u, h, p[n].fwdPtrsL[h]);
    forall y, i {:trigger q'[y].fwdPtrsL[i]} | y in linked && y != n && 0 <= i <= 2
      ensures q'[y].fwdPtrsL[i] == if h - 1 < i && p[y].fwdPtrsL[i] == n then p[n].fwdPtrsL[i] else p[y].fwdPtrsL[i]
    {
      assert q'[y].fwdPtrsL[i] == if y == u && i == h then p[n].fwdPtrsL[h] else q[y].fwdPtrsL[i];
      assert q[y].fwdPtrsL[i] == if h < i && p[y].fwdPtrsL[i] == n then p[n].fwdPtrsL[i] else p[y].fwdPtrsL[i];
      if p[y].fwdPtrsL[h] == n {
        OnlyPredecessor(p, linked, h, n, u, y);
      }
    }
  }

  /** Above its own height nobody leads to `n`, so nothing is to be bypassed there. */
  lemma BypassStart(p: seq<Node>, linked: set<int>, n: int)
    requires Inside(p, linked) && LevelsOk(p, linked) && n in linked
    ensures Bypassed(p, p, linked, n, p[n].curHeight)
  {
    forall y, i | y in linked && 0 <= i <= 2 && p[n].curHeight < i
      ensures p[y].fwdPtrsL[i] != n
    {
      assert LevelAt(p, linked, i, y);
    }
  }

  /** `q` is `p` with `n` spliced in behind `u` on the levels below `h`. */
  ghost predicate PartlySpliced(p: seq<Node>, q: seq<Node>, linked: set<int>, n: int, u: seq<int>, h: int)
    requires Inside(p, linked) && |u| == 3 && 0 <= n < |p|
    requires forall i | 0 <= i <= 2 :: u[i] in linked
  {
    && |q| == |p|
    && (forall y | 0 <= y < |p| && y !in linked && y != n :: q[y] == p[y])
    && (forall y | y in linked || y == n :: q[y] == p[y].(fwdPtrsL := q[y].fwdPtrsL))
    && (forall i | 0 <= i <= 2 :: q[n].fwdPtrsL[i] == if i < h then p[u[i]].fwdPtrsL[i] else p[n].fwdPtrsL[i])
    && (forall y, i | y in linked && 0 <= i <= 2 ::
          q[y].fwdPtrsL[i] == if i < h && y == u[i] then n else p[y].fwdPtrsL[i])
  }

  lemma SpliceStep(p: seq<Node>, q: seq<Node>, linked: set<int>, n: int, u: seq<int>, h: int)
    requires Inside(p, linked) && |u| == 3 && 0 <= n < |p| && n !in linked && 0 <= h <= 2
    requires forall i | 0 <= i <= 2 :: u[i] in linked
    requires PartlySpliced(p, q, linked, n, u, h)
    ensures PartlySpliced(p, SetLevel(SetLevel(q, n, h, q[u[h]].fwdPtrsL[h]), u[h], h, n), linked, n, u, h + 1)
  {
  }

  // ---------- the effect of the two locked regions ----------

  /** `x` keeps its identity: only its links may differ. */
  predicate SameEntry(m: Node, m': Node) {
    m'.key == m.key && m'.hash == m.hash && m'.data == m.data
  }

  /** Apart from `n`, only basket `k` was touched: its slot and the linked nodes whose hash selects it. */
  ghost predicate OnlyBasket(p: seq<Node>, b: seq<int>, linked: set<int>, p': seq<Node>, b': seq<int>, n: int, k: int)
    requires Inside(p, linked) && |p'| == |p| && 0 < |b|
  {
    && |b'| == |b|
    && (forall i | 0 <= i < |b| && i != k :: b'[i] == b[i])
    && forall x | x in linked && x != n && p[x].hash % |b| != k :: p'[x] == p[x]
  }

  /** Predecessors are in the group of the node, hence in its basket. */
  lemma BypassedInBasket(p: seq<Node>, b: seq<int>, linked: set<int>, n: int, p': seq<Node>)
    requires Inside(p, linked) && NodesOk(p, linked) && LevelsOk(p, linked) && 0 < |b|
    requires n in linked && Bypassed(p, p', linked, n, -1)
    ensures OnlyBasket(p, b, linked, p', b, n, p[n].hash % |b|)
  {
    forall x | x in linked && x != n && p[x].hash % |b| != p[n].hash % |b| ensures p'[x] == p[x] {
      assert LevelAt(p, linked, 0, x) && LevelAt(p, linked, 1, x) && LevelAt(p, linked, 2, x);
      assert forall i | 0 <= i <= 2 :: p'[x].fwdPtrsL[i] == p[x].fwdPtrsL[i];
    }
  }

  /** The entry of node `n` leaves the cache; nodes that hold no entry are not touched. */
  ghost predicate Evicts(p: seq<Node>, b: seq<int>, linked: set<int>,
                         p': seq<Node>, b': seq<int>, linked': set<int>, n: int)
  {
    && n in linked && Inside(p, linked) && |p'| == |p| && 0 < |b|
    && linked' == linked - {n}
    && Shape(p', b', linked') && OnlyBasket(p, b, linked, p', b', n, p[n].hash % |b|)
    && p'[n] == Cleared(p[n])
    && forall x | 0 <= x < |p| && x != n :: if x in linked then SameEntry(p[x], p'[x]) else p'[x] == p[x]
  }

  /**
   The entry in the private node `n` enters the cache: by linking `n` when its key is new, else by
   moving its data to the node that already holds the key, which leaves `n` blank.
   */
  ghost predicate Stores(p: seq<Node>, b: seq<int>, linked: set<int>,
                         p': seq<Node>, b': seq<int>, linked': set<int>, n: int)
  {
    && 0 <= n < |p| && n !in linked && Inside(p, linked) && |p'| == |p| && 0 < |b|
    && Shape(p', b', linked') && OnlyBasket(p, b, linked, p', b', n, p[n].hash % |b|)
    && (forall x | 0 <= x < |p| && x !in linked && x != n :: p'[x] == p[x])
    && if HasKey(p, linked, p[n].key)
       then
         && linked' == linked
         && p'[n] == Cleared(p[n]).(data := NIL)
         && forall x | x in linked ::
              SameEntry(if p[x].key == p[n].key then p[x].(data := p[n].data) else p[x], p'[x])
       else
         && linked' == linked + {n}
         && forall x | x in linked' :: SameEntry(p[x], p'[x])
  }

  lemma ContentsWithout(p: seq<Node>, linked: set<int>, p': seq<Node>, n: int)
    requires Inside(p, linked) && NodesOk(p, linked) && n in linked && |p'| == |p|
    requires forall x | x in linked && x != n :: SameEntry(p[x], p'[x])
    ensures IsContents(Contents(p, linked) - {p[n].key}, p', linked - {n})
  {
    var m' := Contents(p, linked) - {p[n].key};
    forall k | k in m'
      ensures HasKey(p', linked - {n}, k)
    {
      var x :| x in linked && p[x].key == k;
      assert x in linked - {n};
    }
  }

  lemma EvictsContents(p: seq<Node>, b: seq<int>, linked: set<int>, p': seq<Node>, b': seq<int>, linked': set<int>,
                       n: int)
    requires Shape(p, b, linked) && Evicts(p, b, linked, p', b', linked', n)
    ensures Contents(p', linked') == Contents(p, linked) - {p[n].key}
  {
    ContentsWithout(p, linked, p', n);
    ContentsUnique(Contents(p, linked) - {p[n].key}, p', linked');
  }

  lemma ContentsWith(p: seq<Node>, linked: set<int>, p': seq<Node>, n: int)
    requires Inside(p, linked) && NodesOk(p, linked) && 0 <= n < |p| == |p'| && n !in linked
    requires forall x | x in linked + {n} :: SameEntry(p[x], p'[x])
    requires !HasKey(p, linked, p[n].key)
    ensures IsContents(Contents(p, linked)[p[n].key := p[n].data], p', linked + {n})
  {
    var m' := Contents(p, linked)[p[n].key := p[n].data];
    forall k | k in m'
      ensures HasKey(p', linked + {n}, k)
    {
      if k == p[n].key {
        assert n in linked + {n};
      } else {
        var x :| x in linked && p[x].key == k;
        assert x in linked + {n};
      }
    }
  }

  lemma ContentsUpdated(p: seq<Node>, linked: set<int>, p': seq<Node>, key: int, data: int)
    requires Inside(p, linked) && NodesOk(p, linked) && |p| == |p'| && HasKey(p, linked, key)
    requires forall x | x in linked ::
      SameEntry(if p[x].key == key then p[x].(data := data) else p[x], p'[x])
    ensures IsContents(Contents(p, linked)[key := data], p', linked)
  {
    var m' := Contents(p, linked)[key := data];
    forall k | k in m'
      ensures HasKey(p', linked, k)
    {
      var x :| x in linked && p[x].key == k;
      assert p'[x].key == k;
    }
  }

  lemma StoresContents(p: seq<Node>, b: seq<int>, linked: set<int>, p': seq<Node>, b': seq<int>, linked': set<int>,
                       n: int)
    requires Shape(p, b, linked) && Stores(p, b, linked, p', b', linked', n)
    ensures Contents(p', linked') == Contents(p, linked)[p[n].key := p[n].data]
  {
    if HasKey(p, linked, p[n].key) {
      ContentsUpdated(p, linked, p', p[n].key, p[n].data);
    } else {
      ContentsWith(p, linked, p', n);
    }
    ContentsUnique(Contents(p, linked)[p[n].key := p[n].data], p', linked');
  }

  /** The shape only depends on the linked nodes. */
  lemma ShapeIgnores(p: seq<Node>, b: seq<int>, linked: set<int>, p': seq<Node>)
    requires Shape(p, b, linked) && |p'| == |p| && forall x | x in linked :: p'[x] == p[x]
    ensures Shape(p', b, linked)
  {
    forall x | x in linked
      ensures LevelAt(p', linked, 0, x) && LevelAt(p', linked, 1, x) && LevelAt(p', linked, 2, x)
    {
      assert LevelAt(p, linked, 0, x) && LevelAt(p, linked, 1, x) && LevelAt(p, linked, 2, x);
    }
    forall x | x in linked
      ensures ChainAt(p', |b|, linked, x)
    {
      assert ChainAt(p, |b|, linked, x);
    }
    forall i | 0 <= i < |b|
      ensures BasketAt(p', b, linked, i)
    {
      assert BasketAt(p, b, linked, i);
    }
  }

  /** A head is reached through one slot: its basket (`slot` null) or the chain pointer of `slot`. */
  lemma SlotIsOnly(p: seq<Node>, b: seq<int>, linked: set<int>, n: int, slot: int)
    requires Inside(p, linked) && 0 < |b| && NodesOk(p, linked) && ChainsOk(p, b, linked) && n in linked
    requires if slot == NIL then b[p[n].hash % |b|] == n else slot in linked && p[slot].fwdPtrH == n
    ensures forall y | y in linked && p[y].fwdPtrH == n :: y == slot
    ensures forall i | 0 <= i < |b| && b[i] == n :: slot == NIL && i == p[n].hash % |b|
  {
    if slot == NIL {
      assert BasketAt(p, b, linked, p[n].hash % |b|);
    } else {
      assert ChainAt(p, |b|, linked, slot);
    }
    forall y | y in linked && p[y].fwdPtrH == n
      ensures y == slot
    {
      assert ChainAt(p, |b|, linked, y);
    }
    forall i | 0 <= i < |b| && b[i] == n
      ensures slot == NIL && i == p[n].hash % |b|
    {
      assert BasketAt(p, b, linked, i);
    }
  }

  lemma ShapeIgnoresData(p: seq<Node>, b: seq<int>, linked: set<int>, p': seq<Node>)
    requires Shape(p, b, linked) && |p'| == |p|
    requires forall x | x in linked :: p'[x] == p[x].(data := p'[x].data)
    ensures Shape(p', b, linked)
  {
    forall x | x in linked
      ensures LevelAt(p', linked, 0, x) && LevelAt(p', linked, 1, x) && LevelAt(p', linked, 2, x)
    {
      assert LevelAt(p, linked, 0, x) && LevelAt(p, linked, 1, x) && LevelAt(p, linked, 2, x);
    }
    forall x | x in linked
      ensures ChainAt(p', |b|, linked, x)
    {
      assert ChainAt(p, |b|, linked, x);
    }
    forall i | 0 <= i < |b|
      ensures BasketAt(p', b, linked, i)
    {
      assert BasketAt(p, b, linked, i);
    }
  }

  // ---------- what the linking code relies on ----------

  /** The path lies in the group of the new node, hence in its basket. */
  lemma SplicedInBasket(p: seq<Node>, b: seq<int>, linked: set<int>, n: int, u: seq<int>, p1: seq<Node>,
                        p': seq<Node>, h: int)
    requires Inside(p, linked) && 0 < |b| && 0 <= n < |p| == |p1| && n !in linked && |u| == 3 && 0 <= h <= 3
    requires forall i | 0 <= i <= 2 :: u[i] in linked && p[u[i]].hash == p[n].hash
    requires forall y | y in linked :: p1[y] == p[y]
    requires PartlySpliced(p1, p', linked, n, u, h)
    ensures OnlyBasket(p, b, linked, p', b, n, p[n].hash % |b|)
  {
    forall x | x in linked && p[x].hash % |b| != p[n].hash % |b| ensures p'[x] == p[x] {
      assert p1[x] == p[x] && x != u[0] && x != u[1] && x != u[2];
      assert p'[x].fwdPtrsL[0] == p[x].fwdPtrsL[0];
      assert p'[x].fwdPtrsL[1] == p[x].fwdPtrsL[1];
      assert p'[x].fwdPtrsL[2] == p[x].fwdPtrsL[2];
      assert p'[x].fwdPtrsL == p[x].fwdPtrsL;
    }
  }

  /** `p1` is `p` with the height of `n` chosen; `p'` is `p1` after the splicing loop. */
  lemma SpliceLinks(p: seq<Node>, b: seq<int>, linked: set<int>, n: int, u: seq<int>, p1: seq<Node>, p': seq<Node>)
    requires Shape(p, b, linked) && 0 <= n < |p| && n !in linked && |u| == 3
    requires |p1| == |p| && p1 == p[n := p[n].(curHeight := p1[n].curHeight)] && 0 <= p1[n].curHeight <= 2
    requires p[n].fwdPtrH == NIL && p[n].fwdPtrsL == [NIL, NIL, NIL] && 0 <= p[n].key
    requires forall i | 0 <= i <= 2 :: u[i] in linked && OnPath(p, linked, p[n].hash, p[n].key, i, u[i])
    requires !HasKey(p, linked, p[n].key)
    requires PartlySpliced(p1, p', linked, n, u, p1[n].curHeight + 1)
    ensures Stores(p, b, linked, p', b, linked + {n}, n)
  {
    assert forall y | y in linked :: p1[y] == p[y];
    forall h | 0 <= h <= 2
      ensures OnPath(p, linked, p'[n].hash, p'[n].key, h, u[h]) && SplicedUpTo(p, p', linked, h, n, u[h])
    {
    }
    LinkInner(p, b, linked, n, u, p');
    SplicedInBasket(p, b, linked, n, u, p1, p', p1[n].curHeight + 1);
  }

  /** A linked node with the key of `n` would be in the group of `n`. */
  ghost predicate SameHashForKey(p: seq<Node>, linked: set<int>, n: int)
    requires Inside(p, linked) && 0 <= n < |p|
  {
    forall y | y in linked && p[y].key == p[n].key :: p[y].hash == p[n].hash
  }

  /** `n` took the place of the head `prev` and `slot`, which led to `prev`, now leads to `n`. */
  lemma NewHeadLinks(p: seq<Node>, b: seq<int>, linked: set<int>, n: int, prev: int, slot: int, p': seq<Node>,
                     b': seq<int>)
    requires Shape(p, b, linked) && IsHead(p, linked, prev) && 0 <= n < |p| == |p'| && n !in linked
    requires if slot == NIL then b[p[n].hash % |b|] == prev && b' == b[p[n].hash % |b| := n]
             else slot in linked && slot != prev && p[slot].fwdPtrH == prev && b' == b
    requires p[n].hash == p[prev].hash && 0 <= p[n].key < p[prev].key && SameHashForKey(p, linked, n)
    requires forall x | 0 <= x < |p| && x != n && x != prev :: p'[x] == if x == slot then p[x].(fwdPtrH := n) else p[x]
    requires SameEntry(p[n], p'[n]) && SameEntry(p[prev], p'[prev])
    requires p'[n].curHeight == 2 && p'[n].fwdPtrH == p[prev].fwdPtrH
    requires 0 <= p'[prev].curHeight <= 2 && p'[prev].fwdPtrH == NIL
    requires forall h | 0 <= h <= 2 ::
      if h <= p'[prev].curHeight
      then p'[n].fwdPtrsL[h] == prev && p'[prev].fwdPtrsL[h] == p[prev].fwdPtrsL[h]
      else p'[n].fwdPtrsL[h] == p[prev].fwdPtrsL[h] && p'[prev].fwdPtrsL[h] == NIL
    ensures Stores(p, b, linked, p', b', linked + {n}, n)
  {
    SlotIsOnly(p, b, linked, prev, slot);
    assert slot != NIL ==> ChainAt(p, |b|, linked, slot);
    assert HeadDemoted(p, p', linked, n, prev);
    assert !HasKey(p, linked, p[n].key);
    LinkHead(p, b, linked, n, prev, p', b');
  }

  /** `n` became a group of its own behind `slot` (its basket when `slot` is null). */
  lemma NewGroupLinks(p: seq<Node>, b: seq<int>, linked: set<int>, n: int, slot: int, p': seq<Node>, b': seq<int>)
    requires Shape(p, b, linked) && 0 <= n < |p| == |p'| && n !in linked
    requires slot == NIL || slot in linked
    requires SlotFor(p, b, linked, p[n].hash, slot) && SameHashForKey(p, linked, n)
    requires p[n].fwdPtrH == NIL && p[n].fwdPtrsL == [NIL, NIL, NIL] && 0 <= p[n].key
    requires b' == if slot == NIL then b[p[n].hash % |b| := n] else b
    requires forall x | 0 <= x < |p| && x != n :: p'[x] == if x == slot then p[x].(fwdPtrH := n) else p[x]
    requires p'[n] == p[n].(curHeight := 2, fwdPtrH := if slot == NIL then b[p[n].hash % |b|] else p[slot].fwdPtrH)
    ensures Stores(p, b, linked, p', b', linked + {n}, n)
  {
    NoGroupAtSlot(p, b, linked, p[n].hash, slot);
    assert !HasKey(p, linked, p[n].key);
    LinkGroup(p, b, linked, n, slot, p', b');
  }

  lemma NoGroupAtSlot(p: seq<Node>, b: seq<int>, linked: set<int>, hash: nat, slot: int)
    requires Shape(p, b, linked) && SlotFor(p, b, linked, hash, slot)
    ensures forall y | y in linked :: p[y].hash != hash
  {
    if slot == NIL {
      assert BasketAt(p, b, linked, hash % |b|);
    } else {
      assert ChainAt(p, |b|, linked, slot);
    }
  }

  lemma SameContents(p: seq<Node>, linked: set<int>, p': seq<Node>)
    requires Inside(p, linked) && NodesOk(p, linked) && |p'| == |p| && NodesOk(p', linked)
    requires forall x | x in linked :: SameEntry(p[x], p'[x])
    ensures Contents(p', linked) == Contents(p, linked)
  {
    forall k | k in Contents(p, linked)
      ensures HasKey(p', linked, k)
    {
      var x :| x in linked && p[x].key == k;
      assert p'[x].key == k;
    }
    ContentsUnique(Contents(p, linked), p', linked);
  }

  // ---------- what the shape means for a walk along a level ----------

  /** The nodes met when following level `h` from `x` to the end. */
  ghost function Walk(p: seq<Node>, linked: set<int>, h: int, x: int): seq<int>
    requires Inside(p, linked) && 0 <= h <= 2 && LevelOk(p, linked, h)
    requires x in linked && h <= p[x].curHeight
    decreases Above(p, linked, x)
  {
    assert LevelAt(p, linked, h, x);
    var next := p[x].fwdPtrsL[h];
    if next == NIL then [x]
    else
      StepUp(p, linked, x, next);
      [x] + Walk(p, linked, h, next)
  }

  ghost function TallEnough(p: seq<Node>, s: seq<int>, h: int): seq<int>
    requires forall i | 0 <= i < |s| :: 0 <= s[i] < |p|
  {
    if s == [] then []
    else (if h <= p[s[0]].curHeight then [s[0]] else []) + TallEnough(p, s[1..], h)
  }

  /** `s` is the first node at or after `y` that reaches level `h`. */
  ghost predicate FirstTall(p: seq<Node>, linked: set<int>, h: int, y: int, s: int)
    requires Inside(p, linked) && y in linked
  {
    && (s == NIL || (s in linked && p[s].hash == p[y].hash && p[y].key <= p[s].key && h <= p[s].curHeight))
    && forall z | z in linked && p[z].hash == p[y].hash && p[y].key <= p[z].key && h <= p[z].curHeight ::
        s in linked && p[s].key <= p[z].key
  }

  /** A walk meets exactly the nodes further on in the group that reach its level. */
  lemma {:induction false} WalkMembers(p: seq<Node>, linked: set<int>, h: int, x: int)
    requires Inside(p, linked) && NodesOk(p, linked) && 0 <= h <= 2 && LevelOk(p, linked, h)
    requires x in linked && h <= p[x].curHeight
    ensures forall y :: y in Walk(p, linked, h, x) <==>
      y in linked && p[y].hash == p[x].hash && p[x].key <= p[y].key && h <= p[y].curHeight
    decreases Above(p, linked, x)
  {
    assert LevelAt(p, linked, h, x);
    var next := p[x].fwdPtrsL[h];
    var walk := Walk(p, linked, h, x);
    if next == NIL {
      assert walk == [x];
    } else {
      StepUp(p, linked, x, next);
      WalkMembers(p, linked, h, next);
      var rest := Walk(p, linked, h, next);
      assert walk == [x] + rest;
      assert forall y :: y in walk <==> y == x || y in rest;
    }
  }

  lemma {:induction false} TallWalk(p: seq<Node>, linked: set<int>, h: int, y: int, s: int)
    requires Inside(p, linked) && NodesOk(p, linked) && 0 <= h <= 2 && LevelOk(p, linked, 0) && LevelOk(p, linked, h)
    requires y in linked && FirstTall(p, linked, h, y, s)
    ensures forall i | 0 <= i < |Walk(p, linked, 0, y)| :: 0 <= Walk(p, linked, 0, y)[i] < |p|
    ensures TallEnough(p, Walk(p, linked, 0, y), h) == if s == NIL then [] else Walk(p, linked, h, s)
    decreases Above(p, linked, y)
  {
    WalkMembers(p, linked, 0, y);
    assert LevelAt(p, linked, 0, y);
    var next := p[y].fwdPtrsL[0];
    var s1 := s;
    if s == y {
      assert LevelAt(p, linked, h, y);
      s1 := p[y].fwdPtrsL[h];
    }
    var walk := Walk(p, linked, 0, y);
    if next == NIL {
      assert walk == [y] && walk[1..] == [];
    } else {
      StepUp(p, linked, y, next);
      TallWalk(p, linked, h, next, s1);
      assert walk == [y] + Walk(p, linked, 0, next) && walk[1..] == Walk(p, linked, 0, next);
    }
  }

  /** Level `h` is exactly the subsequence of the group's nodes that are tall enough for it. */
  lemma {:induction false} LevelIsSubsequence(p: seq<Node>, b: seq<int>, linked: set<int>, head: int, h: int)
    requires Shape(p, b, linked) && IsHead(p, linked, head) && 0 <= h <= 2
    ensures p[head].curHeight == 2
    ensures forall y :: y in Walk(p, linked, 0, head) <==> y in linked && p[y].hash == p[head].hash
    ensures forall i | 0 <= i < |Walk(p, linked, 0, head)| :: 0 <= Walk(p, linked, 0, head)[i] < |p|
    ensures Walk(p, linked, h, head) == TallEnough(p, Walk(p, linked, 0, head), h)
  {
    assert ChainAt(p, |b|, linked, head);
    WalkMembers(p, linked, 0, head);
    TallWalk(p, linked, h, head, head);
  }

  // ---------- what the shape means for a basket ----------

  /** The heads met when following a basket's chain from a slot that leads to `s`. */
  ghost function Heads(p: seq<Node>, b: seq<int>, linked: set<int>, basket: int, low: int, s: int): seq<int>
    requires Inside(p, linked) && 0 < |b| && ChainsOk(p, b, linked)
    requires NextGroup(p, linked, |b|, basket, low, s)
    decreases Onward(p, linked, s)
  {
    if s == NIL then []
    else
      assert ChainAt(p, |b|, linked, s);
      StepOn(p, linked, s, p[s].fwdPtrH);
      [s] + Heads(p, b, linked, basket, p[s].hash, p[s].fwdPtrH)
  }

  lemma {:induction false} HeadsMembers(p: seq<Node>, b: seq<int>, linked: set<int>, basket: int, low: int, s: int)
    requires Inside(p, linked) && 0 < |b| && NodesOk(p, linked) && ChainsOk(p, b, linked)
    requires NextGroup(p, linked, |b|, basket, low, s)
    ensures forall y :: y in Heads(p, b, linked, basket, low, s) <==>
      IsHead(p, linked, y) && p[y].hash % |b| == basket && low < p[y].hash
    decreases Onward(p, linked, s)
  {
    if s != NIL {
      assert ChainAt(p, |b|, linked, s);
      StepOn(p, linked, s, p[s].fwdPtrH);
      HeadsMembers(p, b, linked, basket, p[s].hash, p[s].fwdPtrH);
      var all, rest := Heads(p, b, linked, basket, low, s), Heads(p, b, linked, basket, p[s].hash, p[s].fwdPtrH);
      assert all == [s] + rest;
      assert forall y :: y in all <==> y == s || y in rest;
    }
  }

  lemma {:induction false} HeadOf(p: seq<Node>, linked: set<int>, x: int) returns (head: int)
    requires Inside(p, linked) && NodesOk(p, linked) && x in linked
    ensures IsHead(p, linked, head) && p[head].hash == p[x].hash
    decreases p[x].key
  {
    if IsHead(p, linked, x) {
      head := x;
    } else {
      var y :| y in linked && p[y].hash == p[x].hash && p[y].key < p[x].key;
      head := HeadOf(p, linked, y);
    }
  }

  /** `y` is found by a search that starts at basket `i`. */
  ghost predicate Reachable(p: seq<Node>, b: seq<int>, linked: set<int>, i: int, y: int)
    requires Shape(p, b, linked) && 0 <= i < |b|
  {
    assert BasketAt(p, b, linked, i);
    exists head ::
      && head in Heads(p, b, linked, i, -1, b[i])
      && head in linked && y in Walk(p, linked, 0, head)
  }

  /** A basket leads to exactly the linked nodes whose hash selects it. */
  lemma {:induction false} BasketHolds(p: seq<Node>, b: seq<int>, linked: set<int>, i: int, y: int)
    requires Shape(p, b, linked) && 0 <= i < |b|
    ensures Reachable(p, b, linked, i, y) <==> y in linked && p[y].hash % |b| == i
  {
    assert BasketAt(p, b, linked, i);
    HeadsMembers(p, b, linked, i, -1, b[i]);
    var heads := Heads(p, b, linked, i, -1, b[i]);
    if y in linked && p[y].hash % |b| == i {
      var head := HeadOf(p, linked, y);
      assert ChainAt(p, |b|, linked, head);
      WalkMembers(p, linked, 0, head);
      assert head in heads;
    }
    if head :| head in heads && head in linked && y in Walk(p, linked, 0, head) {
      assert ChainAt(p, |b|, linked, head);
      WalkMembers(p, linked, 0, head);
    }
  }
}
