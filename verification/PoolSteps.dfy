/**
 The loops over the node pool that the caches of the OnCache family have in common
 (src/caches/oncachemlru.h, src/caches/oncachesmru.h).
 */
module PoolSteps {
  import opened CacheNodes

  /** landscape_l as init() fills it: heights for nodes that are not heads. */
  function Landscape(i: nat): int {
    if i == 255 || i % 25 == 0 then 2 else if i % 5 == 0 then 1 else 0
  }

  /** The next value of the 8-bit counter into the landscape. */
  function NextLand(i: nat): nat {
    (i + 1) % 256
  }

  method SetLevelPtr(nodePool: array<Node>, x: int, h: int, to: int)
    requires 0 <= x < nodePool.Length && 0 <= h <= 2
    modifies nodePool
    ensures nodePool[..] == SetLevel(old(nodePool[..]), x, h, to)
  {
    nodePool[x] := nodePool[x].(fwdPtrsL := nodePool[x].fwdPtrsL[h := to]);
  }

  /**
   The descent of an insertion: the node that already holds `key`, with the level pointer that leads
   to it, or the path to the place of `key`.
   */
  method SearchPath(nodePool: array<Node>, ghost linked: set<int>, key: int, head: int)
    returns (hit: int, from: int, level: int, u: seq<int>)
    requires Inside(nodePool[..], linked) && NodesOk(nodePool[..], linked) && LevelsOk(nodePool[..], linked)
    requires head in linked && nodePool[head].key < key && nodePool[head].curHeight == 2
    ensures |u| == 3
    ensures hit != NIL ==> hit in linked && nodePool[hit].key == key && nodePool[hit].hash == nodePool[head].hash
    ensures hit != NIL ==> from in linked && 0 <= level <= 2 && nodePool[from].fwdPtrsL[level] == hit
    ensures hit == NIL ==>
      forall i | 0 <= i <= 2 :: OnPath(nodePool[..], linked, nodePool[head].hash, key, i, u[i])
    ensures hit == NIL ==> AbsentAt(nodePool[..], linked, nodePool[head].hash, key, 0)
  {
    ghost var p := nodePool[..];
    ghost var hash := p[head].hash;
    var cur := head;
    u := [NIL, NIL, NIL];
    var h := 2;
    while 0 <= h
      invariant -1 <= h <= 2 && |u| == 3
      invariant cur in linked && p[cur].hash == hash && p[cur].key < key && h <= p[cur].curHeight
      invariant forall i | h < i <= 2 :: OnPath(p, linked, hash, key, i, u[i])
      invariant h < 2 ==> AbsentAt(p, linked, hash, key, h + 1)
    {
      u := u[h := cur];
      while nodePool[cur].fwdPtrsL[h] != NIL
        invariant cur in linked && p[cur].hash == hash && p[cur].key < key && h <= p[cur].curHeight
        invariant |u| == 3 && u[h] == cur
        invariant forall i | h < i <= 2 :: OnPath(p, linked, hash, key, i, u[i])
        decreases Above(p, linked, cur)
      {
        assert LevelAt(p, linked, h, cur);
        var next := nodePool[cur].fwdPtrsL[h];
        var cmp := Compare(key, nodePool[next].key);
        if cmp < 0 {
          break;
        } else if cmp == 0 {
          return next, cur, h, u;
        }
        StepUp(p, linked, cur, next);
        cur := next;
        u := u[h := cur];
      }
      assert LevelAt(p, linked, h, cur);
      PathEnds(p, linked, h, cur, key);
      h := h - 1;
    }
    return NIL, NIL, 0, u;
  }

  /** The predecessor of `n` on every level that `n` reaches, found from `start` and level `top` on. */
  method FindPredecessors(nodePool: array<Node>, ghost linked: set<int>, n: int, start: int, top: int)
    returns (u: seq<int>)
    requires Inside(nodePool[..], linked) && NodesOk(nodePool[..], linked) && LevelsOk(nodePool[..], linked)
    requires n in linked && start in linked && nodePool[start].hash == nodePool[n].hash
    requires nodePool[start].key < nodePool[n].key && nodePool[n].curHeight <= top <= nodePool[start].curHeight
    ensures |u| == 3
    ensures forall i | 0 <= i <= nodePool[n].curHeight ::
      u[i] in linked && u[i] != n && nodePool[u[i]].fwdPtrsL[i] == n
  {
    ghost var p := nodePool[..];
    var cur := start;
    var key := nodePool[n].key;
    u := [NIL, NIL, NIL];
    var h := top;
    while 0 <= h
      invariant -1 <= h <= top <= 2 && |u| == 3
      invariant cur in linked && p[cur].hash == p[n].hash && p[cur].key < key && h <= p[cur].curHeight
      invariant forall i | h < i <= p[n].curHeight :: u[i] in linked && u[i] != n && p[u[i]].fwdPtrsL[i] == n
    {
      u := u[h := cur];
      while nodePool[cur].fwdPtrsL[h] != n && nodePool[cur].fwdPtrsL[h] != NIL
        invariant cur in linked && p[cur].hash == p[n].hash && p[cur].key < key && h <= p[cur].curHeight
        invariant |u| == 3
        invariant forall i | h < i <= p[n].curHeight :: u[i] in linked && u[i] != n && p[u[i]].fwdPtrsL[i] == n
        decreases Above(p, linked, cur)
      {
        assert LevelAt(p, linked, h, cur);
        if Compare(key, nodePool[nodePool[cur].fwdPtrsL[h]].key) <= 0 {
          break;
        }
        u := u[h := cur];
        StepUp(p, linked, cur, nodePool[cur].fwdPtrsL[h]);
        cur := nodePool[cur].fwdPtrsL[h];
      }
      if n == nodePool[cur].fwdPtrsL[h] {
        u := u[h := cur];
      }
      assert LevelAt(p, linked, h, cur);
      h := h - 1;
    }
  }

  /** Takes `n` off every level, its predecessors being known. */
  method Bypass(nodePool: array<Node>, ghost linked: set<int>, n: int, u: seq<int>)
    requires Inside(nodePool[..], linked) && NodesOk(nodePool[..], linked) && LevelsOk(nodePool[..], linked)
    requires n in linked && |u| == 3
    requires forall i | 0 <= i <= nodePool[n].curHeight ::
      u[i] in linked && u[i] != n && nodePool[u[i]].fwdPtrsL[i] == n
    modifies nodePool
    ensures Bypassed(old(nodePool[..]), nodePool[..], linked, n, -1)
  {
    ghost var p := nodePool[..];
    var h := nodePool[n].curHeight;
    BypassStart(p, linked, n);
    while 0 <= h
      invariant -1 <= h <= p[n].curHeight
      invariant nodePool.Length == |p| && Bypassed(p, nodePool[..], linked, n, h)
    {
      BypassStep(p, nodePool[..], linked, n, h, u[h]);
      SetLevelPtr(nodePool, u[h], h, nodePool[n].fwdPtrsL[h]);
      h := h - 1;
    }
  }

  /** Splices the new node `n` in behind the path `u`, as far up as its height goes. */
  method Splice(nodePool: array<Node>, ghost linked: set<int>, n: int, u: seq<int>)
    requires Inside(nodePool[..], linked) && 0 <= n < nodePool.Length && n !in linked && nodePool[n].curHeight <= 2
    requires |u| == 3 && forall i | 0 <= i <= 2 :: u[i] in linked
    requires 0 <= nodePool[n].curHeight
    modifies nodePool
    ensures PartlySpliced(old(nodePool[..]), nodePool[..], linked, n, u, old(nodePool[n].curHeight) + 1)
  {
    ghost var p := nodePool[..];
    var i := 0;
    while i <= nodePool[n].curHeight
      invariant 0 <= i <= p[n].curHeight + 1 && nodePool.Length == |p|
      invariant PartlySpliced(p, nodePool[..], linked, n, u, i)
    {
      SpliceStep(p, nodePool[..], linked, n, u, i);
      SetLevelPtr(nodePool, n, i, nodePool[u[i]].fwdPtrsL[i]);
      SetLevelPtr(nodePool, u[i], i, n);
      i := i + 1;
    }
  }

  /** Gives the place of the head `prev` to `n`; the caller redirects the slot that led to `prev`. */
  method DemoteHead(nodePool: array<Node>, n: int, prev: int, height: int)
    requires 0 <= n < nodePool.Length && 0 <= prev < nodePool.Length && n != prev
    modifies nodePool
    ensures forall x | 0 <= x < nodePool.Length && x != n && x != prev :: nodePool[x] == old(nodePool[x])
    ensures SameEntry(old(nodePool[n]), nodePool[n]) && SameEntry(old(nodePool[prev]), nodePool[prev])
    ensures nodePool[n].fwdPtrH == old(nodePool[prev].fwdPtrH) && nodePool[n].curHeight == 2
    ensures nodePool[prev].fwdPtrH == NIL && nodePool[prev].curHeight == height
    ensures forall h | 0 <= h <= 2 ::
      if h <= height
      then nodePool[n].fwdPtrsL[h] == prev && nodePool[prev].fwdPtrsL[h] == old(nodePool[prev].fwdPtrsL[h])
      else nodePool[n].fwdPtrsL[h] == old(nodePool[prev].fwdPtrsL[h]) && nodePool[prev].fwdPtrsL[h] == NIL
  {
    nodePool[n] := nodePool[n].(fwdPtrH := nodePool[prev].fwdPtrH);
    nodePool[prev] := nodePool[prev].(fwdPtrH := NIL);
    nodePool[n] := nodePool[n].(curHeight := 2);
    nodePool[prev] := nodePool[prev].(curHeight := height);
    var i := 0;
    while i <= 2
      invariant 0 <= i <= 3
      invariant forall x | 0 <= x < nodePool.Length && x != n && x != prev :: nodePool[x] == old(nodePool[x])
      invariant SameEntry(old(nodePool[n]), nodePool[n]) && SameEntry(old(nodePool[prev]), nodePool[prev])
      invariant nodePool[n].fwdPtrH == old(nodePool[prev].fwdPtrH) && nodePool[n].curHeight == 2
      invariant nodePool[prev].fwdPtrH == NIL && nodePool[prev].curHeight == height
      invariant forall h | i <= h <= 2 :: nodePool[prev].fwdPtrsL[h] == old(nodePool[prev].fwdPtrsL[h])
      invariant forall h | 0 <= h < i ::
        if h <= height
        then nodePool[n].fwdPtrsL[h] == prev && nodePool[prev].fwdPtrsL[h] == old(nodePool[prev].fwdPtrsL[h])
        else nodePool[n].fwdPtrsL[h] == old(nodePool[prev].fwdPtrsL[h]) && nodePool[prev].fwdPtrsL[h] == NIL
    {
      if i <= nodePool[prev].curHeight {
        nodePool[n] := nodePool[n].(fwdPtrsL := nodePool[n].fwdPtrsL[i := prev]);
      } else {
        nodePool[n] := nodePool[n].(fwdPtrsL := nodePool[n].fwdPtrsL[i := nodePool[prev].fwdPtrsL[i]]);
        nodePool[prev] := nodePool[prev].(fwdPtrsL := nodePool[prev].fwdPtrsL[i := NIL]);
      }
      i := i + 1;
    }
  }

  /** Hands the chain pointer of the old head `n`, and what `next` lacks in height, to `next`. */
  method Promote(nodePool: array<Node>, n: int, next: int)
    requires 0 <= n < nodePool.Length && 0 <= next < nodePool.Length && n != next
    requires 0 <= nodePool[next].curHeight <= 2
    modifies nodePool
    ensures forall x | 0 <= x < nodePool.Length && x != next :: nodePool[x] == old(nodePool[x])
    ensures SameEntry(old(nodePool[next]), nodePool[next])
    ensures nodePool[next].fwdPtrH == nodePool[n].fwdPtrH && nodePool[next].curHeight == 2
    ensures forall i | 0 <= i <= 2 ::
      nodePool[next].fwdPtrsL[i]
      == if i <= old(nodePool[next].curHeight) then old(nodePool[next].fwdPtrsL[i]) else nodePool[n].fwdPtrsL[i]
  {
    nodePool[next] := nodePool[next].(fwdPtrH := nodePool[n].fwdPtrH);
    var h := 2;
    while nodePool[next].curHeight < h
      invariant old(nodePool[next].curHeight) <= h <= 2
      invariant forall x | 0 <= x < nodePool.Length && x != next :: nodePool[x] == old(nodePool[x])
      invariant nodePool[next]
             == old(nodePool[next]).(fwdPtrH := nodePool[n].fwdPtrH, fwdPtrsL := nodePool[next].fwdPtrsL)
      invariant forall i | 0 <= i <= 2 ::
        nodePool[next].fwdPtrsL[i] == if i <= h then old(nodePool[next].fwdPtrsL[i]) else nodePool[n].fwdPtrsL[i]
    {
      nodePool[next] := nodePool[next].(fwdPtrsL := nodePool[next].fwdPtrsL[h := nodePool[n].fwdPtrsL[h]]);
      h := h - 1;
    }
    nodePool[next] := nodePool[next].(curHeight := 2);
  }
}
