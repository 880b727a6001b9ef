/**
 ConcurrentLRUCache (src/caches/facebook/concurrent-lru-cache.h) used by one thread: the hash map,
 the doubly linked list between two sentinels, and the counter m_size.
 */
module LruCache {

  // ---------- what the cache is: values by key, and the keys by recency ----------

  datatype Option<T> = None | Some(value: T)

  datatype Cache = Cache(maxSize: nat, size: nat, keys: seq<int>, values: map<int, int>)

  function DropLast<T>(s: seq<T>): (r: seq<T>) {
    if s == [] then [] else s[..|s| - 1]
  }

  /** The values without the least recently used key. */
  function WithoutLast(keys: seq<int>, values: map<int, int>): (r: map<int, int>) {
    if keys == [] then values else values - {keys[|keys| - 1]}
  }

  /** An overfull cache gives up one element, if m_size is still as it was seen. */
  function Trimmed(c: Cache, seen: nat): (r: Cache) {
    if c.size == seen > c.maxSize then
      c.(size := c.size - 1, keys := DropLast(c.keys), values := WithoutLast(c.keys, c.values))
    else c
  }

  /** A full cache evicts before it adds the new key. */
  function Admitted(c: Cache, key: int, value: int): (r: Cache) {
    if c.size >= c.maxSize then
      c.(keys := [key] + DropLast(c.keys), values := WithoutLast(c.keys, c.values[key := value]))
    else c.(keys := [key] + c.keys, values := c.values[key := value])
  }

  /** Without an eviction the new element is counted; an overfull cache evicts a second time. */
  function Inserted(c: Cache, key: int, value: int): (r: Cache) {
    if key in c.values then c
    else
      var more := Admitted(c, key, value);
      Trimmed(if c.size < c.maxSize then more.(size := c.size + 1) else more, c.size)
  }

  /**
   The second eviction meets the new element itself, whose lock insert still holds: it would wait for
   itself.  For calls made one after the other this does not happen, as `SizeIsExact` shows; for calls
   made at the same time it does (`LruWaits`).
   */
  predicate Blocks(c: Cache, key: int) {
    key !in c.values && c.size > c.maxSize && |c.keys| <= 1
  }

  function ToFront(keys: seq<int>, key: int): (r: seq<int>)
    requires key in keys
  {
    [key] + Remove(keys, key)
  }

  function Remove(keys: seq<int>, key: int): (r: seq<int>)
    requires key in keys
  {
    if keys[0] == key then keys[1..] else [keys[0]] + Remove(keys[1..], key)
  }

  lemma {:induction false} RemoveAt(keys: seq<int>, i: nat)
    requires i < |keys| && forall j | 0 <= j < i :: keys[j] != keys[i]
    ensures Remove(keys, keys[i]) == keys[..i] + keys[i + 1..]
  {
    if i > 0 {
      var rest := keys[1..];
      assert rest[i - 1] == keys[i];
      RemoveAt(rest, i - 1);
      assert Remove(keys, keys[i]) == [keys[0]] + Remove(rest, keys[i]);
      assert [keys[0]] + rest[..i - 1] == keys[..i];
      assert rest[i..] == keys[i + 1..];
    }
  }

  /** Map and list hold the same keys, each once. */
  ghost predicate Agrees(c: Cache) {
    && (forall k :: k in c.values <==> k in c.keys)
    && (forall i, j | 0 <= i < j < |c.keys| :: c.keys[i] != c.keys[j])
  }

  // ---------- what insert and find promise ----------

  /** m_size counts the elements, and there is room for them. */
  ghost predicate Counted(c: Cache) {
    Agrees(c) && c.size == |c.keys| <= c.maxSize
  }

  /** The values of the listed keys only. */
  function Restricted(values: map<int, int>, keys: seq<int>): (r: map<int, int>) {
    map k | k in values && k in keys :: values[k]
  }

  lemma RestrictedTo(values: map<int, int>, keys: seq<int>, some: map<int, int>)
    requires forall k :: k in some <==> k in keys
    requires forall k | k in some :: k in values && some[k] == values[k]
    ensures some == Restricted(values, keys)
  {
    var r := Restricted(values, keys);
    forall k ensures k in r <==> k in some {
      assert k in some <==> k in keys;
    }
    assert r.Keys == some.Keys;
    forall k | k in some ensures r[k] == some[k] {
    }
    assert r == some;
  }

  /** At most maxSize most recently used keys stay: the new one and all older ones but the last that does not fit. */
  lemma InsertKeepsMostRecent(c: Cache, key: int, value: int)
    requires Counted(c) && c.maxSize >= 1
    ensures Counted(Inserted(c, key, value))
    ensures key in c.values ==> Inserted(c, key, value) == c
    ensures key !in c.values ==>
              (var r, all := Inserted(c, key, value), [key] + c.keys;
               && r.keys == all[..if |all| <= c.maxSize then |all| else c.maxSize]
               && r.values == Restricted(c.values[key := value], r.keys))
  {
    var r := Inserted(c, key, value);
    if key !in c.values {
      if c.size == c.maxSize {
        var less := c.(keys := DropLast(c.keys), values := WithoutLast(c.keys, c.values));
        AgreesWithoutLast(c);
        AgreesWithFront(less, key, value);
        assert r.values == less.values[key := value];
      } else {
        AgreesWithFront(c, key, value);
      }
      RestrictedTo(c.values[key := value], r.keys, r.values);
    }
  }

  lemma AgreesWithoutLast(c: Cache)
    requires Agrees(c)
    ensures Agrees(c.(keys := DropLast(c.keys), values := WithoutLast(c.keys, c.values)))
  {
    if c.keys != [] {
      var n := |c.keys| - 1;
      assert forall k :: k in c.keys <==> k in c.keys[..n] || k == c.keys[n];
    }
  }

  lemma AgreesWithFront(c: Cache, key: int, value: int)
    requires Agrees(c) && key !in c.values
    ensures Agrees(c.(keys := [key] + c.keys, values := c.values[key := value]))
  {
    assert forall k :: k in [key] + c.keys <==> k == key || k in c.keys;
  }

  /** An overfull cache loses one element net with every insert of a new key. */
  lemma InsertShrinksOverfull(c: Cache, key: int, value: int)
    requires Agrees(c) && c.size == |c.keys| > c.maxSize >= 1 && key !in c.values
    ensures (var r := Inserted(c, key, value); Agrees(r) && r.size == |r.keys| == c.size - 1)
    ensures !Blocks(c, key)
  {
    AgreesWithoutLast(c);
    var less := c.(keys := DropLast(c.keys), values := WithoutLast(c.keys, c.values));
    AgreesWithFront(less, key, value);
    var more := less.(keys := [key] + less.keys, values := less.values[key := value]);
    assert more.values == WithoutLast(c.keys, c.values[key := value]);
    AgreesWithoutLast(more);
  }

  lemma MovedKeys(keys: seq<int>, key: int, i: nat)
    requires i < |keys| && keys[i] == key
    requires forall i, j | 0 <= i < j < |keys| :: keys[i] != keys[j]
    ensures Remove(keys, key) == keys[..i] + keys[i + 1..]
    ensures forall k :: k in Remove(keys, key) <==> k in keys && k != key
  {
    RemoveAt(keys, i);
    var r := Remove(keys, key);
    forall k ensures k in r <==> k in keys && k != key {
      if k in keys && k != key {
        var j :| 0 <= j < |keys| && keys[j] == k;
        assert r[if j < i then j else j - 1] == k;
      }
    }
  }

  lemma ToFrontAt(keys: seq<int>, key: int, i: nat, j: nat)
    requires i < |keys| && keys[i] == key && j < |keys|
    requires forall i, j | 0 <= i < j < |keys| :: keys[i] != keys[j]
    ensures |ToFront(keys, key)| == |keys|
    ensures ToFront(keys, key)[j] == keys[if j == 0 then i else if j <= i then j - 1 else j]
  {
    MovedKeys(keys, key, i);
  }

  /** find changes the order only. */
  lemma FoundAgrees(c: Cache, key: int)
    requires Agrees(c) && key in c.keys
    ensures |ToFront(c.keys, key)| == |c.keys| && Agrees(c.(keys := ToFront(c.keys, key)))
  {
    var i :| 0 <= i < |c.keys| && c.keys[i] == key;
    var r := ToFront(c.keys, key);
    ToFrontAt(c.keys, key, i, 0);
    forall k ensures k in c.values <==> k in r {
      MovedKeys(c.keys, key, i);
    }
    forall j, k | 0 <= j < k < |r| ensures r[j] != r[k] {
      ToFrontAt(c.keys, key, i, j);
      ToFrontAt(c.keys, key, i, k);
    }
  }

  datatype Call = CallInsert(key: int, value: int) | CallFind(key: int)

  function Called(c: Cache, call: Call): (r: Cache) {
    match call
    case CallInsert(key, value) => Inserted(c, key, value)
    case CallFind(key) => if key in c.keys then c.(keys := ToFront(c.keys, key)) else c
  }

  datatype History = Start(maxSize: nat) | Then(past: History, call: Call)

  function After(h: History): (c: Cache) {
    match h
    case Start(maxSize) => Cache(maxSize, 0, [], map[])
    case Then(past, call) => Called(After(past), call)
  }

  predicate HasInsert(h: History) {
    h.Then? && (h.call.CallInsert? || HasInsert(h.past))
  }

  function MaxSize(h: History): (m: nat) {
    match h
    case Start(maxSize) => maxSize
    case Then(past, _) => MaxSize(past)
  }

  /**
   After any calls, size() is the number of elements and at most maxSize, if maxSize is at least one.
   With maxSize 0 the cache holds one element as soon as anything was inserted, and says it holds none.
   */
  lemma {:induction false} SizeIsExact(h: History)
    ensures After(h).maxSize == MaxSize(h) && Agrees(After(h))
    ensures MaxSize(h) >= 1 ==> Counted(After(h))
    ensures MaxSize(h) == 0 ==> After(h).size == 0 && |After(h).keys| == if HasInsert(h) then 1 else 0
    ensures HasInsert(h) ==> (After(h).size == |After(h).keys| <==> MaxSize(h) >= 1)
    ensures forall key :: !Blocks(After(h), key)
  {
    match h
    case Start(_) =>
    case Then(past, call) =>
      SizeIsExact(past);
      var c := After(past);
      match call
      case CallInsert(key, value) =>
        if c.maxSize >= 1 {
          InsertKeepsMostRecent(c, key, value);
        } else if key !in c.values {
          assert DropLast(c.keys) == [];
          assert forall k :: k in c.values ==> k == c.keys[0];
        }
        assert HasInsert(h);
        assert c.maxSize >= 1 && key !in c.values ==> |After(h).keys| >= 1;
      case CallFind(key) =>
        if key in c.keys {
          FoundAgrees(c, key);
        }
  }

  class ListNode {
    const key: int
    var prev: ListNode?
    var next: ListNode?

    constructor (key: int, marker: ListNode?)
      ensures this.key == key && this.prev == marker && this.next == null
    {
      this.key, this.prev, this.next := key, marker, null;
    }
  }

  ghost function KeysOf(nodes: seq<ListNode>): (r: seq<int>)
    ensures |r| == |nodes| && forall i | 0 <= i < |r| :: r[i] == nodes[i].key
  {
    seq(|nodes|, i requires 0 <= i < |nodes| => nodes[i].key)
  }

  datatype HashMapValue = HashMapValue(value: int, listNode: ListNode)

  /**
   Each listed node is the list node of its key's element, and each element's list node is in the
   list, except that one may be on its way there.
   */
  ghost predicate Tracks(nodes: seq<ListNode>, table: map<int, HashMapValue>, pending: ListNode?) {
    && (forall i {:trigger NodeOk(nodes, table, i)} | 0 <= i < |nodes| :: NodeOk(nodes, table, i))
    && (forall k {:trigger ElementOk(nodes, table, pending, k)} | k in table :: ElementOk(nodes, table, pending, k))
  }

  ghost predicate NodeOk(nodes: seq<ListNode>, table: map<int, HashMapValue>, i: nat)
    requires i < |nodes|
  {
    nodes[i].key in table && table[nodes[i].key].listNode == nodes[i]
  }

  ghost predicate ElementOk(nodes: seq<ListNode>, table: map<int, HashMapValue>, pending: ListNode?, k: int)
    requires k in table
  {
    var node := table[k].listNode;
    (node in nodes || node == pending) && node.key == k
  }

  ghost predicate Distinct(nodes: seq<ListNode>) {
    forall i, j {:trigger Differ(nodes, i, j)} | 0 <= i < j < |nodes| :: Differ(nodes, i, j)
  }

  ghost predicate Differ(nodes: seq<ListNode>, i: nat, j: nat)
    requires i < |nodes| && j < |nodes|
  {
    nodes[i] != nodes[j]
  }

  function ValuesOf(table: map<int, HashMapValue>): (r: map<int, int>) {
    map k | k in table :: table[k].value
  }

  lemma DistinctWithout(nodes: seq<ListNode>, i: nat)
    requires Distinct(nodes) && i < |nodes|
    ensures Distinct(nodes[..i] + nodes[i + 1..]) && nodes[i] !in nodes[..i] + nodes[i + 1..]
  {
    var rest := nodes[..i] + nodes[i + 1..];
    forall j, k | 0 <= j < k < |rest| ensures Differ(rest, j, k) {
      assert Differ(nodes, if j < i then j else j + 1, if k < i then k else k + 1);
    }
    forall j | 0 <= j < |rest| ensures rest[j] != nodes[i] {
      assert if j < i then Differ(nodes, j, i) else Differ(nodes, i, j + 1);
    }
  }

  lemma LastIsFirst(nodes: seq<ListNode>)
    requires Distinct(nodes) && nodes != []
    ensures nodes[|nodes| - 1] == nodes[0] <==> |nodes| == 1
  {
    if |nodes| > 1 {
      assert Differ(nodes, 0, |nodes| - 1);
    }
  }

  lemma DistinctPushed(nodes: seq<ListNode>, node: ListNode)
    requires Distinct(nodes) && node !in nodes
    ensures Distinct([node] + nodes)
  {
    var more := [node] + nodes;
    forall j, k | 0 <= j < k < |more| ensures Differ(more, j, k) {
      if j > 0 {
        assert Differ(nodes, j - 1, k - 1);
      }
    }
  }

  lemma TracksPushed(nodes: seq<ListNode>, table: map<int, HashMapValue>, node: ListNode)
    requires Tracks(nodes, table, node) && node.key in table && table[node.key].listNode == node
    ensures Tracks([node] + nodes, table, null)
  {
    var more := [node] + nodes;
    forall i | 0 <= i < |more| ensures NodeOk(more, table, i) {
      if i > 0 {
        assert NodeOk(nodes, table, i - 1);
      }
    }
    forall k | k in table ensures ElementOk(more, table, null, k) {
      assert ElementOk(nodes, table, node, k);
    }
  }

  lemma TracksAdded(nodes: seq<ListNode>, table: map<int, HashMapValue>, node: ListNode, value: int)
    requires Tracks(nodes, table, null) && node.key !in table
    ensures Tracks(nodes, table[node.key := HashMapValue(value, node)], node)
    ensures ValuesOf(table[node.key := HashMapValue(value, node)]) == ValuesOf(table)[node.key := value]
  {
    var table' := table[node.key := HashMapValue(value, node)];
    forall i | 0 <= i < |nodes| ensures NodeOk(nodes, table', i) {
      assert NodeOk(nodes, table, i);
    }
    forall k | k in table' ensures ElementOk(nodes, table', node, k) {
      assert k != node.key ==> ElementOk(nodes, table, null, k);
    }
  }

  lemma TracksEvicted(nodes: seq<ListNode>, table: map<int, HashMapValue>, pending: ListNode?)
    requires Tracks(nodes, table, pending) && nodes != [] && pending !in nodes && Distinct(nodes)
    ensures (var last := nodes[|nodes| - 1];
             && last.key in table
             && Tracks(nodes[..|nodes| - 1], table - {last.key}, pending)
             && ValuesOf(table - {last.key}) == ValuesOf(table) - {last.key}
             && (pending != null && pending.key in table && table[pending.key].listNode == pending ==>
                   last.key != pending.key))
  {
    var n := |nodes| - 1;
    var table' := table - {nodes[n].key};
    assert NodeOk(nodes, table, n);
    forall i | 0 <= i < n ensures NodeOk(nodes[..n], table', i) {
      assert NodeOk(nodes, table, i) && Differ(nodes, i, n);
    }
    forall k | k in table' ensures ElementOk(nodes[..n], table', pending, k) {
      assert ElementOk(nodes, table, pending, k);
    }
  }

  /** A node of the list moves to the front. */
  lemma TracksMoved(nodes: seq<ListNode>, i: nat, table: map<int, HashMapValue>)
    requires Tracks(nodes, table, null) && i < |nodes|
    ensures Tracks([nodes[i]] + (nodes[..i] + nodes[i + 1..]), table, null)
  {
    var moved := [nodes[i]] + (nodes[..i] + nodes[i + 1..]);
    forall j | 0 <= j < |moved| ensures NodeOk(moved, table, j) {
      assert NodeOk(nodes, table, if j == 0 then i else if j <= i then j - 1 else j);
    }
    forall k | k in table ensures ElementOk(moved, table, null, k) {
      assert ElementOk(nodes, table, null, k);
      var j :| 0 <= j < |nodes| && nodes[j] == table[k].listNode;
      assert moved[if j < i then j + 1 else if j == i then 0 else j] == nodes[j];
    }
  }

  /** Where an element's node stands, the list has the element's key, and not before. */
  lemma TrackedAt(nodes: seq<ListNode>, table: map<int, HashMapValue>, key: int) returns (i: nat)
    requires Tracks(nodes, table, null) && Distinct(nodes) && key in table
    ensures i < |nodes| && nodes[i] == table[key].listNode
    ensures KeysOf(nodes)[i] == key && forall j | 0 <= j < i :: KeysOf(nodes)[j] != key
  {
    assert ElementOk(nodes, table, null, key);
    i :| 0 <= i < |nodes| && nodes[i] == table[key].listNode;
    forall j | 0 <= j < i ensures nodes[j].key != key {
      assert NodeOk(nodes, table, j) && Differ(nodes, j, i);
    }
  }

  class ConcurrentLRUCache {
    const maxSize: nat
    var size: nat
    var table: map<int, HashMapValue>
    const head: ListNode
    const tail: ListNode
    const outOfListMarker: ListNode
    ghost var nodes: seq<ListNode>  // the list between the sentinels

    /** The i-th node of the list, sentinels included. */
    ghost function At(i: nat): (n: ListNode)
      requires i < |nodes| + 2
      reads this`nodes
    {
      if i == 0 then head else if i <= |nodes| then nodes[i - 1] else tail
    }

    ghost predicate LinkOk(i: nat)
      requires i <= |nodes|
      reads this`nodes, nodes, head, tail
    {
      At(i).next == At(i + 1) && At(i + 1).prev == At(i)
    }

    ghost predicate ListOk()
      reads this`nodes, nodes, head, tail
    {
      && head != tail && head != outOfListMarker && tail != outOfListMarker
      && head !in nodes && tail !in nodes && outOfListMarker !in nodes
      && Distinct(nodes)
      && (forall i {:trigger LinkOk(i)} | 0 <= i <= |nodes| :: LinkOk(i))
    }

    ghost predicate Valid()
      reads this, nodes, head, tail
    {
      ListOk() && Tracks(nodes, table, null)
    }

    ghost function Keys(): (r: seq<int>)
      reads this`nodes
    {
      KeysOf(nodes)
    }

    function Values(): (r: map<int, int>)
      reads this`table
    {
      ValuesOf(table)
    }

    ghost function Model(): (c: Cache)
      reads this
    {
      Cache(maxSize, size, Keys(), Values())
    }

    lemma ModelAgrees()
      requires Valid()
      ensures Agrees(Model())
    {
      forall i, j | 0 <= i < j < |nodes| ensures nodes[i].key != nodes[j].key {
        assert Differ(nodes, i, j) && NodeOk(nodes, table, i) && NodeOk(nodes, table, j);
      }
      forall k ensures k in Values() <==> k in Keys() {
        if k in table {
          var i := TrackedAt(nodes, table, k);
          assert Keys()[i] == k;
        }
        if k in Keys() {
          var i :| 0 <= i < |nodes| && Keys()[i] == k;
          assert NodeOk(nodes, table, i);
        }
      }
    }

    constructor (maxSize: nat)
      ensures Valid() && fresh(head) && fresh(tail)
      ensures Model() == Cache(maxSize, 0, [], map[]) && nodes == []
    {
      this.maxSize, size, table, nodes := maxSize, 0, map[], [];
      head := new ListNode(0, null);
      tail := new ListNode(0, null);
      outOfListMarker := new ListNode(0, null);
      new;
      head.prev := null;
      head.next := tail;
      tail.prev := head;
      assert LinkOk(0);
    }

    method Delink(node: ListNode, ghost i: nat)
      requires ListOk() && i < |nodes| && nodes[i] == node
      modifies this`nodes, nodes, head, tail
      ensures ListOk() && nodes == old(nodes[..i] + nodes[i + 1..])
      ensures Keys() == old(Keys()[..i] + Keys()[i + 1..])
      ensures node.prev == outOfListMarker && node !in nodes
    {
      DistinctWithout(nodes, i);
      assert LinkOk(i) && LinkOk(i + 1);
      var prev, next := node.prev, node.next;
      prev.next := next;
      next.prev := prev;
      node.prev := outOfListMarker;
      nodes := nodes[..i] + nodes[i + 1..];
      forall j | 0 <= j <= |nodes| ensures LinkOk(j) {
        ghost var was := old(nodes);
        assert old(LinkOk(j)) && old(LinkOk(j + 1));
        assert 0 < j < i ==> Differ(was, j - 1, i - 1);
        assert 0 < i < j < |was| ==> Differ(was, i - 1, j);
        assert j < i < |was| - 1 ==> Differ(was, j, i + 1);
        assert i < j < |was| - 1 ==> Differ(was, i + 1, j + 1);
      }
    }

    method PushFront(node: ListNode)
      requires ListOk() && node !in nodes && node != head && node != tail && node != outOfListMarker
      modifies this`nodes, nodes, head, tail, node
      ensures ListOk() && nodes == [node] + old(nodes)
      ensures Keys() == [node.key] + old(Keys())
    {
      DistinctPushed(nodes, node);
      assert LinkOk(0);
      assert forall j | 0 < j < |nodes| :: Differ(nodes, 0, j);
      var oldRealHead := head.next;
      node.prev := head;
      node.next := oldRealHead;
      oldRealHead.prev := node;
      head.next := node;
      nodes := [node] + nodes;
      forall j | 0 <= j <= |nodes| ensures LinkOk(j) {
        if j > 1 {
          assert old(LinkOk(j - 1));
        }
      }
    }

    /**
     The list loses its last node and the table that node's element; an empty list stays as it is.  If
     the caller holds the lock of just that element, the lookup waits for ever.
     */
    method Evict(locked: ListNode, ghost pending: ListNode?) returns (blocked: bool)
      requires ListOk() && Tracks(nodes, table, pending) && pending !in nodes
      modifies this`nodes, this`table, nodes, head, tail
      ensures blocked == (old(nodes) != [] && old(nodes)[|old(nodes)| - 1] == locked)
      ensures nodes == DropLast(old(nodes)) && Keys() == DropLast(old(Keys()))
      ensures !blocked ==> ListOk() && Tracks(nodes, table, pending)
      ensures !blocked ==> Values() == WithoutLast(old(Keys()), old(Values()))
      ensures pending != null && pending.key in old(table) && old(table)[pending.key].listNode == pending ==>
                pending.key in table && table[pending.key].listNode == pending
    {
      blocked := false;
      assert LinkOk(|nodes|);
      var moribund := tail.prev;
      if moribund == head {
        return;
      }
      TracksEvicted(nodes, table, pending);
      Delink(moribund, |nodes| - 1);
      assert nodes == DropLast(old(nodes));
      if moribund == locked {
        return true;
      }
      if moribund.key !in table {
        assert false;
        return;
      }
      table := table - {moribund.key};
    }

    method Find(key: int) returns (result: Option<int>)
      requires Valid()
      modifies this`nodes, nodes, head, tail
      ensures Valid() && size == old(size) && table == old(table)
      ensures result == if key in old(Values()) then Some(old(Values())[key]) else None
      ensures key !in table ==> Keys() == old(Keys())
      ensures key in table ==> key in old(Keys()) && Keys() == ToFront(old(Keys()), key)
      ensures forall n | n in nodes :: n in old(nodes)
    {
      if key !in table {
        return None;
      }
      var node := table[key].listNode;
      ghost var i := TrackedAt(nodes, table, key);
      RemoveAt(Keys(), i);
      TracksMoved(nodes, i, table);
      assert LinkOk(i);
      assert i > 0 ==> LinkOk(i - 1);
      if node.prev != outOfListMarker {
        Delink(node, i);
        ghost var rest := nodes;
        assert forall n | n in rest :: n in old(nodes);
        PushFront(node);
      }
      result := Some(table[key].value);
    }

    /** The end of insert: an overfull cache gives up one more element, if m_size is still as it was seen. */
    method Trim(sizeSeen: nat, node: ListNode) returns (blocked: bool)
      requires Valid()
      modifies this`nodes, this`table, this`size, nodes, head, tail
      ensures blocked ==
        (sizeSeen == old(size) > maxSize && old(nodes) != [] && old(nodes)[|old(nodes)| - 1] == node)
      ensures nodes == old(nodes) || nodes == DropLast(old(nodes))
      ensures !blocked ==> Valid() && Model() == Trimmed(old(Model()), sizeSeen)
    {
      blocked := false;
      if sizeSeen > maxSize {
        if size == sizeSeen {
          size := sizeSeen - 1;
          blocked := Evict(node, null);
        }
      }
    }

    /** insert up to the end of its push: a full cache evicts before the new node goes to the front. */
    method Admit(node: ListNode, value: int) returns (sizeSeen: nat, evictionDone: bool)
      requires Valid() && node.key !in table
      requires node !in nodes && node != head && node != tail && node != outOfListMarker
      modifies this`nodes, this`table, nodes, head, tail, node
      ensures Valid() && nodes == [node] + if evictionDone then DropLast(old(nodes)) else old(nodes)
      ensures sizeSeen == size && evictionDone == (size >= maxSize)
      ensures Model() == Admitted(old(Model()), node.key, value)
    {
      TracksAdded(nodes, table, node, value);
      table := table[node.key := HashMapValue(value, node)];
      sizeSeen := size;
      evictionDone := false;
      if sizeSeen >= maxSize {
        var _ := Evict(node, node);
        evictionDone := true;
      }
      TracksPushed(nodes, table, node);
      PushFront(node);
    }

    lemma PushedFrom(before: seq<ListNode>, node: ListNode, pushed: seq<ListNode>, after: seq<ListNode>)
      requires pushed == [node] + before || pushed == [node] + DropLast(before)
      requires after == pushed || after == DropLast(pushed)
      ensures forall n | n in after :: n in before || n == node
    {
      forall n | n in after ensures n in before || n == node {
        assert n in pushed;
      }
    }

    /** insert of a key that is not in the map yet; the node is the caller's own. */
    method InsertNode(node: ListNode, value: int) returns (blocked: bool)
      requires Valid() && node.key !in table
      requires node !in nodes && node != head && node != tail && node != outOfListMarker
      modifies this`nodes, this`table, this`size, nodes, head, tail, node
      ensures blocked == old(Blocks(Model(), node.key))
      ensures !blocked ==> Valid() && Model() == Inserted(old(Model()), node.key, value)
      ensures forall n | n in nodes :: n in old(nodes) || n == node
    {
      ghost var before := nodes;
      var sizeSeen := Push(node, value);
      ghost var pushed := nodes;
      LastIsFirst(pushed);
      blocked := Trim(sizeSeen, node);
      PushedFrom(before, node, pushed, nodes);
    }

    /** insert up to the second eviction. */
    method Push(node: ListNode, value: int) returns (sizeSeen: nat)
      requires Valid() && node.key !in table
      requires node !in nodes && node != head && node != tail && node != outOfListMarker
      modifies this`nodes, this`table, this`size, nodes, head, tail, node
      ensures Valid() && nodes == [node] + if old(size) >= maxSize then DropLast(old(nodes)) else old(nodes)
      ensures sizeSeen == old(size) && size == if old(size) < maxSize then old(size) + 1 else old(size)
      ensures Model() == Admitted(old(Model()), node.key, value).(size := size)
    {
      var evictionDone;
      sizeSeen, evictionDone := Admit(node, value);
      if !evictionDone {
        sizeSeen := size;
        size := size + 1;
      }
    }

    method Insert(key: int, value: int) returns (inserted: bool, blocked: bool)
      requires Valid()
      modifies this`nodes, this`table, this`size, nodes, head, tail
      ensures blocked == old(Blocks(Model(), key))
      ensures !blocked ==> Valid() && inserted == (key !in old(table))
      ensures !blocked ==> Model() == Inserted(old(Model()), key, value)
      ensures forall n | n in nodes :: n in old(nodes) || fresh(n)
    {
      var node := new ListNode(key, outOfListMarker);
      if key in table {
        return false, false;
      }
      blocked := InsertNode(node, value);
      inserted := true;
    }

    method SnapshotKeys(keys: seq<int>) returns (r: seq<int>)
      requires Valid()
      ensures r == keys + Keys()
    {
      r := keys;
      assert LinkOk(0);
      var node := head.next;
      ghost var i := 0;
      while node != tail
        invariant 0 <= i <= |nodes| && node == At(i + 1)
        invariant r == keys + Keys()[..i]
        decreases |nodes| - i
      {
        r := r + [node.key];
        assert LinkOk(i + 1);
        node := node.next;
        i := i + 1;
      }
    }

    method Clear()
      requires Valid()
      modifies this, head, tail
      ensures Valid() && Model() == Cache(maxSize, 0, [], map[])
    {
      table := map[];
      assert LinkOk(0);
      var node := head.next;
      ghost var i := 0;
      while node != tail
        invariant 0 <= i <= |nodes| && node == At(i + 1)
        invariant ListOk() && table == map[] && unchanged(nodes)
        decreases |nodes| - i
      {
        assert LinkOk(i + 1);
        node := node.next;
        i := i + 1;
      }
      head.next := tail;
      tail.prev := head;
      size := 0;
      nodes := [];
      assert At(0) == head && At(1) == tail;
    }
  }

  /** Any calls, one after the other: the cache goes through the states of `After`, and no call waits for itself. */
  method Perform(h: History) returns (cache: ConcurrentLRUCache)
    ensures fresh(cache) && fresh(cache.head) && fresh(cache.tail) && forall n | n in cache.nodes :: fresh(n)
    ensures cache.Valid() && cache.Model() == After(h)
  {
    match h
    case Start(maxSize) => cache := new ConcurrentLRUCache(maxSize);
    case Then(past, call) =>
      cache := Perform(past);
      SizeIsExact(past);
      cache.ModelAgrees();
      assert forall i | 0 <= i < |cache.nodes| :: cache.nodes[i] in cache.nodes;
      match call
      case CallInsert(key, value) => var _, _ := cache.Insert(key, value);
      case CallFind(key) => var _ := cache.Find(key);
  }
}
