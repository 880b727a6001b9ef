/**
 tbb::concurrent_hash_map (src/intel/include/tbb/concurrent_hash_map.h): the operations on a table whose
 buckets are split lazily.  An operation may start with the mask of an earlier, smaller table.
 */
module HashMap {
  import opened Buckets

  const FIRST_BLOCK := 8  // segments allocated by the first growth, the embedded one included

  datatype Node = Node(key: int, value: int)

  /** node_list: the flag rehash_req, or the chain of nodes. */
  datatype Bucket = RehashReq | Chain(nodes: seq<Node>)

  datatype Option<T> = None | Some(value: T)

  /** Rehashed, except for the buckets of `pending`, which are marked and not yet filled. */
  predicate Ready(buckets: seq<Bucket>, pending: set<nat>, b: nat)
    requires b < |buckets|
  {
    buckets[b].Chain? && b !in pending
  }

  function Ok(buckets: seq<Bucket>, pending: set<nat>): (ok: seq<bool>)
    ensures |ok| == |buckets| && forall b | 0 <= b < |ok| :: ok[b] == Ready(buckets, pending, b)
  {
    seq(|buckets|, b requires 0 <= b < |buckets| => Ready(buckets, pending, b))
  }

  /** The first node with the key. */
  function Search(nodes: seq<Node>, key: int): (r: Option<Node>)
    ensures r.Some? ==> r.value in nodes && r.value.key == key
    ensures r.None? ==> forall n | n in nodes :: n.key != key
  {
    if nodes == [] then None
    else if nodes[0].key == key then Some(nodes[0])
    else Search(nodes[1..], key)
  }

  /** The nodes of bucket b are where a search with the current mask ends up, and are those of `contents`. */
  ghost predicate BucketOk(buckets: seq<Bucket>, ok: seq<bool>, level: nat, hash: int -> nat,
                           contents: map<int, int>, b: nat)
    requires Closed(ok, level) && |ok| == |buckets| && b < |buckets|
  {
    buckets[b].Chain? ==>
      var nodes := buckets[b].nodes;
      && (forall n | n in nodes :: Home(ok, hash(n.key), level) == b)
      && (forall n | n in nodes :: n.key in contents && contents[n.key] == n.value)
      && (forall i, j | 0 <= i < j < |nodes| :: nodes[i].key != nodes[j].key)
  }

  ghost predicate KeyOk(buckets: seq<Bucket>, ok: seq<bool>, level: nat, hash: int -> nat, contents: map<int, int>,
                        key: int)
    requires Closed(ok, level) && |ok| == |buckets| && key in contents
  {
    var b := Home(ok, hash(key), level);
    buckets[b].Chain? && Node(key, contents[key]) in buckets[b].nodes
  }

  ghost predicate Holds(buckets: seq<Bucket>, pending: set<nat>, level: nat, hash: int -> nat,
                        contents: map<int, int>)
  {
    var ok := Ok(buckets, pending);
    && Closed(ok, level)
    && (forall b {:trigger BucketOk(buckets, ok, level, hash, contents, b)} | 0 <= b < |buckets| ::
          BucketOk(buckets, ok, level, hash, contents, b))
    && (forall key {:trigger KeyOk(buckets, ok, level, hash, contents, key)} | key in contents ::
          KeyOk(buckets, ok, level, hash, contents, key))
    && (forall b | b in pending :: 2 <= b < |buckets| && buckets[b] == Chain([]))
  }

  // ---------- pure effects ----------

  /** Marking a bucket that waits for rehashing changes no home. */
  lemma MarkHolds(buckets: seq<Bucket>, pending: set<nat>, level: nat, hash: int -> nat, contents: map<int, int>,
                  h: nat)
    requires Holds(buckets, pending, level, hash, contents) && 2 <= h < |buckets| && buckets[h].RehashReq?
    ensures Holds(buckets[h := Chain([])], pending + {h}, level, hash, contents)
    ensures Ok(buckets[h := Chain([])], pending + {h}) == Ok(buckets, pending)
  {
    var ok, buckets' := Ok(buckets, pending), buckets[h := Chain([])];
    assert Ok(buckets', pending + {h}) == ok;
    forall b | 0 <= b < |buckets'| ensures BucketOk(buckets', ok, level, hash, contents, b) {
      assert BucketOk(buckets, ok, level, hash, contents, b);
    }
    forall key | key in contents ensures KeyOk(buckets', ok, level, hash, contents, key) {
      assert KeyOk(buckets, ok, level, hash, contents, key);
    }
  }

  /** Belongs to h rather than to h's parent. */
  predicate Moves(hash: int -> nat, h: nat, n: Node) {
    At(hash(n.key), Bits(h)) == h
  }

  function Kept(hash: int -> nat, h: nat, nodes: seq<Node>): (r: seq<Node>)
    ensures forall n :: n in r <==> n in nodes && !Moves(hash, h, n)
  {
    if nodes == [] then []
    else
      var rest := Kept(hash, h, nodes[..|nodes| - 1]);
      var last := nodes[|nodes| - 1];
      assert forall n :: n in nodes <==> n in nodes[..|nodes| - 1] || n == last;
      if Moves(hash, h, last) then rest else rest + [last]
  }

  /** Each node that moves goes to the front of the new bucket. */
  function Moved(hash: int -> nat, h: nat, nodes: seq<Node>): (r: seq<Node>)
    ensures forall n :: n in r <==> n in nodes && Moves(hash, h, n)
  {
    if nodes == [] then []
    else
      var rest := Moved(hash, h, nodes[..|nodes| - 1]);
      var last := nodes[|nodes| - 1];
      assert forall n :: n in nodes <==> n in nodes[..|nodes| - 1] || n == last;
      if Moves(hash, h, last) then [last] + rest else rest
  }

  predicate DistinctKeys(nodes: seq<Node>) {
    forall i, j | 0 <= i < j < |nodes| :: nodes[i].key != nodes[j].key
  }

  lemma {:induction false} SplitDistinct(hash: int -> nat, h: nat, nodes: seq<Node>)
    requires DistinctKeys(nodes)
    ensures DistinctKeys(Kept(hash, h, nodes)) && DistinctKeys(Moved(hash, h, nodes))
  {
    if nodes != [] {
      var front := nodes[..|nodes| - 1];
      SplitDistinct(hash, h, front);
      var last := nodes[|nodes| - 1];
      forall n | n in Kept(hash, h, front) || n in Moved(hash, h, front) ensures n.key != last.key {
        assert n in front;
      }
    }
  }

  function Filled(buckets: seq<Bucket>, hash: int -> nat, h: nat): (r: seq<Bucket>)
    requires 2 <= h < |buckets| && buckets[Parent(h)].Chain?
  {
    var nodes := buckets[Parent(h)].nodes;
    Both(buckets, h, Chain(Kept(hash, h, nodes)), Chain(Moved(hash, h, nodes)))
  }

  lemma FillBucket(buckets: seq<Bucket>, pending: set<nat>, level: nat, hash: int -> nat, contents: map<int, int>,
                   h: nat, b: nat)
    requires Holds(buckets, pending, level, hash, contents) && h in pending && b < |buckets|
    requires h >= 2 && Ready(buckets, pending, Parent(h))
    requires Closed(Ok(buckets, pending)[h := true], level)
    ensures BucketOk(Filled(buckets, hash, h), Ok(buckets, pending)[h := true], level, hash, contents, b)
  {
    var nodes := buckets[Parent(h)].nodes;
    var buckets' := Filled(buckets, hash, h);
    var ok := Ok(buckets, pending);
    assert BucketOk(buckets, ok, level, hash, contents, b) && BucketOk(buckets, ok, level, hash, contents, Parent(h));
    SplitDistinct(hash, h, nodes);
    if buckets'[b].Chain? {
      forall n | n in buckets'[b].nodes ensures Home(ok[h := true], hash(n.key), level) == b {
        RehashMovesHomes(ok, level, h, hash(n.key));
      }
    }
  }

  lemma FillKey(buckets: seq<Bucket>, pending: set<nat>, level: nat, hash: int -> nat, contents: map<int, int>,
                h: nat, key: int)
    requires Holds(buckets, pending, level, hash, contents) && h in pending && key in contents
    requires h >= 2 && Ready(buckets, pending, Parent(h))
    requires Closed(Ok(buckets, pending)[h := true], level)
    ensures KeyOk(Filled(buckets, hash, h), Ok(buckets, pending)[h := true], level, hash, contents, key)
  {
    assert KeyOk(buckets, Ok(buckets, pending), level, hash, contents, key);
    RehashMovesHomes(Ok(buckets, pending), level, h, hash(key));
  }

  /** Filling a marked bucket from its rehashed parent keeps every node, now in its new home. */
  lemma FillHolds(buckets: seq<Bucket>, pending: set<nat>, level: nat, hash: int -> nat, contents: map<int, int>,
                  h: nat)
    requires Holds(buckets, pending, level, hash, contents) && h in pending
    requires h >= 2 && Ready(buckets, pending, Parent(h))
    ensures Holds(Filled(buckets, hash, h), pending - {h}, level, hash, contents)
  {
    var buckets' := Filled(buckets, hash, h);
    var ok, ok' := Ok(buckets, pending), Ok(buckets', pending - {h});
    assert ok' == ok[h := true];
    RehashMovesHomes(ok, level, h, 0);
    forall b | 0 <= b < |buckets'| ensures BucketOk(buckets', ok', level, hash, contents, b) {
      FillBucket(buckets, pending, level, hash, contents, h, b);
    }
    forall key | key in contents ensures KeyOk(buckets', ok', level, hash, contents, key) {
      FillKey(buckets, pending, level, hash, contents, h, key);
    }
  }

  function Enlarged(buckets: seq<Bucket>, newLevel: nat): (r: seq<Bucket>)
    requires |buckets| <= Pow2(newLevel)
    ensures |r| == Pow2(newLevel)
    ensures forall b | 0 <= b < |r| :: r[b] == if b < |buckets| then buckets[b] else RehashReq
  {
    seq(Pow2(newLevel), b requires 0 <= b < Pow2(newLevel) => if b < |buckets| then buckets[b] else RehashReq)
  }

  lemma GrowHolds(buckets: seq<Bucket>, pending: set<nat>, level: nat, newLevel: nat, hash: int -> nat,
                  contents: map<int, int>)
    requires Holds(buckets, pending, level, hash, contents) && level <= newLevel
    ensures |buckets| <= Pow2(newLevel) && Holds(Enlarged(buckets, newLevel), pending, newLevel, hash, contents)
  {
    var ok := Ok(buckets, pending);
    GrownIsClosed(ok, level, newLevel);
    var buckets' := Enlarged(buckets, newLevel);
    var ok' := Ok(buckets', pending);
    assert ok' == Grown(ok, newLevel);
    forall b | 0 <= b < |buckets'| ensures BucketOk(buckets', ok', newLevel, hash, contents, b) {
      if b < |buckets| && buckets[b].Chain? {
        assert BucketOk(buckets, ok, level, hash, contents, b);
        forall n | n in buckets'[b].nodes ensures Home(ok', hash(n.key), newLevel) == b {
          GrowKeepsHomes(ok, level, newLevel, hash(n.key));
        }
      }
    }
    forall key | key in contents ensures KeyOk(buckets', ok', newLevel, hash, contents, key) {
      assert KeyOk(buckets, ok, level, hash, contents, key);
      GrowKeepsHomes(ok, level, newLevel, hash(key));
    }
  }

  lemma AddHolds(buckets: seq<Bucket>, pending: set<nat>, level: nat, hash: int -> nat, contents: map<int, int>,
                 b: nat, n: Node)
    requires Holds(buckets, pending, level, hash, contents) && n.key !in contents
    requires b == Home(Ok(buckets, pending), hash(n.key), level) && b < |buckets| && Ready(buckets, pending, b)
    ensures Holds(buckets[b := Chain([n] + buckets[b].nodes)], pending, level, hash, contents[n.key := n.value])
  {
    var ok := Ok(buckets, pending);
    var nodes := buckets[b].nodes;
    var buckets', contents' := buckets[b := Chain([n] + nodes)], contents[n.key := n.value];
    assert Ok(buckets', pending) == ok;
    assert forall m :: m in [n] + nodes <==> m == n || m in nodes;
    forall c | 0 <= c < |buckets'| ensures BucketOk(buckets', ok, level, hash, contents', c) {
      assert BucketOk(buckets, ok, level, hash, contents, c);
      if c == b {
        forall j | 0 <= j < |nodes| ensures nodes[j].key != n.key {
          assert nodes[j] in nodes;
        }
      }
    }
    forall key | key in contents' ensures KeyOk(buckets', ok, level, hash, contents', key) {
      assert key != n.key ==> KeyOk(buckets, ok, level, hash, contents, key);
      assert n in [n] + nodes;
    }
  }

  lemma RestOfNodes(nodes: seq<Node>, i: nat)
    requires DistinctKeys(nodes) && i < |nodes|
    ensures DistinctKeys(nodes[..i] + nodes[i + 1..])
    ensures forall m :: m in nodes[..i] + nodes[i + 1..] <==> m in nodes && m.key != nodes[i].key
  {
    var rest := nodes[..i] + nodes[i + 1..];
    assert forall j | 0 <= j < |rest| :: rest[j] == nodes[if j < i then j else j + 1];
    forall m | m in nodes && m.key != nodes[i].key ensures m in rest {
      var j :| 0 <= j < |nodes| && nodes[j] == m;
      assert rest[if j < i then j else j - 1] == m;
    }
    forall m | m in rest ensures m in nodes && m.key != nodes[i].key {
      var j :| 0 <= j < |rest| && rest[j] == m;
      assert m == nodes[if j < i then j else j + 1];
    }
  }

  lemma RemoveHolds(buckets: seq<Bucket>, pending: set<nat>, level: nat, hash: int -> nat, contents: map<int, int>,
                    b: nat, i: nat)
    requires Holds(buckets, pending, level, hash, contents)
    requires b < |buckets| && buckets[b].Chain? && i < |buckets[b].nodes|
    ensures (var nodes := buckets[b].nodes;
             && nodes[i].key in contents
             && Holds(buckets[b := Chain(nodes[..i] + nodes[i + 1..])], pending, level, hash,
                      contents - {nodes[i].key}))
  {
    var ok := Ok(buckets, pending);
    var nodes := buckets[b].nodes;
    var n, rest := nodes[i], nodes[..i] + nodes[i + 1..];
    assert n in nodes;
    assert BucketOk(buckets, ok, level, hash, contents, b);
    RestOfNodes(nodes, i);
    var buckets', contents' := buckets[b := Chain(rest)], contents - {n.key};
    assert Ok(buckets', pending) == ok;
    forall c | 0 <= c < |buckets'| ensures BucketOk(buckets', ok, level, hash, contents', c) {
      assert BucketOk(buckets, ok, level, hash, contents, c);
      if c != b && buckets[c].Chain? {
        forall m | m in buckets[c].nodes ensures m.key != n.key {
          assert Home(ok, hash(m.key), level) == c;
        }
      }
    }
    forall key | key in contents' ensures KeyOk(buckets', ok, level, hash, contents', key) {
      assert KeyOk(buckets, ok, level, hash, contents, key);
    }
  }

  /** A key that a search under an old mask finds has its value; if no split bucket is rehashed, a miss is final. */
  lemma SearchIsLookup(buckets: seq<Bucket>, pending: set<nat>, level: nat, hash: int -> nat,
                       contents: map<int, int>, key: int, i: nat)
    requires Holds(buckets, pending, level, hash, contents) && 1 <= i <= level
    requires Pow2(i) <= |buckets| && Ready(buckets, pending, At(hash(key), i))
    ensures (var found := Search(buckets[At(hash(key), i)].nodes, key);
             var r := SplitLevel(hash(key), i, i + 1, level);
             && (found.Some? ==> key in contents && contents[key] == found.value.value)
             && (found.None? && key in contents ==> r != 0 && Pow2(r) <= |buckets| && buckets[At(hash(key), r)].Chain?)
             && (r == 0 || (Pow2(r) <= |buckets| && buckets[At(hash(key), r)].RehashReq?) ==>
                   Home(Ok(buckets, pending), hash(key), level) == At(hash(key), i)))
  {
    var ok := Ok(buckets, pending);
    var b := At(hash(key), i);
    MovedThroughSplit(ok, level, hash(key), i);
    assert BucketOk(buckets, ok, level, hash, contents, b);
    if key in contents {
      assert KeyOk(buckets, ok, level, hash, contents, key);
    }
  }

  /** The next mask after mOld under which h has another bucket. */
  method NextMask(h: nat, mOld: nat, ghost i: nat, ghost level: nat) returns (full: nat)
    requires mOld + 1 == Pow2(i) && i <= level && At(h, i) != At(h, level)
    ensures (var r := SplitLevel(h, i, i + 1, level); i < r <= level && full + 1 == Pow2(r))
  {
    var bit := mOld + 1;
    ghost var k := i;
    BitIsZero(h, k);
    while h / bit % 2 == 0
      invariant i <= k < level && bit == Pow2(k)
      invariant forall l | i <= l <= k :: At(h, l) == At(h, i)
      invariant h / bit % 2 == 0 <==> At(h, k + 1) == At(h, k)
      decreases level - k
    {
      bit := 2 * bit;
      k := k + 1;
      BitIsZero(h, k);
    }
    SplitIs(h, i, i + 1, k + 1, level);
    full := 2 * bit - 1;
  }

  /**
   The topmost bit of a bucket number.  The program shifts a 32-bit 1 to it, which it may do if and only
   if the count stays below 32, that is, for bucket numbers below 2^32; here the shift is unbounded.
   */
  method TopBit(h: nat) returns (top: nat, ghost count: nat)
    requires h >= 2
    ensures 2 * top == Pow2(Bits(h)) && h % top == Parent(h)
    ensures top == Pow2(count) && count + 1 == Bits(h) && (count < 32 <==> h < 0x1_0000_0000)
  {
    top, count := 1, 0;
    while 2 * top <= h
      invariant top == Pow2(count) <= h
      decreases h - top
    {
      top := 2 * top;
      count := count + 1;
    }
    BitsIs(h, count + 1);
    DivModUnique(h, top, 1, h - top);
    ShiftFits(h, count);
  }

  lemma ShiftFits(h: nat, count: nat)
    requires Pow2(count) <= h < Pow2(count + 1)
    ensures count < 32 <==> h < 0x1_0000_0000
  {
    PowerOf32();
    if count < 31 {
      Pow2Grows(count + 1, 32);
    } else if count > 32 {
      Pow2Grows(32, count);
    }
  }

  lemma PowerOf32()
    ensures Pow2(32) == 0x1_0000_0000
  {
    SquareOfPower(4, 16);
    SquareOfPower(8, 256);
    SquareOfPower(16, 0x1_0000);
  }

  lemma SquareOfPower(n: nat, v: nat)
    requires Pow2(n) == v
    ensures Pow2(n + n) == v * v
  {
    Pow2Sum(n, n);
  }

  lemma SplitStep(hash: int -> nat, h: nat, nodes: seq<Node>, i: nat)
    requires i < |nodes|
    ensures (var kept, moved, n := Kept(hash, h, nodes[..i]), Moved(hash, h, nodes[..i]), nodes[i];
             && Kept(hash, h, nodes[..i + 1]) == (if Moves(hash, h, n) then kept else kept + [n])
             && Moved(hash, h, nodes[..i + 1]) == (if Moves(hash, h, n) then [n] + moved else moved))
  {
    var front := nodes[..i + 1];
    assert front[..|front| - 1] == nodes[..i] && front[i] == nodes[i];
  }

  lemma RestStep(kept: seq<Node>, nodes: seq<Node>, i: nat)
    requires i < |nodes|
    ensures (var list := kept + nodes[i..];
             && |kept| < |list| && list[|kept|] == nodes[i]
             && list[..|kept|] + list[|kept| + 1..] == kept + nodes[i + 1..]
             && list == (kept + [nodes[i]]) + nodes[i + 1..])
  {
    assert nodes[i..] == [nodes[i]] + nodes[i + 1..];
  }

  /** What a search of bucket b under an old mask and the check for a mask race tell together. */
  lemma SearchOutcome(buckets: seq<Bucket>, pending: set<nat>, level: nat, hash: int -> nat, contents: map<int, int>,
                      key: int, i: nat,
                      b: nat, found: Option<Node>, collision: bool)
    requires Holds(buckets, pending, level, hash, contents) && 1 <= i <= level && Pow2(i) <= |buckets|
    requires b == At(hash(key), i) && Ready(buckets, pending, b) && found == Search(buckets[b].nodes, key)
    requires var r := SplitLevel(hash(key), i, i + 1, level);
             collision <==> r != 0 && Pow2(r) <= |buckets| && buckets[At(hash(key), r)].Chain?
    ensures found.Some? ==> key in contents && found.value == Node(key, contents[key])
    ensures found.None? && !collision ==> key !in contents && b == Home(Ok(buckets, pending), hash(key), level)
  {
    SearchIsLookup(buckets, pending, level, hash, contents, key, i);
    var r := SplitLevel(hash(key), i, i + 1, level);
    if r != 0 {
      Pow2Grows(r, level);
    }
  }

  /** Bucket h became ready, no bucket stopped being ready, and those beyond h are untouched. */
  ghost predicate Advanced(was: seq<Bucket>, now: seq<Bucket>, pending: set<nat>, h: nat)
  {
    && h < |was| == |now| && Ready(now, pending, h)
    && (forall b {:trigger now[b]} | 0 <= b < |was| ::
          (Ready(was, pending, b) ==> Ready(now, pending, b)) && (b > h ==> now[b] == was[b]))
  }

  lemma FillAdvances(was: seq<Bucket>, now: seq<Bucket>, pending: set<nat>, hash: int -> nat, h: nat)
    requires 2 <= h < |was| && was[h].RehashReq? && h !in pending
    requires Advanced(was[h := Chain([])], now, pending + {h}, Parent(h))
    ensures Advanced(was, Filled(now, hash, h), pending, h)
  {
    var filled := Filled(now, hash, h);
    forall b | 0 <= b < |was|
      ensures Ready(was, pending, b) ==> Ready(filled, pending, b)
      ensures b > h ==> filled[b] == was[b]
    {
      assert b != h ==> Ready(was[h := Chain([])], pending + {h}, b) == Ready(was, pending, b);
      assert Ready(was[h := Chain([])], pending + {h}, b) ==> now[b].Chain?;
    }
  }

  /** The buckets with new chains for h's parent and for h. */
  function Both(buckets: seq<Bucket>, h: nat, parent: Bucket, own: Bucket): (r: seq<Bucket>)
    requires 2 <= h < |buckets|
    ensures |r| == |buckets| && r[Parent(h)] == parent && r[h] == own
  {
    buckets[Parent(h) := parent][h := own]
  }

  lemma BothTwice(buckets: seq<Bucket>, h: nat, a: Bucket, b: Bucket, c: Bucket, d: Bucket)
    requires 2 <= h < |buckets|
    ensures Both(Both(buckets, h, a, b), h, c, d) == Both(buckets, h, c, d)
  {
  }

  /** The first i nodes of the parent have been looked at, and `at` of them stay. */
  ghost predicate Moving(was: seq<Bucket>, now: seq<Bucket>, hash: int -> nat, h: nat, i: nat, at: nat)
    requires 2 <= h < |was| && was[Parent(h)].Chain?
  {
    var nodes := was[Parent(h)].nodes;
    && i <= |nodes| && at == |Kept(hash, h, nodes[..i])|
    && now == Both(was, h, Chain(Kept(hash, h, nodes[..i]) + nodes[i..]), Chain(Moved(hash, h, nodes[..i])))
  }

  lemma MovingStart(was: seq<Bucket>, hash: int -> nat, h: nat)
    requires 2 <= h < |was| && was[Parent(h)].Chain? && was[h] == Chain([])
    ensures Moving(was, was, hash, h, 0, 0)
  {
    var nodes := was[Parent(h)].nodes;
    assert Kept(hash, h, nodes[..0]) + nodes[0..] == nodes;
    assert was[Parent(h) := Chain(nodes)] == was;
  }

  lemma MovingStep(was: seq<Bucket>, now: seq<Bucket>, hash: int -> nat, h: nat, i: nat, at: nat)
    requires 2 <= h < |was| && was[Parent(h)].Chain? && Moving(was, now, hash, h, i, at)
    requires at < |now[Parent(h)].nodes|
    ensures i < |was[Parent(h)].nodes| && now[h].Chain?
    ensures (var list := now[Parent(h)].nodes;
             var n := list[at];
             if Moves(hash, h, n) then
               Moving(was, Both(now, h, Chain(list[..at] + list[at + 1..]), Chain([n] + now[h].nodes)),
                      hash, h, i + 1, at)
             else Moving(was, now, hash, h, i + 1, at + 1))
  {
    var p, nodes := Parent(h), was[Parent(h)].nodes;
    assert nodes[i..] != [];
    var kept, moved, n := Kept(hash, h, nodes[..i]), Moved(hash, h, nodes[..i]), nodes[i];
    SplitStep(hash, h, nodes, i);
    RestStep(kept, nodes, i);
    if Moves(hash, h, n) {
      BothTwice(was, h, Chain(kept + nodes[i..]), Chain(moved), Chain(kept + nodes[i + 1..]), Chain([n] + moved));
    }
  }

  lemma MovingDone(was: seq<Bucket>, now: seq<Bucket>, hash: int -> nat, h: nat, i: nat, at: nat)
    requires 2 <= h < |was| && was[Parent(h)].Chain? && Moving(was, now, hash, h, i, at)
    requires at >= |now[Parent(h)].nodes|
    ensures now == Filled(was, hash, h)
  {
    var nodes := was[Parent(h)].nodes;
    assert now[Parent(h)].nodes == Kept(hash, h, nodes[..i]) + nodes[i..];
    assert nodes[..i] == nodes;
    assert Kept(hash, h, nodes) + nodes[i..] == Kept(hash, h, nodes);
  }

  /** The number of mask bits once segment k is enabled: the first growth allocates the whole first block. */
  function LevelWith(k: nat): (level: nat) {
    if k >= FIRST_BLOCK then k + 1 else FIRST_BLOCK
  }

  lemma LevelWithFacts(k: nat)
    requires k == 1 || k >= FIRST_BLOCK
    ensures LevelWith(k) > k && Pow2(LevelWith(k)) == if k >= FIRST_BLOCK then 2 * Pow2(k) else 256
    ensures Pow2(LevelWith(k)) > Pow2(k)
  {
    if k == 1 {
      assert Pow2(4) == 16;
      Pow2Sum(4, 4);
      assert Pow2(1) == 2;
    }
  }

  class ConcurrentHashMap {
    const hash: int -> nat
    var mask: nat            // my_mask
    var buckets: seq<Bucket>
    var size: nat            // my_size
    var segments: nat        // the entries of my_table that are set: those below this number
    ghost var level: nat     // mask == 2^level - 1
    ghost var contents: map<int, int>

    ghost predicate Base(pending: set<nat>)
      reads this
    {
      && Holds(buckets, pending, level, hash, contents)
      && mask + 1 == Pow2(level) && segments == level && (level == 1 || level >= FIRST_BLOCK)
      && size == |contents| < mask
    }

    ghost predicate Valid()
      reads this
    {
      Base({})
    }

    constructor (hash: int -> nat)
      ensures Valid() && contents == map[] && this.hash == hash && mask == 1
    {
      this.hash, mask, size, segments, level, contents := hash, 1, 0, 1, 1, map[];
      buckets := [Chain([]), Chain([])];
      assert Pow2(1) == 2;
    }

    /** check_mask_race: whether the bucket that splits off the one under mask m may have got the nodes of h. */
    method CheckMaskRace(h: nat, m: nat, ghost i: nat) returns (collision: bool, mNow: nat)
      requires Valid() && 1 <= i <= level && m + 1 == Pow2(i)
      ensures mNow == mask && (collision ==> m != mNow)
      ensures (var r := SplitLevel(h, i, i + 1, level);
               collision <==> r != 0 && Pow2(r) <= |buckets| && buckets[At(h, r)].Chain?)
    {
      mNow := mask;
      if m != mNow {
        collision := CheckRehashingCollision(h, m, mNow, i);
      } else {
        collision := false;
        if i < level {
          Pow2Grows(i, level);
        }
      }
    }

    method CheckRehashingCollision(h: nat, mOld: nat, m: nat, ghost i: nat) returns (collision: bool)
      requires Valid() && 1 <= i <= level && mOld + 1 == Pow2(i) && m == mask
      ensures (var r := SplitLevel(h, i, i + 1, level);
               collision <==> r != 0 && Pow2(r) <= |buckets| && buckets[At(h, r)].Chain?)
    {
      if h % (mOld + 1) != h % (m + 1) {
        var full := NextMask(h, mOld, i, level);
        Pow2Grows(SplitLevel(h, i, i + 1, level), level);
        collision := buckets[h % (full + 1)] != RehashReq;
      } else {
        forall l | i + 1 <= l <= level ensures At(h, l) == At(h, i) {
          SameBetween(h, i, l, level);
        }
        NoSplit(h, i, i + 1, level);
        collision := false;
      }
    }

    /** Bucket h is rehashed, if need be with its ancestors; nothing is lost. */
    method Acquire(h: nat, ghost pending: set<nat>)
      requires Base(pending) && h < |buckets| && forall b | b in pending :: h < b
      modifies this`buckets
      ensures Base(pending) && Advanced(old(buckets), buckets, pending, h)
      decreases h, 1
    {
      if buckets[h] == RehashReq {
        var _ := RehashBucket(h, pending);
      }
    }

    /**
     Its nodes come from the parent, the bucket of the number without the topmost bit.  The program shifts
     a 32-bit 1 to that bit: the count fits if and only if the number is below 2^32, as then are its ancestors'.
     */
    method RehashBucket(h: nat, ghost pending: set<nat>) returns (ghost shift: nat)
      requires Base(pending) && 2 <= h < |buckets| && buckets[h] == RehashReq && forall b | b in pending :: h < b
      modifies this`buckets
      ensures Base(pending) && Advanced(old(buckets), buckets, pending, h)
      ensures shift + 1 == Bits(h) && (shift < 32 <==> h < 0x1_0000_0000)
      decreases h, 0
    {
      MarkHolds(buckets, pending, level, hash, contents, h);
      buckets := buckets[h := Chain([])];
      var top, count := TopBit(h);
      shift := count;
      var p := h % top;
      ghost var busy := pending + {h};
      Acquire(p, busy);
      FillHolds(buckets, busy, level, hash, contents, h);
      FillAdvances(old(buckets), buckets, pending, hash, h);
      MoveNodes(h, p, 2 * top - 1);
      assert busy - {h} == pending;
    }

    /** The loop of rehash_bucket: each node of p whose hash ends in h moves to the front of bucket h. */
    method MoveNodes(h: nat, p: nat, m: nat)
      requires 2 <= h < |buckets| && p == Parent(h) && buckets[p].Chain? && buckets[h] == Chain([])
      requires m + 1 == Pow2(Bits(h))
      modifies this`buckets
      ensures buckets == Filled(old(buckets), hash, h)
    {
      ghost var was := buckets;
      ghost var i := 0;
      var at := 0;
      MovingStart(buckets, hash, h);
      while at < |buckets[p].nodes|
        invariant |buckets| == |was| && buckets[p].Chain? && buckets[h].Chain?
        invariant Moving(was, buckets, hash, h, i, at)
        decreases |was[p].nodes| - i
      {
        var list := buckets[p].nodes;
        MovingStep(was, buckets, hash, h, i, at);
        var n := list[at];
        if hash(n.key) % (m + 1) == h {
          buckets := buckets[p := Chain(list[..at] + list[at + 1..])];
          buckets := buckets[h := Chain([n] + buckets[h].nodes)];
        } else {
          at := at + 1;
        }
        i := i + 1;
      }
      MovingDone(was, buckets, hash, h, i, at);
    }

    /** The position of the key's node in bucket b, or the length of the chain. */
    method SearchBucket(key: int, b: nat) returns (at: nat)
      requires b < |buckets| && buckets[b].Chain?
      ensures at <= |buckets[b].nodes| && forall j | 0 <= j < at :: buckets[b].nodes[j].key != key
      ensures at < |buckets[b].nodes| ==> buckets[b].nodes[at].key == key
      ensures Search(buckets[b].nodes, key)
              == if at < |buckets[b].nodes| then Some(buckets[b].nodes[at]) else None
    {
      at := 0;
      var nodes := buckets[b].nodes;
      while at < |nodes| && nodes[at].key != key
        invariant at <= |nodes| && forall j | 0 <= j < at :: nodes[j].key != key
        invariant Search(nodes, key) == Search(nodes[at..], key)
      {
        at := at + 1;
      }
    }

    /** add_to_bucket and the load check; the segment to enable, or 0. */
    method InsertNewNode(b: nat, n: Node, m: nat, ghost i: nat) returns (newSegment: nat)
      requires Valid() && n.key !in contents && 1 <= i <= level && m + 1 == Pow2(i)
      requires b < |buckets| && buckets[b].Chain? && b == Home(Ok(buckets, {}), hash(n.key), level)
      modifies this`buckets, this`size, this`contents
      ensures Holds(buckets, {}, level, hash, contents) && contents == old(contents)[n.key := n.value]
      ensures size == old(size) + 1 == |contents|
      ensures newSegment == if m == mask && size >= mask then level else 0
    {
      AddHolds(buckets, {}, level, hash, contents, b, n);
      size := size + 1;
      buckets := buckets[b := Chain([n] + buckets[b].nodes)];
      contents := contents[n.key := n.value];
      newSegment := CheckLoad(size, m, i);
    }

    static method Log2OfMask(m: nat, ghost i: nat) returns (log: nat)
      requires m + 1 == Pow2(i)
      ensures log == i
    {
      BitsIs(m + 1, i + 1);
      log := Bits(m + 1) - 1;
    }

    /** The segment to allocate if the table of mask m is full, unless it is already there. */
    method CheckLoad(sz: nat, m: nat, ghost i: nat) returns (newSegment: nat)
      requires 1 <= i <= level && m + 1 == Pow2(i) && mask + 1 == Pow2(level) && segments == level
      ensures newSegment == if m == mask && sz >= mask then level else 0
    {
      newSegment := 0;
      if i < level {
        Pow2Grows(i, level);
      }
      if sz >= m {
        var segment := Log2OfMask(m, i);
        if segment >= segments {
          newSegment := segment;
        }
      }
    }

    method EnableSegment(k: nat)
      requires k == level && Holds(buckets, {}, level, hash, contents) && segments == level && mask + 1 == Pow2(level)
      requires (level == 1 || level >= FIRST_BLOCK) && size == |contents| == mask
      modifies this`mask, this`segments, this`buckets, this`level
      ensures Valid() && mask == if k >= FIRST_BLOCK then 2 * old(mask) + 1 else 255
    {
      LevelWithFacts(k);
      GrowHolds(buckets, {}, k, LevelWith(k), hash, contents);
      var sz := Pow2(LevelWith(k));
      buckets := Enlarged(buckets, LevelWith(k));
      segments := LevelWith(k);
      level := LevelWith(k);
      mask := sz - 1;
    }

    /**
     One round of lookup and of erase: acquire the bucket under mask m, search it, and after a miss
     check for a race with the growth of the table.
     */
    method SearchOnce(key: int, m: nat, ghost i: nat) returns (b: nat, at: nat, collision: bool, mNow: nat)
      requires Valid() && 1 <= i <= level && m + 1 == Pow2(i)
      modifies this`buckets
      ensures Valid() && b < |buckets| && buckets[b].Chain? && at <= |buckets[b].nodes|
      ensures at < |buckets[b].nodes| ==> key in contents && buckets[b].nodes[at] == Node(key, contents[key])
      ensures at == |buckets[b].nodes| && !collision ==>
                key !in contents && b == Home(Ok(buckets, {}), hash(key), level)
      ensures at == |buckets[b].nodes| ==> mNow == mask
      ensures collision ==> m != mask && at == |buckets[b].nodes|
    {
      var h := hash(key);
      Pow2Grows(i, level);
      b := h % (m + 1);
      assert b == At(h, i);
      Acquire(b, {});
      at := SearchBucket(key, b);
      if at < |buckets[b].nodes| {
        SearchIsLookup(buckets, {}, level, hash, contents, key, i);
        return b, at, false, m;
      }
      collision, mNow := CheckMaskRace(h, m, i);
      SearchOutcome(buckets, {}, level, hash, contents, key, i, b, Search(buckets[b].nodes, key), collision);
    }

    /**
     lookup() for insert (opInsert) and for find, begun with the mask m0 of an earlier table.  The
     answer is that of the current contents.
     */
    method Lookup(opInsert: bool, key: int, value: int, m0: nat, ghost i0: nat) returns (r: bool, found: Option<int>)
      requires Valid() && 1 <= i0 <= level && m0 + 1 == Pow2(i0)
      modifies this`buckets, this`size, this`contents, this`mask, this`segments, this`level
      ensures Valid()
      ensures r == if opInsert then key !in old(contents) else key in old(contents)
      ensures contents == if opInsert && key !in old(contents) then old(contents)[key := value] else old(contents)
      ensures found == if key in contents then Some(contents[key]) else None
    {
      var m, home := m0, 0;
      ghost var i := i0;
      while true
        invariant Valid() && contents == old(contents) && 1 <= i <= level && m + 1 == Pow2(i)
        modifies this`buckets
        decreases m != mask
      {
        var b, at, collision, mNow := SearchOnce(key, m, i);
        if at < |buckets[b].nodes| {
          return !opInsert, Some(buckets[b].nodes[at].value);
        }
        m, i := mNow, level;
        if !collision {
          if !opInsert {
            return false, None;
          }
          home := b;
          break;
        }
      }
      var segment := InsertNewNode(home, Node(key, value), m, level);
      if segment != 0 {
        EnableSegment(segment);
      }
      return true, Some(value);
    }

    /** erase() begun with the mask of an earlier table. */
    method EraseKey(key: int, m0: nat, ghost i0: nat) returns (r: bool)
      requires Valid() && 1 <= i0 <= level && m0 + 1 == Pow2(i0)
      modifies this`buckets, this`size, this`contents
      ensures Valid() && r == (key in old(contents)) && contents == old(contents) - {key}
    {
      var m := m0;
      ghost var i := i0;
      while true
        invariant Valid() && contents == old(contents) && 1 <= i <= level && m + 1 == Pow2(i)
        decreases m != mask
      {
        var b, at, collision, mNow := SearchOnce(key, m, i);
        if at < |buckets[b].nodes| {
          RemoveHolds(buckets, {}, level, hash, contents, b, at);
          buckets := buckets[b := Chain(buckets[b].nodes[..at] + buckets[b].nodes[at + 1..])];
          size := size - 1;
          contents := contents - {key};
          return true;
        }
        if !collision {
          return false;
        }
        m, i := mNow, level;
      }
    }
  }
}
