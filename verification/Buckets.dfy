/**
 The bucket tree of tbb::concurrent_hash_map (src/intel/include/tbb/concurrent_hash_map.h): which
 bucket holds a node while buckets are split lazily.  With mask 2^j - 1, a hash c belongs to bucket
 c % 2^j; a bucket that was not rehashed yet leaves its nodes in its parent, the bucket whose number
 lacks the topmost bit.
 */
module Buckets {

  function Pow2(n: nat): (r: nat)
    ensures r >= 1 && n < r
    ensures n >= 1 ==> r >= 2
  {
    if n == 0 then 1 else 2 * Pow2(n - 1)
  }

  lemma {:induction false} Pow2Sum(m: nat, n: nat)
    ensures Pow2(m + n) == Pow2(m) * Pow2(n)
  {
    if m > 0 {
      Pow2Sum(m - 1, n);
      Double(Pow2(m - 1), Pow2(n));
    }
  }

  lemma Double(x: nat, y: nat)
    ensures 2 * (x * y) == (2 * x) * y
  {
  }

  lemma Pow2Grows(m: nat, n: nat)
    requires m <= n
    ensures Pow2(m) <= Pow2(n)
    ensures m < n ==> Pow2(m) < Pow2(n)
    decreases n
  {
    if m < n {
      Pow2Grows(m, n - 1);
    }
  }

  /** The bucket of hash c under mask 2^j - 1. */
  function At(c: nat, j: nat): (b: nat)
    ensures b < Pow2(j)
  {
    c % Pow2(j)
  }

  lemma ModOfMod(c: nat, m: nat, k: nat)
    requires m > 0 && k > 0
    ensures m * k > 0 && (c % (m * k)) % m == c % m
  {
    var q, r := c / (m * k), c % (m * k);
    assert m * k > 0 by { assert m * k >= m by { assert m * k - m == m * (k - 1); } }
    assert c == (m * k) * q + r;
    assert c == m * (k * q) + r by { assert (m * k) * q == m * (k * q); }
    ModShift(m, k * q, r);
  }

  lemma {:induction false} ModShift(m: nat, q: nat, r: nat)
    requires m > 0
    ensures (m * q + r) % m == r % m
    decreases q
  {
    if q > 0 {
      ModShift(m, q - 1, r);
      var x := m * (q - 1) + r;
      assert m * q + r == x + m by { assert m * q == m * (q - 1) + m; }
      assert (x + m) % m == x % m by { ModStep(x, m); }
    }
  }

  lemma ModStep(x: nat, m: nat)
    requires m > 0
    ensures (x + m) % m == x % m
  {
    var q, r := x / m, x % m;
    assert x == m * q + r;
    assert x + m == m * (q + 1) + r by { assert m * (q + 1) == m * q + m; }
    DivModUnique(x + m, m, q + 1, r);
  }

  lemma MulAtLeast(m: nat, d: int)
    requires d >= 1
    ensures m * d >= m
  {
    assert m * d == m * (d - 1) + m;
  }

  lemma DivModUnique(x: nat, m: nat, q: nat, r: nat)
    requires m > 0 && x == m * q + r && r < m
    ensures x % m == r && x / m == q
  {
    var q', r' := x / m, x % m;
    var d := q' - q;
    assert m * d == m * q' - m * q;
    assert m * -d == -(m * d);
    if d >= 1 {
      MulAtLeast(m, d);
    } else if d <= -1 {
      MulAtLeast(m, -d);
    }
  }

  /** A bucket under a smaller mask. */
  lemma AtAt(c: nat, i: nat, j: nat)
    requires i <= j
    ensures At(At(c, j), i) == At(c, i)
  {
    Pow2Sum(i, j - i);
    ModOfMod(c, Pow2(i), Pow2(j - i));
  }

  /** One more bit of the mask keeps the bucket or leads to a bucket of the upper half. */
  lemma AtNext(c: nat, j: nat)
    ensures At(c, j + 1) == At(c, j) || At(c, j + 1) == At(c, j) + Pow2(j)
  {
    var b := At(c, j + 1);
    AtAt(c, j, j + 1);
    if b < Pow2(j) {
      DivModUnique(b, Pow2(j), 0, b);
    } else {
      DivModUnique(b, Pow2(j), 1, b - Pow2(j));
    }
  }

  /** The number of bits of b: __TBB_Log2(b) + 1. */
  function Bits(b: nat): (n: nat)
    ensures b < Pow2(n)
    ensures b > 0 ==> n > 0 && Pow2(n - 1) <= b
  {
    if b == 0 then 0 else 1 + Bits(b / 2)
  }

  lemma BitsIs(b: nat, n: nat)
    requires n > 0 && Pow2(n - 1) <= b < Pow2(n)
    ensures Bits(b) == n
  {
    var m := Bits(b);
    if m < n {
      Pow2Grows(m, n - 1);
    } else if n < m {
      Pow2Grows(n, m - 1);
    }
  }

  /** The bucket that b splits off from. */
  function Parent(b: nat): (p: nat)
    requires b >= 2
    ensures p < b
  {
    b - Pow2(Bits(b) - 1)
  }

  // ---------- rehashed buckets ----------

  /** Buckets 0 and 1 are always rehashed, and so is the parent of every rehashed bucket. */
  predicate Closed(ok: seq<bool>, level: nat) {
    && level >= 1 && |ok| == Pow2(level)
    && ok[0] && ok[1]
    && (forall b {:trigger ok[b]} | 2 <= b < |ok| && ok[b] :: ok[Parent(b)])
  }

  /** The nearest rehashed bucket for hash c under mask 2^j - 1. */
  function Home(ok: seq<bool>, c: nat, j: nat): (b: nat)
    requires 1 <= j && Pow2(j) <= |ok|
    ensures b < Pow2(j)
  {
    if j == 1 || ok[At(c, j)] then At(c, j)
    else
      Pow2Grows(j - 1, j);
      Home(ok, c, j - 1)
  }

  /** If one more bit changes the bucket, it leads to a child of the old one. */
  lemma Child(c: nat, j: nat)
    requires j >= 1 && At(c, j + 1) != At(c, j)
    ensures At(c, j + 1) >= 2 && Bits(At(c, j + 1)) == j + 1 && Parent(At(c, j + 1)) == At(c, j)
  {
    AtNext(c, j);
    BitsIs(At(c, j + 1), j + 1);
    Pow2Grows(1, j);
  }

  /** Where the bucket under a larger mask is rehashed, those under smaller masks are. */
  lemma {:induction false} PrefixesOk(ok: seq<bool>, level: nat, c: nat, i: nat, j: nat)
    requires Closed(ok, level) && 1 <= i <= j <= level
    requires Pow2(j) <= |ok| && ok[At(c, j)]
    ensures Pow2(i) <= |ok| && ok[At(c, i)]
    decreases j - i
  {
    if i < j {
      Pow2Grows(j - 1, level);
      if At(c, j) != At(c, j - 1) {
        Child(c, j - 1);
      }
      PrefixesOk(ok, level, c, i, j - 1);
    }
  }

  lemma {:induction false} HomeIsOk(ok: seq<bool>, level: nat, c: nat, j: nat)
    requires Closed(ok, level) && 1 <= j <= level
    ensures Pow2(j) <= |ok| && ok[Home(ok, c, j)]
    decreases j
  {
    Pow2Grows(j, level);
    if j == 1 {
      assert Pow2(1) == 2;
    } else if !ok[At(c, j)] {
      HomeIsOk(ok, level, c, j - 1);
    }
  }

  /** The home is the bucket under some mask; no larger mask leads to a rehashed bucket. */
  lemma {:induction false} HomeLevel(ok: seq<bool>, level: nat, c: nat, j: nat) returns (q: nat)
    requires Closed(ok, level) && 1 <= j <= level
    ensures 1 <= q <= j && Pow2(j) <= |ok| && Home(ok, c, j) == At(c, q)
    ensures forall i | q < i <= j :: Pow2(i) <= |ok| && !ok[At(c, i)]
    decreases j
  {
    Pow2Grows(j, level);
    if j == 1 || ok[At(c, j)] {
      q := j;
    } else {
      q := HomeLevel(ok, level, c, j - 1);
    }
  }

  /** Under mask 2^i - 1 the hash has no rehashed bucket but the one under mask 2^q - 1. */
  predicate NoOther(ok: seq<bool>, c: nat, q: nat, i: nat) {
    Pow2(i) <= |ok| && (ok[At(c, i)] ==> At(c, i) == At(c, q))
  }

  lemma {:induction false} HomeFrom(ok: seq<bool>, level: nat, c: nat, q: nat, j: nat)
    requires |ok| == Pow2(level) && 1 <= q <= j <= level
    requires Pow2(q) <= |ok| && ok[At(c, q)]
    requires forall i {:trigger NoOther(ok, c, q, i)} | q < i <= j :: NoOther(ok, c, q, i)
    ensures Pow2(j) <= |ok| && Home(ok, c, j) == At(c, q)
    decreases j - q
  {
    Pow2Grows(j, level);
    if q < j {
      assert NoOther(ok, c, q, j);
      HomeFrom(ok, level, c, q, j - 1);
    }
  }

  // ---------- what the operations do to homes ----------

  /** New buckets are not rehashed yet. */
  function Grown(ok: seq<bool>, newLevel: nat): (r: seq<bool>)
    requires |ok| <= Pow2(newLevel)
    ensures |r| == Pow2(newLevel)
    ensures forall b | 0 <= b < |r| :: r[b] == (b < |ok| && ok[b])
  {
    seq(Pow2(newLevel), b requires 0 <= b < Pow2(newLevel) => b < |ok| && ok[b])
  }

  lemma GrownIsClosed(ok: seq<bool>, level: nat, newLevel: nat)
    requires Closed(ok, level) && level <= newLevel
    ensures |ok| <= Pow2(newLevel) && Closed(Grown(ok, newLevel), newLevel)
  {
    Pow2Grows(level, newLevel);
    Pow2Grows(1, level);
    var ok' := Grown(ok, newLevel);
    forall b | 2 <= b < |ok'| && ok'[b] ensures ok'[Parent(b)] {
      assert ok[b];
    }
  }

  /** Growing the table moves no node. */
  lemma GrowKeepsHomes(ok: seq<bool>, level: nat, newLevel: nat, c: nat)
    requires Closed(ok, level) && level <= newLevel
    ensures |ok| <= Pow2(newLevel) && Home(Grown(ok, newLevel), c, newLevel) == Home(ok, c, level)
  {
    GrownIsClosed(ok, level, newLevel);
    var ok' := Grown(ok, newLevel);
    var q := HomeLevel(ok, level, c, level);
    HomeIsOk(ok, level, c, level);
    forall i | q < i <= newLevel ensures NoOther(ok', c, q, i) {
      Pow2Grows(i, newLevel);
      if ok'[At(c, i)] {
        NotAbove(ok, level, c, q, i);
      }
    }
    Pow2Grows(q, newLevel);
    HomeFrom(ok', newLevel, c, q, newLevel);
  }

  lemma {:induction false} NotAbove(ok: seq<bool>, level: nat, c: nat, q: nat, i: nat)
    requires Closed(ok, level) && 1 <= q < i && At(c, i) < |ok| && ok[At(c, i)]
    requires forall j | q < j <= level :: Pow2(j) <= |ok| && !ok[At(c, j)]
    requires q <= level
    ensures At(c, i) == At(c, q)
    decreases i
  {
    if i > level {
      AtNext(c, i - 1);
      Pow2Grows(level, i - 1);
      assert At(c, i) == At(c, i - 1);
      if q < i - 1 {
        NotAbove(ok, level, c, q, i - 1);
      }
    }
  }

  /** A bucket is rehashed after its parent: it takes over exactly the hashes that end in its number. */
  lemma RehashMovesHomes(ok: seq<bool>, level: nat, b: nat, c: nat)
    requires Closed(ok, level) && 2 <= b < |ok| && !ok[b] && ok[Parent(b)]
    ensures Closed(ok[b := true], level)
    ensures At(c, Bits(b)) == b ==> Home(ok, c, level) == Parent(b) && Home(ok[b := true], c, level) == b
    ensures At(c, Bits(b)) != b ==> Home(ok[b := true], c, level) == Home(ok, c, level)
  {
    var ok', n := ok[b := true], Bits(b);
    if n > level {
      Pow2Grows(level, n - 1);
    }
    Pow2Grows(n, level);
    if At(c, n) == b {
      HomeBefore(ok, level, b, c);
      HomeAfter(ok, level, b, c);
    } else {
      HomeElsewhere(ok, level, b, c);
    }
  }

  lemma HomeElsewhere(ok: seq<bool>, level: nat, b: nat, c: nat)
    requires Closed(ok, level) && 2 <= b < |ok| && At(c, Bits(b)) != b
    ensures Home(ok[b := true], c, level) == Home(ok, c, level)
  {
    var ok' := ok[b := true];
    var q := HomeLevel(ok, level, c, level);
    HomeIsOk(ok, level, c, level);
    forall i | q < i <= level ensures NoOther(ok', c, q, i) {
      Pow2Grows(i, level);
      if At(c, i) == b {
        SameBucket(c, b, i);
      }
    }
    Pow2Grows(q, level);
    HomeFrom(ok', level, c, q, level);
  }

  /** A hash that leads to b under some mask leads to b under the mask of b's own bits. */
  lemma SameBucket(c: nat, b: nat, i: nat)
    requires At(c, i) == b
    ensures Bits(b) <= i && At(c, Bits(b)) == b
  {
    var n := Bits(b);
    if n > i {
      Pow2Grows(i, n - 1);
    }
    AtAt(c, n, i);
    DivModUnique(b, Pow2(n), 0, b);
  }

  /** While b is not rehashed, no bucket that splits off from it is. */
  lemma NoneBelow(ok: seq<bool>, level: nat, b: nat, c: nat)
    requires Closed(ok, level) && 2 <= b < |ok| && !ok[b] && At(c, Bits(b)) == b
    ensures Bits(b) <= level
    ensures forall i | Bits(b) <= i <= level :: Pow2(i) <= |ok| && !ok[At(c, i)]
  {
    var n := Bits(b);
    if n > level {
      Pow2Grows(level, n - 1);
    }
    forall i | n <= i <= level ensures Pow2(i) <= |ok| && !ok[At(c, i)] {
      Pow2Grows(i, level);
      if ok[At(c, i)] {
        PrefixesOk(ok, level, c, n, i);
      }
    }
  }

  lemma ParentAt(b: nat, c: nat)
    requires b >= 2 && At(c, Bits(b)) == b
    ensures Bits(b) >= 2 && At(c, Bits(b) - 1) == Parent(b)
  {
    BitsOfBucket(b);
    var n, m := Bits(b), Pow2(Bits(b) - 1);
    AtAt(c, n - 1, n);
    assert Pow2(n) == 2 * m;
    DivModUnique(b, m, 1, Parent(b));
  }

  lemma HomeBefore(ok: seq<bool>, level: nat, b: nat, c: nat)
    requires Closed(ok, level) && 2 <= b < |ok| && !ok[b] && ok[Parent(b)] && At(c, Bits(b)) == b
    ensures Home(ok, c, level) == Parent(b)
  {
    NoneBelow(ok, level, b, c);
    ParentAt(b, c);
    var q := Bits(b) - 1;
    Pow2Grows(q, level);
    forall i | q < i <= level ensures NoOther(ok, c, q, i) {
      assert !ok[At(c, i)];
    }
    HomeFrom(ok, level, c, q, level);
  }

  lemma HomeAfter(ok: seq<bool>, level: nat, b: nat, c: nat)
    requires Closed(ok, level) && 2 <= b < |ok| && !ok[b] && Closed(ok[b := true], level) && At(c, Bits(b)) == b
    ensures Home(ok[b := true], c, level) == b
  {
    NoneBelow(ok, level, b, c);
    BitsOfBucket(b);
    Pow2Grows(Bits(b), level);
    var ok', q := ok[b := true], Bits(b);
    forall i | q < i <= level ensures NoOther(ok', c, q, i) {
      assert !ok[At(c, i)];
    }
    HomeFrom(ok', level, c, q, level);
  }

  lemma BitsOfBucket(b: nat)
    requires b >= 2
    ensures Bits(b) >= 2
  {
    if Bits(b) <= 1 {
      Pow2Grows(Bits(b), 1);
    }
  }

  // ---------- lookups with an old mask ----------

  /** The first mask beyond 2^i - 1, from 2^j - 1 on, under which c has another bucket; 0 if there is none. */
  function SplitLevel(c: nat, i: nat, j: nat, level: nat): (r: nat)
    requires i < j
    ensures r == 0 || (j <= r <= level && At(c, r) != At(c, i))
    ensures forall k | j <= k <= level && (r == 0 || k < r) :: At(c, k) == At(c, i)
    decreases level + 1 - j
  {
    if j > level then 0
    else if At(c, j) != At(c, i) then j
    else SplitLevel(c, i, j + 1, level)
  }

  /**
   A node that a search under an old mask misses has moved on through the first bucket that splits its
   hash off, so that bucket is rehashed.
   */
  lemma MovedThroughSplit(ok: seq<bool>, level: nat, c: nat, i: nat)
    requires Closed(ok, level) && 1 <= i <= level && Pow2(i) <= |ok| && ok[At(c, i)]
    ensures (var r := SplitLevel(c, i, i + 1, level);
             Home(ok, c, level) != At(c, i) <==> r != 0 && Pow2(r) <= |ok| && ok[At(c, r)])
  {
    var r := SplitLevel(c, i, i + 1, level);
    var q := HomeLevel(ok, level, c, level);
    HomeIsOk(ok, level, c, level);
    if r != 0 {
      Pow2Grows(r, level);
    }
    if At(c, q) != At(c, i) {
      assert r != 0 && r <= q;
      Pow2Grows(q, level);
      PrefixesOk(ok, level, c, r, q);
    } else if r != 0 && ok[At(c, r)] {
      assert r <= q;
      AtAt(c, r, q);
      AtAt(c, i, q);
      AtAt(c, i, r);
      Pow2Grows(i, r);
      DivModUnique(At(c, i), Pow2(r), 0, At(c, i));
      assert false;
    }
  }

  lemma Regroup(m: nat, q: nat)
    ensures m * (2 * q) == (2 * m) * q
  {
  }

  lemma HalfOfMod(c: nat, m: nat)
    requires m > 0
    ensures (c / m) % 2 == 0 <==> c % (2 * m) == c % m
  {
    var q, r := c / m, c % m;
    var half := q / 2;
    Regroup(m, half);
    if q % 2 == 0 {
      assert q == 2 * half;
      DivModUnique(c, 2 * m, half, r);
    } else {
      assert q == 2 * half + 1;
      assert m * q == m * (2 * half) + m;
      DivModUnique(c, 2 * m, half, m + r);
    }
  }

  /** Bit k of c decides whether the mask with that bit leads to another bucket. */
  lemma BitIsZero(c: nat, k: nat)
    ensures (c / Pow2(k)) % 2 == 0 <==> At(c, k + 1) == At(c, k)
  {
    HalfOfMod(c, Pow2(k));
  }

  lemma {:induction false} SplitIs(c: nat, i: nat, j: nat, k: nat, level: nat)
    requires i < j <= k <= level && At(c, k) != At(c, i)
    requires forall l | j <= l < k :: At(c, l) == At(c, i)
    ensures SplitLevel(c, i, j, level) == k
    decreases k - j
  {
    if j < k {
      SplitIs(c, i, j + 1, k, level);
    }
  }

  lemma {:induction false} NoSplit(c: nat, i: nat, j: nat, level: nat)
    requires i < j && forall l | j <= l <= level :: At(c, l) == At(c, i)
    ensures SplitLevel(c, i, j, level) == 0
    decreases level + 1 - j
  {
    if j <= level {
      NoSplit(c, i, j + 1, level);
    }
  }

  /** If the largest mask leads to the same bucket, so do those between. */
  lemma SameBetween(c: nat, i: nat, l: nat, level: nat)
    requires i <= l <= level && At(c, level) == At(c, i)
    ensures At(c, l) == At(c, i)
  {
    AtAt(c, l, level);
    Pow2Grows(i, l);
    DivModUnique(At(c, i), Pow2(l), 0, At(c, i));
  }

  // ---------- segments ----------

  /** segment_index_of: __TBB_Log2(index | 1). */
  function SegmentIndexOf(index: nat): (k: nat) {
    if index < 2 then 0 else Bits(index) - 1
  }

  /** segment_base: 1 << k with the lowest bit cleared. */
  function SegmentBase(k: nat): (b: nat) {
    if k == 0 then 0 else Pow2(k)
  }

  /** How many buckets segment k has; segment_size gives a made-up value for segment 0. */
  function SegmentBuckets(k: nat): (n: nat) {
    if k == 0 then 2 else Pow2(k)
  }

  /** get_bucket finds its bucket inside a segment, and in no other one. */
  lemma SegmentHolds(index: nat, k: nat)
    ensures SegmentBase(k) <= index < SegmentBase(k) + SegmentBuckets(k) <==> k == SegmentIndexOf(index)
  {
    assert Pow2(1) == 2;
    if index >= 2 {
      var n := Bits(index);
      Pow2Grows(1, n);
      if k > 0 && Pow2(k) <= index < Pow2(k + 1) {
        BitsIs(index, k + 1);
      }
      if k == n - 1 {
        assert Pow2(n) == 2 * Pow2(n - 1);
      }
    } else if k > 0 {
      Pow2Grows(1, k);
    }
  }

  /** A hash cut by the mask of a table with `level` segments lies in one of them. */
  lemma MaskedIsAllocated(index: nat, level: nat)
    requires level >= 1 && index < Pow2(level)
    ensures SegmentIndexOf(index) < level
  {
    if index >= 2 && Bits(index) > level {
      Pow2Grows(level, Bits(index) - 1);
    }
  }
}
