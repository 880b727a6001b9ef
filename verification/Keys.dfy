/**
 src/i/ikey.h: the key type of the caches.  The cache models use the rank of a key in the order of
 `cmp`; this module shows that ranks order keys exactly as `cmp` does.
 */
module Keys {
  import opened CacheNodes

  const WORD: nat := 0x1_0000_0000_0000_0000

  datatype TKey = TKey(word0: nat, word1: nat, word2: nat)
  {
    predicate Valid() {
      word0 < WORD && word1 < WORD && word2 < WORD
    }

    /** The most significant word is the last one. */
    function Rank(): nat {
      (word2 * WORD + word1) * WORD + word0
    }

    function Cmp(other: TKey): int {
      if word2 > other.word2 then 1
      else if word2 < other.word2 then -1
      else if word1 > other.word1 then 1
      else if word1 < other.word1 then -1
      else if word0 > other.word0 then 1
      else if word0 < other.word0 then -1
      else 0
    }

    /** The 64-bit sum of the words, halved when it does not fit 63 bits. */
    function Hash(): nat {
      var re := (word0 + word1 + word2) % WORD;
      if re < 9223372036854775807 then re else re / 2
    }
  }

  /** `cmp` is the order of the ranks, a strict total order in which only equal keys compare equal. */
  lemma CmpIsRankOrder(a: TKey, b: TKey)
    requires a.Valid() && b.Valid()
    ensures a.Cmp(b) == Compare(a.Rank(), b.Rank())
    ensures a.Cmp(b) == 0 <==> a == b
    ensures a.Cmp(b) == 0 ==> a.Hash() == b.Hash()
  {
    var x, y := a.word2 * WORD + a.word1, b.word2 * WORD + b.word1;
    if a.word2 != b.word2 {
      assert if a.word2 < b.word2 then x + 1 <= y else y + 1 <= x;
    }
  }

  /** Hashes are the sum of the words while that is small, and never reach 2^63: they also fit a signed word. */
  lemma HashFits(a: TKey)
    ensures a.Hash() < 0x8000_0000_0000_0000
    ensures (var sum := a.word0 + a.word1 + a.word2; sum < 0x7FFF_FFFF_FFFF_FFFF ==> a.Hash() == sum)
  {
    var re := (a.word0 + a.word1 + a.word2) % WORD;
    assert re < WORD;
  }
}
