/**
 The decimal printer and parser of src/spec/specstatic.h.  Characters are byte values, strings end
 with a byte 0, and the arithmetic of the loops is that of a type that cannot hold 2^64.
 */
module Decimal {
  newtype uint64 = x: int | 0 <= x < 0x1_0000_0000_0000_0000
  newtype int64 = x: int | -0x8000_0000_0000_0000 <= x < 0x8000_0000_0000_0000

  type byte = x: int | 0 <= x < 256

  const GUID_LEN := 19
  const LLONG_MAX: int64 := 0x7FFF_FFFF_FFFF_FFFF
  const ZERO := 48  // '0'
  const NINE := 57  // '9'

  // What a string of decimal digits is and means; the constants above are the program's and not used here.

  predicate IsDigit(ch: byte) {
    '0' as int <= ch <= '9' as int
  }

  predicate AllDigits(s: seq<byte>) {
    forall i | 0 <= i < |s| :: IsDigit(s[i])
  }

  /** The decimal digits of n, the highest first. */
  function Digits(n: nat): (s: seq<byte>)
    ensures |s| >= 1 && AllDigits(s)
  {
    if n < 10 then ['0' as int + n] else Digits(n / 10) + ['0' as int + n % 10]
  }

  /** The number that a string of digits stands for. */
  function Value(s: seq<byte>): (n: nat)
    requires AllDigits(s)
  {
    if s == [] then 0
    else
      var front := s[..|s| - 1];
      assert AllDigits(front);
      10 * Value(front) + (s[|s| - 1] - '0' as int)
  }

  function Pow10(k: nat): (n: nat)
    ensures n >= 1
  {
    if k == 0 then 1 else 10 * Pow10(k - 1)
  }

  function Min(a: int, b: int): (m: int) {
    if a < b then a else b
  }

  lemma {:induction false} ValueOfDigits(n: nat)
    ensures Value(Digits(n)) == n
  {
    var s := Digits(n);
    if n >= 10 {
      ValueOfDigits(n / 10);
      assert s[..|s| - 1] == Digits(n / 10);
    } else {
      assert s[..0] == [];
    }
  }

  lemma {:induction false} ValueBound(s: seq<byte>)
    requires AllDigits(s)
    ensures Value(s) < Pow10(|s|)
  {
    if s != [] {
      assert AllDigits(s[..|s| - 1]);
      ValueBound(s[..|s| - 1]);
    }
  }

  /** n has at most k digits just when it is below 10^k. */
  lemma {:induction false} DigitsLength(n: nat, k: nat)
    requires k >= 1
    ensures |Digits(n)| <= k <==> n < Pow10(k)
    decreases n
  {
    assert Pow10(1) == 10;
    if n >= 10 && k > 1 {
      DigitsLength(n / 10, k - 1);
    } else if n < 10 && k > 1 {
      Pow10Grows(1, k);
    }
  }

  lemma {:induction false} Pow10Grows(j: nat, k: nat)
    requires j <= k
    ensures Pow10(j) <= Pow10(k)
    decreases k
  {
    if j < k {
      Pow10Grows(j, k - 1);
    }
  }

  lemma Pow10Values()
    ensures Pow10(18) == 1_000_000_000_000_000_000 && Pow10(19) == 10 * Pow10(18) && Pow10(20) == 100 * Pow10(18)
  {
    assert Pow10(6) == 1_000_000;
    assert Pow10(12) == 1_000_000 * Pow10(6);
    assert Pow10(18) == 1_000_000 * Pow10(12);
  }

  /** Dropping the last j digits divides by 10^j. */
  lemma {:induction false} ValueOfPrefix(n: nat, k: nat)
    requires k <= |Digits(n)|
    ensures AllDigits(Digits(n)[..k])
    ensures k == |Digits(n)| - 1 ==> Value(Digits(n)[..k]) == n / 10
    ensures k == |Digits(n)| ==> Value(Digits(n)[..k]) == n
  {
    var s := Digits(n);
    ValueOfDigits(n);
    assert s[..|s|] == s;
    if n >= 10 {
      ValueOfDigits(n / 10);
      assert s[..|s| - 1] == Digits(n / 10);
    }
  }

  // ---------- stoll(first, len) ----------

  /** How many digits the string starts with, of the first len characters. */
  function Leading(s: seq<byte>, len: nat): (k: nat)
    ensures k <= |s| && k <= len && AllDigits(s[..k])
    ensures k < len && k < |s| ==> !IsDigit(s[k])
    decreases len
  {
    if len == 0 || s == [] || !IsDigit(s[0]) then 0
    else
      var k := 1 + Leading(s[1..], len - 1);
      assert s[..k] == [s[0]] + s[1..][..k - 1];
      k
  }

  lemma LeadingIs(s: seq<byte>, len: nat, k: nat)
    requires k <= |s| && k <= len && AllDigits(s[..k])
    requires k == len || (k < |s| && !IsDigit(s[k]))
    ensures Leading(s, len) == k
  {
    var j := Leading(s, len);
    assert forall i | 0 <= i < k :: s[..k][i] == s[i];
    assert forall i | 0 <= i < j :: s[..j][i] == s[i];
  }

  /** The number that a string starts with: of the first len characters, and at most 19, the digits in front. */
  function LeadingNumber(s: seq<byte>, len: int): (v: nat) {
    Value(s[..Leading(s, if len < 0 then 0 else Min(len, 19))])
  }

  /**
   The number, or the largest number of the result type if it does not fit.  The loop looks at a
   character before it checks the length, so one more may be read than `len`.
   */
  method Stoll(s: array<byte>, first: nat, len: int) returns (re: int64)
    requires exists e :: first <= e < s.Length && (!IsDigit(s[e]) || e - first >= Min(len, 19))
    ensures (var v := LeadingNumber(s[first..], len);
             re as int == if v < 0x8000_0000_0000_0000 then v else 0x7FFF_FFFF_FFFF_FFFF)
  {
    ghost var e :| first <= e < s.Length && (!IsDigit(s[e]) || e - first >= Min(len, 19));
    var n := if len > GUID_LEN then GUID_LEN else len;
    var last := first + n;
    var acc: uint64 := 0;
    var ch := first;
    while s[ch] != 0 && ch < last
      invariant first <= ch <= e && (if n >= 0 then ch <= last else ch == first)
      invariant AllDigits(s[first..ch]) && acc as int == Value(s[first..ch])
      decreases s.Length - ch
    {
      if s[ch] < ZERO || s[ch] > NINE {
        break;
      }
      Accumulates(s[first..ch], s[ch]);
      acc := 10 * acc + s[ch] as uint64 - ZERO as uint64;
      assert s[first..ch + 1] == s[first..ch] + [s[ch]];
      ch := ch + 1;
    }
    LeadingNumberIs(s[first..], len, ch - first, s[first..ch]);
    re := if acc > LLONG_MAX as uint64 then LLONG_MAX else acc as int64;
  }

  lemma LeadingNumberIs(s: seq<byte>, len: int, k: nat, digits: seq<byte>)
    requires k <= |s| && digits == s[..k] && AllDigits(digits)
    requires var n := if len < 0 then 0 else Min(len, 19); k <= n && (k == n || (k < |s| && !IsDigit(s[k])))
    ensures LeadingNumber(s, len) == Value(digits)
  {
    LeadingIs(s, if len < 0 then 0 else Min(len, 19), k);
  }

  /** One more digit, and still no overflow. */
  lemma Accumulates(front: seq<byte>, ch: byte)
    requires AllDigits(front) && IsDigit(ch) && |front| < 19
    ensures 10 * Value(front) + ch < 0x1_0000_0000_0000_0000
    ensures Value(front + [ch]) == 10 * Value(front) + ch - '0' as int
  {
    ValueBound(front);
    Pow10Values();
    Pow10Grows(|front|, 18);
    assert (front + [ch])[..|front|] == front;
  }

  // ---------- printULong ----------

  /**
   Writes the digits of n that fit between start and end, and a 0 behind them, at r.  *end may be
   changed, and the program keeps to that if and only if n is not 0 or there is room before end: it
   writes '0' without a look at end, and then the 0 one byte further on.  That byte has to exist here.
   */
  method PrintULong(n: uint64, s: array<byte>, start: nat, end: nat) returns (r: nat)
    requires start <= end < s.Length && (n == 0 && start == end ==> end + 1 < s.Length)
    modifies s
    ensures r < s.Length && (r <= end <==> n != 0 || start < end)
    ensures (var d := Digits(n as int);
             var k := if n == 0 then 1 else Min(|d|, end - start);
             r == start + k && s[..] == old(s[..start]) + d[..k] + [0] + old(s[start + k + 1..]))
  {
    ghost var was := s[..];
    r := start;
    if n == 0 {
      s[r] := ZERO;
      r := r + 1;
    } else {
      var buf := new byte[24];
      var ch := Reversed(n, buf);
      r := CopyDown(Digits(n as int), buf, ch, s, start, end);
    }
    s[r] := 0;
  }

  /** A buffer with room for the terminator only: for 0 the byte behind *end is overwritten. */
  method OverrunExample() returns (s: array<byte>, r: nat)
    ensures fresh(s) && s[..] == ['0' as int, 0] && r == 1
  {
    s := new byte[2](_ => 7);
    r := PrintULong(0, s, 0, 0);
    assert Digits(0) == ['0' as int];
    assert s[..] == ['0' as int, 0];
  }

  /** The digits d, which buf holds in reverse up to `top`, as far as they fit. */
  method CopyDown(ghost d: seq<byte>, buf: array<byte>, top: int, s: array<byte>, start: nat, end: nat) returns (r: nat)
    requires start <= end < s.Length && top == |d| - 1 && |d| <= buf.Length && buf != s
    requires forall i | 0 <= i < |d| :: buf[i] == d[|d| - 1 - i]
    modifies s
    ensures var k := Min(|d|, end - start);
            r == start + k && s[..] == old(s[..start]) + d[..k] + old(s[start + k..])
  {
    ghost var was := s[..];
    var ch := top;
    r := start;
    while ch >= 0 && r < end
      invariant -1 <= ch < |d| && start <= r <= end && r - start == |d| - 1 - ch
      invariant s[..] == was[..start] + d[..r - start] + was[r..]
    {
      s[r] := buf[ch];
      r := r + 1;
      ch := ch - 1;
    }
  }

  /** Taking the last digit off. */
  lemma LastDigit(d: seq<byte>, m: nat, i: nat)
    requires i < |d| && m > 0 && d[..|d| - i] == Digits(m)
    ensures d[|d| - 1 - i] == '0' as int + m % 10
    ensures if m / 10 == 0 then i + 1 == |d| else i + 1 < |d| && d[..|d| - (i + 1)] == Digits(m / 10)
  {
    var s := Digits(m);
    assert s[|s| - 1] == d[|d| - 1 - i];
    if m >= 10 {
      assert s[..|s| - 1] == Digits(m / 10);
      assert d[..|d| - (i + 1)] == s[..|s| - 1];
    }
  }

  lemma AtMostTwenty(n: uint64)
    ensures |Digits(n as int)| <= 20
  {
    Pow10Values();
    DigitsLength(n as int, 20);
  }

  /** The digits of n from the lowest up; the index of the highest. */
  method Reversed(n: uint64, buf: array<byte>) returns (ch: int)
    requires n != 0 && buf.Length == 24
    modifies buf
    ensures (var d := Digits(n as int);
             ch == |d| - 1 && |d| <= 20 && forall i | 0 <= i < |d| :: buf[i] == d[|d| - 1 - i])
  {
    AtMostTwenty(n);
    ghost var d := Digits(n as int);
    assert d[..|d|] == d;
    ch := 0;
    var n1 := n;
    while n1 != 0
      invariant 0 <= ch <= |d| <= 20
      invariant forall i | 0 <= i < ch :: buf[i] == d[|d| - 1 - i]
      invariant if n1 == 0 then ch == |d| else ch < |d| && d[..|d| - ch] == Digits(n1 as int)
    {
      LastDigit(d, n1 as int, ch);
      var digit := (n1 % 10) as int;
      buf[ch] := digit + ZERO;
      ch := ch + 1;
      n1 := n1 / 10;
    }
    ch := ch - 1;
  }

  // ---------- there and back ----------

  lemma LeadingDigits(n: nat, rest: seq<byte>, len: int, k: nat)
    requires len >= 19 && k == Min(|Digits(n)|, 19)
    ensures k <= |Digits(n)| && AllDigits(Digits(n)[..k])
    ensures LeadingNumber(Digits(n) + [0] + rest, len) == Value(Digits(n)[..k])
  {
    var s := Digits(n) + [0] + rest;
    assert s[..k] == Digits(n)[..k];
    LeadingIs(s, 19, k);
  }

  /**
   A number printed with room to spare starts the string with its own digits just when it is below
   10^19; a longer one loses its last digit, and what is left fits 63 bits.
   */
  lemma RoundTrip(n: nat, rest: seq<byte>, len: int)
    requires n < 0x1_0000_0000_0000_0000 && len >= 19
    ensures (var v := LeadingNumber(Digits(n) + [0] + rest, len);
             && (v == n <==> n < 10_000_000_000_000_000_000)
             && (n >= 10_000_000_000_000_000_000 ==> v == n / 10 < 0x8000_0000_0000_0000))
  {
    Pow10Values();
    DigitsLength(n, 19);
    DigitsLength(n, 20);
    LeadingDigits(n, rest, len, Min(|Digits(n)|, 19));
    ValueOfPrefix(n, Min(|Digits(n)|, 19));
  }

  /** The two together, in a buffer that is large enough: right below 2^63, cut off below 10^19, then wrong. */
  method PrintThenParse(n: uint64, s: array<byte>, start: nat, end: nat) returns (re: int64)
    requires start <= end < s.Length && |Digits(n as int)| <= end - start
    modifies s
    ensures re as int == if n < 0x8000_0000_0000_0000 then n as int
                         else if n < 10_000_000_000_000_000_000 then 0x7FFF_FFFF_FFFF_FFFF
                         else n as int / 10
  {
    var r, rest := PrintInside(n, s, start, end);
    assert !IsDigit(s[r]);
    re := Stoll(s, start, GUID_LEN);
    RoundTrip(n as int, rest, GUID_LEN);
  }

  method PrintInside(n: uint64, s: array<byte>, start: nat, end: nat) returns (r: nat, ghost rest: seq<byte>)
    requires start <= end < s.Length && |Digits(n as int)| <= end - start
    modifies s
    ensures s[start..] == Digits(n as int) + [0] + rest
    ensures start <= r < s.Length && s[r] == 0
  {
    ghost var was := s[..];
    r := PrintULong(n, s, start, end);
    ghost var d := Digits(n as int);
    rest := was[r + 1..];
    assert d[..|d|] == d;
    assert s[..][start..] == d + [0] + rest;
    assert s[start..] == s[..][start..];
  }
}
