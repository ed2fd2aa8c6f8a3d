/**
 The variable-length integers of `pkg/kbin/primitives.go`.

 The source works on machine words with masks and shifts. Here a byte is an
 `int` below 256, `x & 0x7f` is `x % 128`, `x >> 7` is `x / 128`, and an `|`
 of words whose set bits do not overlap is a sum; every place where the source
 truncates a word is written out as a remainder.
 */
module Varints {

  type byte = b: int | 0 <= b < 256
  type uint32 = u: int | 0 <= u < 0x1_0000_0000
  type uint64 = u: int | 0 <= u < 0x1_0000_0000_0000_0000
  type int32 = i: int | -0x8000_0000 <= i < 0x8000_0000
  type int64 = i: int | -0x8000_0000_0000_0000 <= i < 0x8000_0000_0000_0000

  // ---------------------------------------------------------------------
  // The reference: little-endian groups of seven bits, the top bit of a
  // byte saying that another group follows.
  // ---------------------------------------------------------------------

  function Pow128(n: nat): (p: nat)
    ensures p >= 1
  {
    if n == 0 then 1 else 128 * Pow128(n - 1)
  }

  function Leb(u: nat): (s: seq<byte>) {
    if u < 128 then [u] else [u % 128 + 128] + Leb(u / 128)
  }

  function Low7(b: byte): int { b % 128 }

  /** `x` moved up by `n` groups. */
  function Shift(x: nat, n: nat): nat {
    if n == 0 then x else 128 * Shift(x, n - 1)
  }

  /** The number carried by the first `n` groups of `s`. */
  function GroupSum(s: seq<byte>, n: nat): nat
    requires n <= |s|
  {
    if n == 0 then 0 else GroupSum(s, n - 1) + Shift(Low7(s[n - 1]), n - 1)
  }

  /** The position at or after `i` of the first byte without a continuation bit. */
  function FirstStop(s: seq<byte>, i: nat): (k: nat)
    requires i <= |s|
    ensures i <= k <= |s|
    decreases |s| - i
  {
    if i < |s| && s[i] >= 128 then FirstStop(s, i + 1) else i
  }

  /**
   Decoding by definition: find the last group, add the groups up, and reject
   what does not fit. A positive count is the number of bytes consumed, zero
   means the input ended early, and a negative count means overflow.
   */
  function LebDecode(s: seq<byte>, maxLen: int, bound: nat): (nat, int) {
    var k := FirstStop(s, 0);
    if k < |s| && k < maxLen then
      var v := GroupSum(s, k + 1);
      if v < bound then (v, k + 1) else (0, -maxLen)
    else if |s| >= maxLen then (0, -maxLen)
    else (0, 0)
  }

  function LebDecode32(s: seq<byte>): (nat, int) { LebDecode(s, 5, 0x1_0000_0000) }

  function LebDecode64(s: seq<byte>): (nat, int) { LebDecode(s, 10, 0x1_0000_0000_0000_0000) }

  // ---------------------------------------------------------------------
  // The length table
  // ---------------------------------------------------------------------

  /** `math/bits.Len32` and `Len64`. */
  function BitLen(u: nat): nat {
    if u == 0 then 0 else 1 + BitLen(u / 2)
  }

  /** The 65 used entries of the table string; the source pads it to 256. */
  const UvarintLens: seq<nat> :=
    [1, 1, 1, 1, 1, 1, 1, 1] +
    [2, 2, 2, 2, 2, 2, 2] +
    [3, 3, 3, 3, 3, 3, 3] +
    [4, 4, 4, 4, 4, 4, 4] +
    [5, 5, 5, 5, 5, 5, 5] +
    [6, 6, 6, 6, 6, 6, 6] +
    [7, 7, 7, 7, 7, 7, 7] +
    [8, 8, 8, 8, 8, 8, 8] +
    [9, 9, 9, 9, 9, 9, 9] +
    [10]

  function Pow2(n: nat): (p: nat)
    ensures p >= 1
  {
    if n == 0 then 1 else 2 * Pow2(n - 1)
  }

  lemma {:induction false} BitLenBound(u: nat, k: nat)
    ensures BitLen(u) <= k <==> u < Pow2(k)
  {
    if k == 0 {
    } else if u == 0 {
    } else {
      BitLenBound(u / 2, k - 1);
    }
  }

  lemma {:induction false} PowersAgree(n: nat)
    ensures Pow2(7 * n) == Pow128(n)
  {
    if n > 0 {
      PowersAgree(n - 1);
      var m := 7 * (n - 1);
      assert Pow2(m + 2) == 4 * Pow2(m) by { assert Pow2(m + 1) == 2 * Pow2(m); }
      assert Pow2(m + 4) == 16 * Pow2(m) by { assert Pow2(m + 3) == 2 * Pow2(m + 2); }
      assert Pow2(m + 6) == 64 * Pow2(m) by { assert Pow2(m + 5) == 2 * Pow2(m + 4); }
    }
  }

  lemma PowersOf128()
    ensures Pow128(0) == 1 && Pow128(1) == 0x80 && Pow128(2) == 0x4000 && Pow128(3) == 0x20_0000 && Pow128(4) == 0x1000_0000
    ensures Pow128(5) == 0x8_0000_0000 && Pow128(6) == 0x400_0000_0000 && Pow128(7) == 0x2_0000_0000_0000
    ensures Pow128(8) == 0x100_0000_0000_0000 && Pow128(9) == 0x8000_0000_0000_0000
    ensures Pow128(10) == 0x40_0000_0000_0000_0000
  {
    assert Pow128(3) == 0x20_0000;
    assert Pow128(6) == 0x400_0000_0000;
  }

  /** The table holds the number of seven-bit groups that `b` bits need, and one group for zero. */
  lemma TableRoundsUp(b: nat)
    requires b <= 64
    ensures UvarintLens[b] == if b == 0 then 1 else (b + 6) / 7
  {
  }

  lemma TableBrackets(u: nat)
    requires BitLen(u) <= 64
    ensures var n := UvarintLens[BitLen(u)];
      1 <= n <= 10 && u < Pow128(n) && (n == 1 || Pow128(n - 1) <= u)
  {
    TableRoundsUp(BitLen(u));
    var n := UvarintLens[BitLen(u)];
    BitLenBound(u, 7 * n);
    PowersAgree(n);
    if n > 1 {
      BitLenBound(u, 7 * (n - 1));
      PowersAgree(n - 1);
    }
  }

  lemma WordBits()
    ensures Pow2(32) == 0x1_0000_0000 && Pow2(64) == 0x1_0000_0000_0000_0000
  {
    assert Pow2(8) == 0x100;
    assert Pow2(16) == 0x1_0000;
    assert Pow2(24) == 0x100_0000;
    assert Pow2(32) == 0x1_0000_0000;
    assert Pow2(40) == 0x100 * Pow2(32);
    assert Pow2(48) == 0x100 * Pow2(40);
    assert Pow2(56) == 0x100 * Pow2(48);
  }

  function UvarlongLen(u: uint64): (n: nat)
    ensures 1 <= n <= 10
    ensures u < Pow128(n)
    ensures n == 1 || Pow128(n - 1) <= u
  {
    BitLenFits(u);
    TableBrackets(u);
    UvarintLens[BitLen(u)]
  }

  lemma BitLenFits(u: nat)
    ensures u < 0x1_0000_0000 ==> BitLen(u) <= 32
    ensures u < 0x1_0000_0000_0000_0000 ==> BitLen(u) <= 64
  {
    WordBits();
    BitLenBound(u, 32);
    BitLenBound(u, 64);
  }

  function UvarintLen(u: uint32): (n: nat)
    ensures n == UvarlongLen(u) <= 5
  {
    BitLenFits(u);
    TableRoundsUp(BitLen(u));
    UvarintLens[BitLen(u)]
  }

  // ---------------------------------------------------------------------
  // The unrolled decoders
  // ---------------------------------------------------------------------

  lemma {:induction false} ShiftBound(x: nat, n: nat)
    requires x < 128
    ensures Shift(x, n) + Pow128(n) <= Pow128(n + 1)
  {
    if n > 0 { ShiftBound(x, n - 1); }
  }

  lemma {:induction false} GroupSumBound(s: seq<byte>, n: nat)
    requires n <= |s|
    ensures GroupSum(s, n) < Pow128(n)
  {
    if n > 0 {
      GroupSumBound(s, n - 1);
      ShiftBound(Low7(s[n - 1]), n - 1);
    }
  }

  lemma {:induction false} ShiftScales(x: nat, n: nat)
    ensures Shift(x, n) == x * Pow128(n)
  {
    if n > 0 { ShiftScales(x, n - 1); }
  }

  /** `x` is the sum of the first `i` groups of `s`, all of which announced another one, and the next weighs `weight`. */
  ghost predicate ReadSoFar(s: seq<byte>, i: nat, x: nat, weight: nat) {
    i <= |s| && weight == Pow128(i) && x == GroupSum(s, i) < weight && FirstStop(s, 0) == FirstStop(s, i)
  }

  lemma NoGroup(s: seq<byte>, maxLen: int, bound: nat)
    requires maxLen > 0
    ensures ReadSoFar(s, 0, 0, 1) && (s == [] ==> LebDecode(s, maxLen, bound) == (0, 0))
  {
  }

  lemma NextGroup(s: seq<byte>, i: nat, x: nat, weight: nat, x': nat, maxLen: int, bound: nat)
    requires i < |s| && i + 1 < maxLen && 128 * weight <= bound
    requires ReadSoFar(s, i, x, weight) && x' == x + Low7(s[i]) * weight
    ensures x' < 128 * weight
    ensures s[i] < 128 ==> LebDecode(s, maxLen, bound) == (x', i + 1)
    ensures s[i] >= 128 ==> ReadSoFar(s, i + 1, x', 128 * weight)
    ensures s[i] >= 128 && |s| == i + 1 ==> LebDecode(s, maxLen, bound) == (0, 0)
  {
    ShiftScales(Low7(s[i]), i);
    GroupSumBound(s, i + 1);
  }

  lemma ScaleUp(a: int, b: int, weight: nat)
    requires a <= b
    ensures a * weight <= b * weight
  {
  }

  lemma LastGroup(s: seq<byte>, i: nat, x: nat, weight: nat, maxLen: int, q: nat, bound: nat)
    requires i < |s| && i + 1 == maxLen && q <= 128 && bound == q * weight
    requires ReadSoFar(s, i, x, weight)
    ensures s[i] < q ==> x + s[i] as int * weight < bound
    ensures LebDecode(s, maxLen, bound) == if s[i] < q then (x + s[i] as int * weight, i + 1) else (0, -maxLen)
  {
    var b: int := s[i];
    ShiftScales(Low7(s[i]), i);
    if b < q {
      ScaleUp(b + 1, q, weight);
    } else {
      ScaleUp(q, b, weight);
    }
  }

  method Uvarint(s: seq<byte>) returns (x: uint32, n: int)
    ensures (x, n) == LebDecode32(s)
  {
    hide ReadSoFar, LebDecode;
    NoGroup(s, 5, 0x1_0000_0000);
    if |s| < 1 { return 0, 0; }
    x := Low7(s[0]);
    NextGroup(s, 0, 0, 1, x, 5, 0x1_0000_0000);
    if s[0] < 128 { return x, 1; } else if |s| < 2 { return 0, 0; }
    ghost var x1 := x;
    x := x + Low7(s[1]) * 0x80;
    NextGroup(s, 1, x1, 0x80, x, 5, 0x1_0000_0000);
    if s[1] < 128 { return x, 2; } else if |s| < 3 { return 0, 0; }
    ghost var x2 := x;
    x := x + Low7(s[2]) * 0x4000;
    NextGroup(s, 2, x2, 0x4000, x, 5, 0x1_0000_0000);
    if s[2] < 128 { return x, 3; } else if |s| < 4 { return 0, 0; }
    ghost var x3 := x;
    x := x + Low7(s[3]) * 0x20_0000;
    NextGroup(s, 3, x3, 0x20_0000, x, 5, 0x1_0000_0000);
    if s[3] < 128 { return x, 4; } else if |s| < 5 { return 0, 0; }
    LastGroup(s, 4, x, 0x1000_0000, 5, 16, 0x1_0000_0000);
    if s[4] <= 0x0f { return x + s[4] as int * 0x1000_0000, 5; }
    return 0, -5;
  }

  method Uvarlong(s: seq<byte>) returns (x: uint64, n: int)
    ensures (x, n) == LebDecode64(s)
  {
    hide ReadSoFar, LebDecode;
    NoGroup(s, 10, 0x1_0000_0000_0000_0000);
    if |s| < 1 { return 0, 0; }
    x := Low7(s[0]);
    NextGroup(s, 0, 0, 1, x, 10, 0x1_0000_0000_0000_0000);
    if s[0] < 128 { return x, 1; } else if |s| < 2 { return 0, 0; }
    ghost var x1 := x;
    x := x + Low7(s[1]) * 0x80;
    NextGroup(s, 1, x1, 0x80, x, 10, 0x1_0000_0000_0000_0000);
    if s[1] < 128 { return x, 2; } else if |s| < 3 { return 0, 0; }
    ghost var x2 := x;
    x := x + Low7(s[2]) * 0x4000;
    NextGroup(s, 2, x2, 0x4000, x, 10, 0x1_0000_0000_0000_0000);
    if s[2] < 128 { return x, 3; } else if |s| < 4 { return 0, 0; }
    ghost var x3 := x;
    x := x + Low7(s[3]) * 0x20_0000;
    NextGroup(s, 3, x3, 0x20_0000, x, 10, 0x1_0000_0000_0000_0000);
    if s[3] < 128 { return x, 4; } else if |s| < 5 { return 0, 0; }
    ghost var x4 := x;
    x := x + Low7(s[4]) * 0x1000_0000;
    NextGroup(s, 4, x4, 0x1000_0000, x, 10, 0x1_0000_0000_0000_0000);
    if s[4] < 128 { return x, 5; } else if |s| < 6 { return 0, 0; }
    x, n := UvarlongHigh(s, x);
  }

  /** The second half of `Uvarlong`: the groups from the sixth byte on. */
  method UvarlongHigh(s: seq<byte>, low: uint64) returns (x: uint64, n: int)
    requires |s| >= 6 && ReadSoFar(s, 5, low, 0x8_0000_0000)
    ensures (x, n) == LebDecode64(s)
  {
    hide LebDecode, GroupSum, FirstStop, Pow128;
    x := low;
    ghost var x5 := x;
    x := x + Low7(s[5]) * 0x8_0000_0000;
    NextGroup(s, 5, x5, 0x8_0000_0000, x, 10, 0x1_0000_0000_0000_0000);
    if s[5] < 128 { return x, 6; } else if |s| < 7 { return 0, 0; }
    ghost var x6 := x;
    x := x + Low7(s[6]) * 0x400_0000_0000;
    NextGroup(s, 6, x6, 0x400_0000_0000, x, 10, 0x1_0000_0000_0000_0000);
    if s[6] < 128 { return x, 7; } else if |s| < 8 { return 0, 0; }
    ghost var x7 := x;
    x := x + Low7(s[7]) * 0x2_0000_0000_0000;
    NextGroup(s, 7, x7, 0x2_0000_0000_0000, x, 10, 0x1_0000_0000_0000_0000);
    if s[7] < 128 { return x, 8; } else if |s| < 9 { return 0, 0; }
    ghost var x8 := x;
    x := x + Low7(s[8]) * 0x100_0000_0000_0000;
    NextGroup(s, 8, x8, 0x100_0000_0000_0000, x, 10, 0x1_0000_0000_0000_0000);
    if s[8] < 128 { return x, 9; } else if |s| < 10 { return 0, 0; }
    LastGroup(s, 9, x, 0x8000_0000_0000_0000, 10, 2, 0x1_0000_0000_0000_0000);
    if s[9] <= 0x01 { return x + s[9] as int * 0x8000_0000_0000_0000, 10; }
    return 0, -10;
  }

  // ---------------------------------------------------------------------
  // The unrolled encoders
  // ---------------------------------------------------------------------

  lemma {:induction false} DivDiv(u: nat, p: nat)
    requires p > 0
    ensures u / 128 / p == u / (128 * p)
  {
    var q, r := u / 128 / p, u / 128 % p;
    assert u == 128 * p * q + (128 * r + u % 128);
    assert 128 * r + u % 128 < 128 * p;
    DivUnique(u, 128 * p, q, 128 * r + u % 128);
  }

  lemma DivUnique(u: nat, d: nat, q: nat, r: nat)
    requires u == d * q + r && r < d
    ensures u / d == q
  {
    assert u - u / d * d == u % d;
    if u / d < q { ScaleUp(u / d + 1, q, d); }
    if u / d > q { ScaleUp(q + 1, u / d, d); }
  }

  lemma {:induction false} LebLength(u: nat, n: nat)
    requires n >= 1 && u < Pow128(n) && (n == 1 || Pow128(n - 1) <= u)
    ensures |Leb(u)| == n
  {
    if n > 1 { LebLength(u / 128, n - 1); }
  }

  lemma {:induction false} LebByte(u: nat, n: nat, i: nat)
    requires i < n == |Leb(u)|
    ensures Leb(u)[i] == if i < n - 1 then u / Pow128(i) % 128 + 128 else u / Pow128(i)
  {
    if i > 0 {
      LebByte(u / 128, n - 1, i - 1);
      DivDiv(u, Pow128(i - 1));
    }
  }

  /** The `n` bytes of `Leb(u)`, each read off `u` directly. */
  lemma LebGroups(u: nat, n: nat)
    requires n >= 1 && u < Pow128(n) && (n == 1 || Pow128(n - 1) <= u)
    ensures |Leb(u)| == n
    ensures forall i :: 0 <= i < n ==>
      Leb(u)[i] == if i < n - 1 then u / Pow128(i) % 128 + 128 else u / Pow128(i)
  {
    LebLength(u, n);
    forall i | 0 <= i < n
      ensures Leb(u)[i] == if i < n - 1 then u / Pow128(i) % 128 + 128 else u / Pow128(i)
    {
      LebByte(u, n, i);
    }
  }

  method AppendUvarint(dst: seq<byte>, u: uint32) returns (r: seq<byte>)
    ensures r == dst + Leb(u)
  {
    PowersOf128();
    LebGroups(u, UvarintLen(u));
    match UvarintLen(u)
    case 5 => r := dst + [u % 128 + 128, u / 0x80 % 128 + 128, u / 0x4000 % 128 + 128, u / 0x20_0000 % 128 + 128, u / 0x1000_0000];
    case 4 => r := dst + [u % 128 + 128, u / 0x80 % 128 + 128, u / 0x4000 % 128 + 128, u / 0x20_0000];
    case 3 => r := dst + [u % 128 + 128, u / 0x80 % 128 + 128, u / 0x4000];
    case 2 => r := dst + [u % 128 + 128, u / 0x80];
    case 1 => r := dst + [u];
  }

  method AppendUvarlong(dst: seq<byte>, u: uint64) returns (r: seq<byte>)
    ensures r == dst + Leb(u)
  {
    PowersOf128();
    LebGroups(u, UvarlongLen(u));
    match UvarlongLen(u)
    case 1 => r := dst + [u];
    case 2 => r := dst + [u % 128 + 128, u / 0x80];
    case 3 => r := dst + [u % 128 + 128, u / 0x80 % 128 + 128, u / 0x4000];
    case 4 => r := dst + [u % 128 + 128, u / 0x80 % 128 + 128, u / 0x4000 % 128 + 128, u / 0x20_0000];
    case 5 => r := dst + [u % 128 + 128, u / 0x80 % 128 + 128, u / 0x4000 % 128 + 128, u / 0x20_0000 % 128 + 128,
                           u / 0x1000_0000];
    case _ => r := AppendLongUvarlong(dst, u);
  }

  /** The cases of `AppendUvarlong` that need more than five bytes. */
  method AppendLongUvarlong(dst: seq<byte>, u: uint64) returns (r: seq<byte>)
    requires UvarlongLen(u) > 5
    ensures r == dst + Leb(u)
  {
    PowersOf128();
    LebGroups(u, UvarlongLen(u));
    match UvarlongLen(u)
    case 7 => r := dst + [u % 128 + 128, u / 0x80 % 128 + 128, u / 0x4000 % 128 + 128, u / 0x20_0000 % 128 + 128,
                           u / 0x1000_0000 % 128 + 128, u / 0x8_0000_0000 % 128 + 128, u / 0x400_0000_0000];
    case 6 => r := dst + [u % 128 + 128, u / 0x80 % 128 + 128, u / 0x4000 % 128 + 128, u / 0x20_0000 % 128 + 128,
                           u / 0x1000_0000 % 128 + 128, u / 0x8_0000_0000];
    case _ => r := AppendLongestUvarlong(dst, u);
  }

  /** The cases of `AppendUvarlong` that need more than seven bytes. */
  method AppendLongestUvarlong(dst: seq<byte>, u: uint64) returns (r: seq<byte>)
    requires UvarlongLen(u) > 7
    ensures r == dst + Leb(u)
  {
    hide Leb, Pow128;
    PowersOf128();
    LebGroups(u, UvarlongLen(u));
    match UvarlongLen(u)
    case 10 => r := dst + [u % 128 + 128, u / 0x80 % 128 + 128, u / 0x4000 % 128 + 128, u / 0x20_0000 % 128 + 128,
                           u / 0x1000_0000 % 128 + 128, u / 0x8_0000_0000 % 128 + 128, u / 0x400_0000_0000 % 128 + 128, u / 0x2_0000_0000_0000 % 128 + 128,
                           u / 0x100_0000_0000_0000 % 128 + 128, u / 0x8000_0000_0000_0000];
    case 9 => r := dst + [u % 128 + 128, u / 0x80 % 128 + 128, u / 0x4000 % 128 + 128, u / 0x20_0000 % 128 + 128,
                           u / 0x1000_0000 % 128 + 128, u / 0x8_0000_0000 % 128 + 128, u / 0x400_0000_0000 % 128 + 128, u / 0x2_0000_0000_0000 % 128 + 128,
                           u / 0x100_0000_0000_0000];
    case 8 => r := dst + [u % 128 + 128, u / 0x80 % 128 + 128, u / 0x4000 % 128 + 128, u / 0x20_0000 % 128 + 128,
                           u / 0x1000_0000 % 128 + 128, u / 0x8_0000_0000 % 128 + 128, u / 0x400_0000_0000 % 128 + 128, u / 0x2_0000_0000_0000];
  }

  // ---------------------------------------------------------------------
  // Reading back what was written
  // ---------------------------------------------------------------------

  lemma {:induction false} GroupSumTail(s: seq<byte>, n: nat)
    requires 1 <= n <= |s|
    ensures GroupSum(s, n) == Low7(s[0]) + 128 * GroupSum(s[1..], n - 1)
  {
    if n > 1 { GroupSumTail(s, n - 1); }
  }

  lemma {:induction false} LebSum(u: nat, rest: seq<byte>)
    ensures |Leb(u)| >= 1 && GroupSum(Leb(u) + rest, |Leb(u)|) == u
    ensures FirstStop(Leb(u) + rest, 0) == |Leb(u)| - 1
  {
    var s := Leb(u) + rest;
    GroupSumTail(s, |Leb(u)|);
    if u >= 128 {
      assert s[1..] == Leb(u / 128) + rest;
      LebSum(u / 128, rest);
      StopTail(s, 1);
    }
  }

  lemma {:induction false} StopTail(s: seq<byte>, i: nat)
    requires 1 <= i <= |s|
    ensures FirstStop(s, i) == FirstStop(s[1..], i - 1) + 1
    decreases |s| - i
  {
    if i < |s| { StopTail(s, i + 1); }
  }

  lemma LebLen(u: uint64)
    ensures |Leb(u)| == UvarlongLen(u)
  {
    LebGroups(u, UvarlongLen(u));
  }

  /** Decoding inverts encoding, whatever follows the encoding. */
  lemma LebRoundTrip32(u: uint32, rest: seq<byte>)
    ensures 1 <= |Leb(u)| <= 5
    ensures LebDecode32(Leb(u) + rest) == (u, |Leb(u)|)
  {
    LebLen(u);
    LebSum(u, rest);
    assert UvarintLen(u) <= 5;
  }

  lemma LebRoundTrip64(u: uint64, rest: seq<byte>)
    ensures 1 <= |Leb(u)| <= 10
    ensures LebDecode64(Leb(u) + rest) == (u, |Leb(u)|)
  {
    LebLen(u);
    LebSum(u, rest);
  }

  lemma {:induction false} Pow128Monotone(a: nat, b: nat)
    requires a <= b
    ensures Pow128(a) <= Pow128(b)
  {
    if a < b { Pow128Monotone(a, b - 1); }
  }

  /** Whatever bytes decode to `u`, they are at least as many as the length table says. */
  lemma ShortestEncoding(s: seq<byte>, u: uint64, n: int)
    requires n > 0 && (LebDecode64(s) == (u, n) || LebDecode32(s) == (u, n))
    ensures UvarlongLen(u) <= n
  {
    GroupSumBound(s, n);
    if UvarlongLen(u) > n { Pow128Monotone(n, UvarlongLen(u) - 1); }
  }

  // ---------------------------------------------------------------------
  // Signed numbers
  // ---------------------------------------------------------------------

  function Signed32(u: uint32): int32 { if u >= 0x8000_0000 then u - 0x1_0000_0000 else u }

  function Signed64(u: uint64): int64 { if u >= 0x8000_0000_0000_0000 then u - 0x1_0000_0000_0000_0000 else u }

  /** `uint32(i)<<1 ^ uint32(i>>31)`: the second operand is all ones for a negative `i`, and zero otherwise. */
  function ZigZag32(i: int32): uint32 {
    var shifted := 2 * (i as int) % 0x1_0000_0000;
    if i < 0 then 0xffff_ffff - shifted else shifted
  }

  function ZigZag64(i: int64): uint64 {
    var shifted := 2 * (i as int) % 0x1_0000_0000_0000_0000;
    if i < 0 then 0xffff_ffff_ffff_ffff - shifted else shifted
  }

  /** `int32((x >> 1) ^ -(x & 1))`. */
  function UnZigZag32(x: uint32): int32 {
    Signed32(if x % 2 == 1 then 0xffff_ffff - x / 2 else x / 2)
  }

  function UnZigZag64(x: uint64): int64 {
    Signed64(if x % 2 == 1 then 0xffff_ffff_ffff_ffff - x / 2 else x / 2)
  }

  /** The two maps are inverse, and numbers of small magnitude get small codes. */
  lemma ZigZagBijection32(i: int32, x: uint32)
    ensures UnZigZag32(ZigZag32(i)) == i && ZigZag32(UnZigZag32(x)) == x
    ensures ZigZag32(i) == if i >= 0 then 2 * i else -2 * i - 1
  {
    if i < 0 { assert 2 * (i as int) % 0x1_0000_0000 == 2 * (i as int) + 0x1_0000_0000; }
  }

  lemma ZigZagBijection64(i: int64, x: uint64)
    ensures UnZigZag64(ZigZag64(i)) == i && ZigZag64(UnZigZag64(x)) == x
    ensures ZigZag64(i) == if i >= 0 then 2 * i else -2 * i - 1
  {
    if i < 0 { assert 2 * (i as int) % 0x1_0000_0000_0000_0000 == 2 * (i as int) + 0x1_0000_0000_0000_0000; }
  }
}
