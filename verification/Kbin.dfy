/**
 The primitive encodings and the `Reader` of `pkg/kbin/primitives.go`.

 `Source` is the value of a reader: the unread bytes and whether the reader has
 been invalidated. The functions on it say what each read returns and leaves;
 the methods of the class `Reader` do the reads in place.
 */
module Kbin {
  import opened Wrappers
  import opened Varints

  // ---------------------------------------------------------------------
  // Fixed-width big-endian numbers
  // ---------------------------------------------------------------------

  function Pow256(w: nat): (p: nat)
    ensures p >= 1
  {
    if w == 0 then 1 else 256 * Pow256(w - 1)
  }

  function BigEndian(n: nat, w: nat): (s: seq<byte>)
    ensures |s| == w
  {
    if w == 0 then [] else BigEndian(n / 256, w - 1) + [n % 256]
  }

  function BigEndianValue(s: seq<byte>): nat {
    if s == [] then 0 else 256 * BigEndianValue(s[..|s| - 1]) + s[|s| - 1]
  }

  lemma {:induction false} BigEndianRoundTrip(n: nat, w: nat)
    requires n < Pow256(w)
    ensures BigEndianValue(BigEndian(n, w)) == n
  {
    if w > 0 { BigEndianRoundTrip(n / 256, w - 1); }
  }

  lemma DivTwice(n: nat, p: nat)
    requires p > 0
    ensures n / 256 / p == n / (256 * p)
  {
    var q, r := n / 256 / p, n / 256 % p;
    assert n == 256 * p * q + (256 * r + n % 256);
    assert 256 * r + n % 256 < 256 * p;
    DivUnique(n, 256 * p, q, 256 * r + n % 256);
  }

  /** Each byte read off the number directly: the most significant one comes first. */
  lemma {:induction false} BigEndianByte(n: nat, w: nat, k: nat)
    requires k < w
    ensures BigEndian(n, w)[k] == n / Pow256(w - 1 - k) % 256
  {
    if k < w - 1 {
      BigEndianByte(n / 256, w - 1, k);
      DivTwice(n, Pow256(w - 2 - k));
    }
  }

  lemma Widths()
    ensures Pow256(1) == 0x100 && Pow256(2) == 0x1_0000
    ensures Pow256(4) == 0x1_0000_0000 && Pow256(8) == 0x1_0000_0000_0000_0000
  {
    assert Pow256(3) == 0x100_0000;
    assert Pow256(6) == 0x1_0000_0000_0000;
  }

  /** A word of `2 * half` values read as a signed number. */
  function Signed(u: nat, half: nat): int { if u >= half then u - 2 * half else u }

  // ---------------------------------------------------------------------
  // Numbers
  // ---------------------------------------------------------------------

  datatype IntKind = I8 | I16 | U16 | I32 | U32 | I64 | Var32 | Var64

  predicate InRange(k: IntKind, i: int) {
    match k
    case I8 => -0x80 <= i < 0x80
    case I16 => -0x8000 <= i < 0x8000
    case U16 => 0 <= i < 0x1_0000
    case I32 => -0x8000_0000 <= i < 0x8000_0000
    case Var32 => -0x8000_0000 <= i < 0x8000_0000
    case U32 => 0 <= i < 0x1_0000_0000
    case I64 => -0x8000_0000_0000_0000 <= i < 0x8000_0000_0000_0000
    case Var64 => -0x8000_0000_0000_0000 <= i < 0x8000_0000_0000_0000
  }

  /** `AppendInt8`, `AppendInt16`, ..., `AppendVarlong`, without the bytes they append to. */
  function EncodeInt(k: IntKind, i: int): seq<byte>
    requires InRange(k, i)
  {
    match k
    case I8 => BigEndian(i % 0x100, 1)
    case I16 => BigEndian(i % 0x1_0000, 2)
    case U16 => BigEndian(i, 2)
    case I32 => BigEndian(i % 0x1_0000_0000, 4)
    case U32 => BigEndian(i, 4)
    case I64 => BigEndian(i % 0x1_0000_0000_0000_0000, 8)
    case Var32 => Leb(ZigZag32(i))
    case Var64 => Leb(ZigZag64(i))
  }

  datatype Source = Source(src: seq<byte>, bad: bool)

  const Invalid := Source([], true)

  function ReadFixed(r: Source, w: nat): (nat, Source) {
    if |r.src| < w then (0, Invalid) else (BigEndianValue(r.src[..w]), r.(src := r.src[w..]))
  }

  function ReadUvarint(r: Source): (nat, Source) {
    var (v, n) := LebDecode32(r.src);
    if n <= 0 then (0, Invalid) else (v, r.(src := r.src[n..]))
  }

  function ReadUvarlong(r: Source): (nat, Source) {
    var (v, n) := LebDecode64(r.src);
    if n <= 0 then (0, Invalid) else (v, r.(src := r.src[n..]))
  }

  function ReadInt(k: IntKind, r: Source): (int, Source) {
    match k
    case I8 => var (u, r') := ReadFixed(r, 1); (Signed(u, 0x80), r')
    case I16 => var (u, r') := ReadFixed(r, 2); (Signed(u, 0x8000), r')
    case U16 => ReadFixed(r, 2)
    case I32 => var (u, r') := ReadFixed(r, 4); (Signed(u, 0x8000_0000), r')
    case U32 => ReadFixed(r, 4)
    case I64 => var (u, r') := ReadFixed(r, 8); (Signed(u, 0x8000_0000_0000_0000), r')
    case Var32 => var (u, r') := ReadUvarint(r); (if u < 0x1_0000_0000 then UnZigZag32(u) else 0, r')
    case Var64 => var (u, r') := ReadUvarlong(r); (if u < 0x1_0000_0000_0000_0000 then UnZigZag64(u) else 0, r')
  }

  lemma ReadFixedBack(n: nat, w: nat, rest: seq<byte>)
    requires n < Pow256(w)
    ensures ReadFixed(Source(BigEndian(n, w) + rest, false), w) == (n, Source(rest, false))
  {
    BigEndianRoundTrip(n, w);
    var s := BigEndian(n, w) + rest;
    assert s[..w] == BigEndian(n, w) && s[w..] == rest;
  }

  lemma ReadSignedBack(i: int, w: nat, half: nat, rest: seq<byte>)
    requires 0 <= i + half < 2 * half == Pow256(w)
    ensures var (u, r) := ReadFixed(Source(BigEndian(i % (2 * half), w) + rest, false), w);
      Signed(u, half) == i && r == Source(rest, false)
  {
    ReadFixedBack(i % (2 * half), w, rest);
    Congruent(i, 2 * half);
  }

  lemma Congruent(i: int, m: nat)
    requires 0 <= i + m && i < m && m > 0
    ensures i % m == if i < 0 then i + m else i
  {
  }

  lemma ReadUvarintBack(u: uint32, rest: seq<byte>)
    ensures ReadUvarint(Source(Leb(u) + rest, false)) == (u, Source(rest, false))
  {
    LebRoundTrip32(u, rest);
    assert (Leb(u) + rest)[|Leb(u)|..] == rest;
  }

  lemma ReadUvarlongBack(u: uint64, rest: seq<byte>)
    ensures ReadUvarlong(Source(Leb(u) + rest, false)) == (u, Source(rest, false))
  {
    LebRoundTrip64(u, rest);
    assert (Leb(u) + rest)[|Leb(u)|..] == rest;
  }

  /** Every number of every kind reads back as itself, whatever follows it. */
  lemma ReadIntBack(k: IntKind, i: int, rest: seq<byte>)
    requires InRange(k, i)
    ensures |EncodeInt(k, i)| >= 1
    ensures ReadInt(k, Source(EncodeInt(k, i) + rest, false)) == (i, Source(rest, false))
  {
    Widths();
    match k
    case I8 => ReadSignedBack(i, 1, 0x80, rest);
    case I16 => ReadSignedBack(i, 2, 0x8000, rest);
    case U16 => ReadFixedBack(i, 2, rest);
    case I32 => ReadSignedBack(i, 4, 0x8000_0000, rest);
    case U32 => ReadFixedBack(i, 4, rest);
    case I64 => ReadSignedBack(i, 8, 0x8000_0000_0000_0000, rest);
    case Var32 => ReadVarintBack(i, rest);
    case Var64 => ReadVarlongBack(i, rest);
  }

  lemma PresenceByte(p: byte, i: int)
    requires InRange(I8, i) && i % 0x100 == p
    ensures EncodeInt(I8, i) == [p]
  {
    assert BigEndian(p, 1) == BigEndian(p / 256, 0) + [p % 256];
  }

  lemma ReadVarintBack(i: int32, rest: seq<byte>)
    ensures |EncodeInt(Var32, i)| >= 1
    ensures ReadInt(Var32, Source(EncodeInt(Var32, i) + rest, false)) == (i, Source(rest, false))
  {
    ZigZagBijection32(i, 0);
    LebRoundTrip32(ZigZag32(i), rest);
    ReadUvarintBack(ZigZag32(i), rest);
  }

  lemma ReadVarlongBack(i: int64, rest: seq<byte>)
    ensures |EncodeInt(Var64, i)| >= 1
    ensures ReadInt(Var64, Source(EncodeInt(Var64, i) + rest, false)) == (i, Source(rest, false))
  {
    ZigZagBijection64(i, 0);
    LebRoundTrip64(ZigZag64(i), rest);
    ReadUvarlongBack(ZigZag64(i), rest);
  }

  // ---------------------------------------------------------------------
  // Length prefixes, strings and bytes
  // ---------------------------------------------------------------------

  /** How a length is written: an int16, an int32, a uvarint of the length plus one, or a varint. */
  datatype LenKind = Len16 | Len32 | LenCompact | LenVarint

  /** The lengths that survive the conversion to the width of the prefix; -1 stands for nil. */
  predicate LenFits(k: LenKind, l: int) {
    -1 <= l &&
    match k
    case Len16 => l < 0x8000
    case Len32 => l < 0x8000_0000
    case LenCompact => l < 0xffff_ffff
    case LenVarint => l < 0x8000_0000
  }

  function EncodeLen(k: LenKind, l: int): seq<byte>
    requires l >= -1
  {
    match k
    case Len16 => BigEndian(l % 0x1_0000, 2)
    case Len32 => BigEndian(l % 0x1_0000_0000, 4)
    case LenCompact => Leb((l + 1) % 0x1_0000_0000)
    case LenVarint => Leb(ZigZag32(Signed32(l % 0x1_0000_0000)))
  }

  function ReadLen(k: LenKind, r: Source): (int, Source) {
    match k
    case Len16 => ReadInt(I16, r)
    case Len32 => ReadInt(I32, r)
    case LenCompact => var (u, r') := ReadUvarint(r); (u - 1, r')
    case LenVarint => ReadInt(Var32, r)
  }

  lemma ReadLenBack(k: LenKind, l: int, rest: seq<byte>)
    requires LenFits(k, l)
    ensures |EncodeLen(k, l)| >= 1
    ensures ReadLen(k, Source(EncodeLen(k, l) + rest, false)) == (l, Source(rest, false))
  {
    match k
    case Len16 => ReadIntBack(I16, l, rest);
    case Len32 => ReadIntBack(I32, l, rest);
    case LenCompact => ReadCompactLenBack(l, rest);
    case LenVarint => ReadVarintLenBack(l, rest);
  }

  lemma ReadCompactLenBack(l: int, rest: seq<byte>)
    requires LenFits(LenCompact, l)
    ensures |EncodeLen(LenCompact, l)| >= 1
    ensures ReadLen(LenCompact, Source(EncodeLen(LenCompact, l) + rest, false)) == (l, Source(rest, false))
  {
    var u: uint32 := l + 1;
    Congruent(u, 0x1_0000_0000);
    LebRoundTrip32(u, rest);
    ReadUvarintBack(u, rest);
  }

  lemma ReadVarintLenBack(l: int, rest: seq<byte>)
    requires LenFits(LenVarint, l)
    ensures |EncodeLen(LenVarint, l)| >= 1
    ensures ReadLen(LenVarint, Source(EncodeLen(LenVarint, l) + rest, false)) == (l, Source(rest, false))
  {
    assert Signed32(l % 0x1_0000_0000) == l by { Congruent(l, 0x1_0000_0000); }
    ReadIntBack(Var32, l, rest);
  }

  /**
   `Span`: nil and an invalid reader when fewer than `l` bytes are left or `l` is
   negative. An invalidated reader's slice is nil, and so are the no bytes of it.
   */
  function ReadSpan(r: Source, l: int): (Option<seq<byte>>, Source) {
    if |r.src| < l || l < 0 then (None, Invalid)
    else (if r == Invalid then None else Some(r.src[..l]), r.(src := r.src[l..]))
  }

  function OrEmpty(b: Option<seq<byte>>): seq<byte> { if b.Some? then b.value else [] }

  /** `String`, `CompactString`: never nil. */
  function ReadString(k: LenKind, r: Source): (seq<byte>, Source) {
    var (l, r1) := ReadLen(k, r);
    var (b, r2) := ReadSpan(r1, l);
    (OrEmpty(b), r2)
  }

  /** `NullableString`, `CompactNullableString`: nil for a negative length, and otherwise not nil even on failure. */
  function ReadNullableString(k: LenKind, r: Source): (Option<seq<byte>>, Source) {
    var (l, r1) := ReadLen(k, r);
    if l < 0 then (None, r1) else
    var (b, r2) := ReadSpan(r1, l);
    (Some(OrEmpty(b)), r2)
  }

  /** `Bytes`, `CompactBytes`: a length of -1 reads as empty. */
  function ReadBytes(k: LenKind, r: Source): (Option<seq<byte>>, Source) {
    var (l, r1) := ReadLen(k, r);
    if l == -1 then (Some([]), r1) else ReadSpan(r1, l)
  }

  /** `NullableBytes`, `CompactNullableBytes`, `VarintBytes`. */
  function ReadNullableBytes(k: LenKind, r: Source): (Option<seq<byte>>, Source) {
    var (l, r1) := ReadLen(k, r);
    if l < 0 then (None, r1) else ReadSpan(r1, l)
  }

  lemma ReadSpanBack(b: seq<byte>, rest: seq<byte>)
    ensures ReadSpan(Source(b + rest, false), |b|) == (Some(b), Source(rest, false))
  {
    assert (b + rest)[..|b|] == b && (b + rest)[|b|..] == rest;
  }

  lemma ReadSizedBack(k: LenKind, b: seq<byte>, rest: seq<byte>)
    requires LenFits(k, |b|)
    ensures ReadString(k, Source(EncodeLen(k, |b|) + b + rest, false)) == (b, Source(rest, false))
    ensures ReadNullableString(k, Source(EncodeLen(k, |b|) + b + rest, false)) == (Some(b), Source(rest, false))
    ensures ReadBytes(k, Source(EncodeLen(k, |b|) + b + rest, false)) == (Some(b), Source(rest, false))
    ensures ReadNullableBytes(k, Source(EncodeLen(k, |b|) + b + rest, false)) == (Some(b), Source(rest, false))
  {
    assert EncodeLen(k, |b|) + b + rest == EncodeLen(k, |b|) + (b + rest);
    ReadLenBack(k, |b|, b + rest);
    ReadSpanBack(b, rest);
  }

  // ---------------------------------------------------------------------
  // Array lengths
  // ---------------------------------------------------------------------

  /** `ArrayLen`, `VarintArrayLen`, `CompactArrayLen`: more elements than bytes left invalidates the reader. */
  function ReadArrayLen(k: LenKind, r: Source): (int, Source) {
    var (l, r1) :=
      if k == LenCompact then
        var (u, r1) := ReadUvarint(r);
        (if u == 0x8000_0000 then 0x7fff_ffff else Signed(u, 0x8000_0000) - 1, r1)
      else ReadLen(k, r);
    if |r1.src| < l then (0, Invalid) else (l, r1)
  }

  /** An array length reads back if and only if at least that many bytes follow it. */
  lemma ReadArrayLenBack(k: LenKind, l: int, rest: seq<byte>)
    requires k != Len16 && -1 <= l < 0x8000_0000
    ensures ReadArrayLen(k, Source(EncodeLen(k, l) + rest, false)) ==
            if |rest| < l then (0, Invalid) else (l, Source(rest, false))
  {
    ReadLenBack(k, l, rest);
  }

  // ---------------------------------------------------------------------
  // An invalidated reader
  // ---------------------------------------------------------------------

  /**
   An invalidated reader stays invalidated, and every read gives the default of
   its type, with three exceptions to what the type's documentation says: a
   compact array length is -1, a nullable string that is not compact is empty
   and not nil, and compact bytes are empty and not nil.
   */
  lemma InvalidatedReads(k: IntKind, l: int)
    ensures ReadInt(k, Invalid) == (0, Invalid) && ReadFixed(Invalid, 1) == (0, Invalid)
    ensures ReadUvarint(Invalid) == (0, Invalid) && ReadUvarlong(Invalid) == (0, Invalid)
    ensures ReadSpan(Invalid, l) == (None, Invalid)
    ensures ReadString(Len16, Invalid) == ([], Invalid) && ReadString(LenCompact, Invalid) == ([], Invalid)
    ensures ReadNullableString(Len16, Invalid) == (Some([]), Invalid)
    ensures ReadNullableString(LenCompact, Invalid) == (None, Invalid)
    ensures ReadBytes(Len32, Invalid) == (None, Invalid) && ReadBytes(LenCompact, Invalid) == (Some([]), Invalid)
    ensures ReadNullableBytes(Len32, Invalid) == (None, Invalid)
    ensures ReadNullableBytes(LenCompact, Invalid) == (None, Invalid)
    ensures ReadNullableBytes(LenVarint, Invalid) == (None, Invalid)
    ensures ReadArrayLen(Len32, Invalid) == (0, Invalid) && ReadArrayLen(LenVarint, Invalid) == (0, Invalid)
    ensures ReadArrayLen(LenCompact, Invalid) == (-1, Invalid)
  {
  }
}
