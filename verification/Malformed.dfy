/**
 What the decoders make of input that no encoder produced: a message cut short
 anywhere is refused, and so on for lengths, presence bytes and tags.
 */
module Malformed {
  import opened Wrappers
  import opened Varints
  import opened Kbin
  import opened Schema
  import opened Codec
  import opened RoundTrip
  import opened Messages

  // ---------------------------------------------------------------------
  // A read that succeeds does not look at what follows
  // ---------------------------------------------------------------------

  function More(r: Source, x: seq<byte>): Source { r.(src := r.src + x) }

  /** If the read left the reader valid, it was valid before, and with more input it returns the same and leaves more. */
  ghost predicate Stable<T>(r: Source, x: seq<byte>, short: (T, Source), long: (T, Source)) {
    !short.1.bad ==> !r.bad && long == (short.0, More(short.1, x))
  }

  lemma FixedStable(r: Source, w: nat, x: seq<byte>)
    ensures Stable(r, x, ReadFixed(r, w), ReadFixed(More(r, x), w))
  {
    if |r.src| >= w { assert (r.src + x)[..w] == r.src[..w] && (r.src + x)[w..] == r.src[w..] + x; }
  }

  lemma {:induction false} SumStable(s: seq<byte>, x: seq<byte>, n: nat)
    requires n <= |s|
    ensures GroupSum(s + x, n) == GroupSum(s, n)
  {
    if n > 0 { SumStable(s, x, n - 1); }
  }

  lemma {:induction false} StopStable(s: seq<byte>, x: seq<byte>, i: nat)
    requires i <= |s| && FirstStop(s, i) < |s|
    ensures FirstStop(s + x, i) == FirstStop(s, i)
    decreases |s| - i
  {
    if s[i] >= 128 { StopStable(s, x, i + 1); }
  }

  lemma LebStable(s: seq<byte>, x: seq<byte>, maxLen: int, bound: nat)
    requires maxLen >= 0 && LebDecode(s, maxLen, bound).1 > 0
    ensures LebDecode(s, maxLen, bound).1 <= |s|
    ensures LebDecode(s + x, maxLen, bound) == LebDecode(s, maxLen, bound)
  {
    StopStable(s, x, 0);
    SumStable(s, x, FirstStop(s, 0) + 1);
  }

  lemma UvarintStable(r: Source, x: seq<byte>)
    ensures Stable(r, x, ReadUvarint(r), ReadUvarint(More(r, x)))
  {
    var n := LebDecode32(r.src).1;
    if n > 0 {
      LebStable(r.src, x, 5, 0x1_0000_0000);
      assert (r.src + x)[n..] == r.src[n..] + x;
    }
  }

  lemma UvarlongStable(r: Source, x: seq<byte>)
    ensures Stable(r, x, ReadUvarlong(r), ReadUvarlong(More(r, x)))
  {
    var n := LebDecode64(r.src).1;
    if n > 0 {
      LebStable(r.src, x, 10, 0x1_0000_0000_0000_0000);
      assert (r.src + x)[n..] == r.src[n..] + x;
    }
  }

  lemma IntStable(k: IntKind, r: Source, x: seq<byte>)
    ensures Stable(r, x, ReadInt(k, r), ReadInt(k, More(r, x)))
  {
    hide ReadFixed, ReadUvarint, ReadUvarlong;
    match k
    case I8 => FixedStable(r, 1, x);
    case I16 => FixedStable(r, 2, x);
    case U16 => FixedStable(r, 2, x);
    case I32 => FixedStable(r, 4, x);
    case U32 => FixedStable(r, 4, x);
    case I64 => FixedStable(r, 8, x);
    case Var32 => UvarintStable(r, x);
    case Var64 => UvarlongStable(r, x);
  }

  lemma LenStable(k: LenKind, r: Source, x: seq<byte>)
    ensures Stable(r, x, ReadLen(k, r), ReadLen(k, More(r, x)))
  {
    hide ReadInt, ReadUvarint;
    IntStable(I16, r, x);
    IntStable(I32, r, x);
    IntStable(Var32, r, x);
    UvarintStable(r, x);
  }

  lemma SpanStable(r: Source, l: int, x: seq<byte>)
    ensures Stable(r, x, ReadSpan(r, l), ReadSpan(More(r, x), l))
  {
    if 0 <= l <= |r.src| { assert (r.src + x)[..l] == r.src[..l] && (r.src + x)[l..] == r.src[l..] + x; }
  }

  lemma SizedStable(k: LenKind, r: Source, x: seq<byte>)
    ensures Stable(r, x, ReadString(k, r), ReadString(k, More(r, x)))
    ensures Stable(r, x, ReadNullableString(k, r), ReadNullableString(k, More(r, x)))
    ensures Stable(r, x, ReadBytes(k, r), ReadBytes(k, More(r, x)))
    ensures Stable(r, x, ReadNullableBytes(k, r), ReadNullableBytes(k, More(r, x)))
  {
    hide ReadLen, ReadSpan;
    LenStable(k, r, x);
    var (l, r1) := ReadLen(k, r);
    SpanStable(r1, l, x);
  }

  lemma BytesStable(t: Type, version: int, flexible: bool, r: Source, x: seq<byte>)
    ensures Stable(r, x, DecodeBytes(t, version, flexible, r), DecodeBytes(t, version, flexible, More(r, x)))
  {
    hide ReadString, ReadNullableString, ReadBytes, ReadNullableBytes, NilAllowed, LengthKind;
    SizedStable(LengthKind(t, flexible), r, x);
  }

  lemma ArrayLenStable(k: LenKind, r: Source, x: seq<byte>)
    ensures Stable(r, x, ReadArrayLen(k, r), ReadArrayLen(k, More(r, x)))
  {
    hide ReadLen, ReadUvarint;
    LenStable(k, r, x);
    UvarintStable(r, x);
  }

  // ---------------------------------------------------------------------
  // The same of decoding, by induction over the schema
  // ---------------------------------------------------------------------

  /** Decoding ended without an error and left the reader valid. */
  predicate Clean<T>(s: Step<T>) { s.Done? && !s.r.bad }

  ghost predicate Steady<T>(r: Source, x: seq<byte>, short: Step<T>, long: Step<T>) {
    Clean(short) ==> !r.bad && long == Done(short.v, More(short.r, x))
  }

  lemma {:induction false} DecodeSteady(t: Type, version: int, flexible: bool, r: Source, x: seq<byte>)
    ensures Steady(r, x, Decode(t, version, flexible, r), Decode(t, version, flexible, More(r, x)))
    decreases t, 4, 0
  {
    match t
    case BoolT(_) => FixedStable(r, 1, x);
    case IntT(kind, _) => IntStable(kind, r, x);
    case UuidT => SpanStable(r, 16, x);
    case ArrayT(_, _, _, _, _) => ArraySteady(t, version, flexible, r, x);
    case StructT(nullable, _, _) =>
      if nullable {
        PresenceSteady(t, version, flexible, r, x);
      } else {
        StructSteady(t, version, flexible, r, x);
      }
    case _ => BytesStable(t, version, flexible, r, x);
  }

  lemma {:induction false} PresenceSteady(t: Type, version: int, flexible: bool, r: Source, x: seq<byte>)
    requires t.StructT? && t.nullable
    ensures Steady(r, x, Decode(t, version, flexible, r), Decode(t, version, flexible, More(r, x)))
    decreases t, 3, 1
  {
    hide ReadInt, DecodeStruct;
    IntStable(I8, r, x);
    StructSteady(t, version, flexible, ReadInt(I8, r).1, x);
  }

  lemma {:induction false} ArraySteady(t: Type, version: int, flexible: bool, r: Source, x: seq<byte>)
    requires t.ArrayT?
    ensures Steady(r, x, Decode(t, version, flexible, r), Decode(t, version, flexible, More(r, x)))
    decreases t, 3, 0
  {
    hide ReadArrayLen, DecodeElems, LengthKind;
    var k := LengthKind(t, flexible);
    ArrayLenStable(k, r, x);
    var (l, r1) := ReadArrayLen(k, r);
    ElemsSteady(t.inner, version, flexible, if l > 0 then l else 0, r1, x);
  }

  lemma {:induction false} ElemsSteady(inner: Type, version: int, flexible: bool, n: nat, r: Source, x: seq<byte>)
    ensures Steady(r, x, DecodeElems(inner, version, flexible, n, r), DecodeElems(inner, version, flexible, n, More(r, x)))
    decreases inner, 5, n
  {
    if n > 0 {
      DecodeSteady(inner, version, flexible, r, x);
      var d := Decode(inner, version, flexible, r);
      if d.Done? { ElemsSteady(inner, version, flexible, n - 1, d.r, x); }
    }
  }

  lemma {:induction false} StructSteady(t: Type, version: int, flexible: bool, r: Source, x: seq<byte>)
    requires t.StructT?
    ensures Steady(r, x, DecodeStruct(t, version, flexible, r), DecodeStruct(t, version, flexible, More(r, x)))
    decreases t, 3, 0
  {
    if t.fields != [] {
      FieldsSteady(t, version, flexible, 0, InitialFields(t), r, x);
      var d := DecodeFields(t, version, flexible, 0, InitialFields(t), r);
      if d.Done? {
        RestSteady(t, version, flexible, d.v, d.r, x);
        StructIsRest(t, version, flexible, r);
        StructIsRest(t, version, flexible, More(r, x));
      }
    }
  }

  lemma StructIsRest(t: Type, version: int, flexible: bool, r: Source)
    requires t.StructT? && t.fields != []
    ensures var d := DecodeFields(t, version, flexible, 0, InitialFields(t), r);
      DecodeStruct(t, version, flexible, r) == if d.Failed? then Failed else DecodeRest(t, version, flexible, d.v, d.r)
  {
  }

  lemma {:induction false} RestSteady(t: Type, version: int, flexible: bool, vs: seq<Value>, r: Source, x: seq<byte>)
    requires t.StructT? && |vs| == |t.fields|
    ensures Steady(r, x, DecodeRest(t, version, flexible, vs, r), DecodeRest(t, version, flexible, vs, More(r, x)))
    decreases t, 2, 0
  {
    hide ReadUvarint, DecodeTags;
    UvarintStable(r, x);
    var (n, r2) := ReadUvarint(r);
    TagsSteady(t, version, flexible, n, vs, map[], r2, x);
  }

  lemma {:induction false} FieldsSteady(
      t: Type, version: int, flexible: bool, i: nat, vs: seq<Value>, r: Source, x: seq<byte>)
    requires t.StructT? && |vs| == |t.fields| && i <= |vs|
    ensures Steady(r, x, DecodeFields(t, version, flexible, i, vs, r), DecodeFields(t, version, flexible, i, vs, More(r, x)))
    decreases t, 1, |vs| - i
  {
    if i < |vs| {
      if Present(t.fields[i], version) {
        DecodeSteady(t.fields[i].typ, version, flexible, r, x);
        var d := DecodeField(t, version, flexible, i, r);
        if d.Done? { FieldsSteady(t, version, flexible, i + 1, vs[i := d.v], d.r, x); }
      } else {
        FieldsSteady(t, version, flexible, i + 1, vs, r, x);
      }
    }
  }

  lemma {:induction false} TagsSteady(
      t: Type, version: int, flexible: bool, n: nat, vs: seq<Value>, unknown: map<nat, seq<byte>>, r: Source, x: seq<byte>)
    requires t.StructT? && |vs| == |t.fields|
    ensures Steady(r, x, DecodeTags(t, version, flexible, n, vs, unknown, r),
                         DecodeTags(t, version, flexible, n, vs, unknown, More(r, x)))
    decreases n
  {
    hide DecodeTag;
    if n > 0 {
      TagSteady(t, version, flexible, vs, unknown, r, x);
      var d := DecodeTag(t, version, flexible, vs, unknown, r);
      if d.Done? { TagsSteady(t, version, flexible, n - 1, d.v.0, d.v.1, d.r, x); }
    }
  }

  lemma TagSteady(
      t: Type, version: int, flexible: bool, vs: seq<Value>, unknown: map<nat, seq<byte>>, r: Source, x: seq<byte>)
    requires t.StructT? && |vs| == |t.fields|
    ensures Steady(r, x, DecodeTag(t, version, flexible, vs, unknown, r),
                         DecodeTag(t, version, flexible, vs, unknown, More(r, x)))
  {
    hide ReadUvarint, ReadSpan, DecodeField, TagIndex, NumTags;
    UvarintStable(r, x);
    var (key, r1) := ReadUvarint(r);
    UvarintStable(r1, x);
    var (size, r2) := ReadUvarint(r1);
    SpanStable(r2, size, x);
  }

  // ---------------------------------------------------------------------
  // Messages cut short
  // ---------------------------------------------------------------------

  /** No proper beginning of an encoding decodes: it ends in an error or in an invalidated reader. */
  lemma PrefixFails(t: Type, version: int, flexible: bool, v: Value, n: nat)
    requires WellFormed(t) && (flexible ==> Sectioned(t)) && version >= 0
    requires Conforms(t, v) && Encodable(t, version, flexible, v) && n < |Encode(t, version, flexible, v)|
    ensures !Clean(Decode(t, version, flexible, Source(Encode(t, version, flexible, v)[..n], false)))
  {
    hide Encode, Decode, Project, WellFormed, Sectioned, Conforms, Encodable, Older;
    var all := Encode(t, version, flexible, v);
    OlderReflexive(t);
    DecodeBack(t, t, version, flexible, v, []);
    EmptyUnit(all);
    assert all[..n] + all[n..] == all;
    DecodeSteady(t, version, flexible, Source(all[..n], false), all[n..]);
  }

  /** A message that carries its version is decoded at that version, and too short a one is refused. */
  lemma ReadsAtItsVersion(m: Message, other: int, src: seq<byte>)
    requires ValidMessage(m) && m.withVersionField
    ensures var (ver, r) := ReadInt(I16, Source(src, false));
      if |src| < 2 then ReadFrom(m, other, src) == Err(())
      else ReadFrom(m, other, src) == Complete(Decode(m.body, ver, IsFlexible(m, ver), Source(src, false)))
  {
    var t, start := m.body, InitialFields(m.body);
    var (ver, r) := ReadInt(I16, Source(src, false));
    var flexible := IsFlexible(m, ver);
    FieldsSteady(t, ver, flexible, 1, start[0 := IntV(ver)], r, []);
    var d := DecodeFields(t, ver, flexible, 1, start[0 := IntV(ver)], r);
    if d.Done? { RestSteady(t, ver, flexible, d.v, d.r, []); }
    if |src| >= 2 { VersionField(m, src); }
  }

  lemma VersionField(m: Message, src: seq<byte>)
    requires ValidMessage(m) && m.withVersionField && |src| >= 2
    ensures var (ver, r) := ReadInt(I16, Source(src, false));
      var flexible, start := IsFlexible(m, ver), InitialFields(m.body);
      var d := DecodeFields(m.body, ver, flexible, 1, start[0 := IntV(ver)], r);
      Decode(m.body, ver, flexible, Source(src, false)) ==
      if d.Failed? then Failed else DecodeRest(m.body, ver, flexible, d.v, d.r)
  {
    var (ver, r) := ReadInt(I16, Source(src, false));
    var flexible, start := IsFlexible(m, ver), InitialFields(m.body);
    StructIsRest(m.body, ver, flexible, Source(src, false));
    assert DecodeField(m.body, ver, flexible, 0, Source(src, false)) == Done(IntV(ver), r);
  }

  /** `ReadFrom` refuses every message that has been cut short, wherever the cut is. */
  lemma Truncated(m: Message, version: int, v: Value, other: int, n: nat)
    requires ValidMessage(m) && ValidValue(m, version, v) && (!m.withVersionField ==> other == version)
    requires IsFlexible(m, version) ==> Sectioned(m.body)
    requires n < |Encode(m.body, version, IsFlexible(m, version), v)|
    ensures ReadFrom(m, other, Encode(m.body, version, IsFlexible(m, version), v)[..n]) == Err(())
  {
    var flexible := IsFlexible(m, version);
    var all := Encode(m.body, version, flexible, v);
    PrefixFails(m.body, version, flexible, v, n);
    if m.withVersionField {
      ReadsAtItsVersion(m, other, all[..n]);
      if n >= 2 { SameVersion(m, version, v, n); }
    }
  }

  lemma SameVersion(m: Message, version: int, v: Value, n: nat)
    requires ValidMessage(m) && m.withVersionField && ValidValue(m, version, v)
    requires 2 <= n <= |Encode(m.body, version, IsFlexible(m, version), v)|
    ensures ReadInt(I16, Source(Encode(m.body, version, IsFlexible(m, version), v)[..n], false)).0 == version
  {
    var flexible := IsFlexible(m, version);
    var all := Encode(m.body, version, flexible, v);
    var after := EncodeFields(m.body, version, flexible, v.fields, 1)
      + (if m.body.fromFlexible && flexible then EncodeTags(m.body, version, flexible, v) else []) + [];
    VersionFirst(m, version, v, [], after);
    EmptyUnit(all);
    var rest := after[..n - 2];
    assert all[..n] == EncodeInt(I16, version) + rest;
    ReadIntBack(I16, version, rest);
  }

  // ---------------------------------------------------------------------
  // Bytes that no encoder writes
  // ---------------------------------------------------------------------

  /** Any byte but 0 is true, and a nullable struct is nil for 255 and follows any other byte. */
  lemma AnyByte(b: byte, t: Type, version: int, flexible: bool, rest: seq<byte>)
    requires t.StructT? && t.nullable
    ensures Decode(BoolT(false), version, flexible, Source([b] + rest, false)) == Done(BoolV(b != 0), Source(rest, false))
    ensures Decode(t, version, flexible, Source([b] + rest, false)) ==
      if b == 255 then Done(NilV, Source(rest, false)) else DecodeStruct(t, version, flexible, Source(rest, false))
  {
    var s := [b] + rest;
    assert s[..1] == [b] && s[1..] == rest;
    assert BigEndianValue([b]) == b;
  }

  /** A negative length, as an int16 in a string, an int32 in a slice or an array, and a varint in a record. */
  function NegativeLength(t: Type, l: int): seq<byte>
    requires -0x8000 <= l < 0
  {
    if t.StringT? || t.NullableStringT? then BigEndian(l + 0x1_0000, 2)
    else if t.VarintStringT? || t.VarintBytesT? || (t.ArrayT? && t.varint) then Leb(-2 * l - 1)
    else BigEndian(l + 0x1_0000_0000, 4)
  }

  lemma ReadsNegative(t: Type, version: int, l: int, rest: seq<byte>)
    requires -0x8000 <= l < 0 && (IsBytesLike(t) || t.ArrayT?)
    ensures ReadLen(LengthKind(t, false), Source(NegativeLength(t, l) + rest, false)) == (l, Source(rest, false))
  {
    hide ReadInt, BigEndian, Leb;
    ZigZagBijection32(l, 0);
    Congruent(l, 0x1_0000);
    Congruent(l, 0x1_0000_0000);
    ReadIntBack(I16, l, rest);
    ReadIntBack(I32, l, rest);
    ReadIntBack(Var32, l, rest);
  }

  /**
   A negative length is nil where nil can be meant, and the empty string in a
   record. In a slice that is not nullable -1 is the empty slice. Everything
   else invalidates the reader.
   */
  lemma NegativeBytes(t: Type, version: nat, l: int, rest: seq<byte>)
    requires IsBytesLike(t) && -0x8000 <= l < 0
    ensures var d := Decode(t, version, false, Source(NegativeLength(t, l) + rest, false));
      d.Done? && d.v.BytesV? &&
      if t.NullableBytesT? || t.VarintBytesT? || (t.NullableStringT? && version >= t.nullableVersion) then
        d == Done(BytesV(None), Source(rest, false))
      else if t.VarintStringT? || (t.BytesT? && l == -1) then d == Done(BytesV(Some([])), Source(rest, false))
      else d.r == Invalid
  {
    hide ReadLen, NegativeLength, LengthKind;
    ReadsNegative(t, version, l, rest);
  }

  /** An array of negative length is nil, or empty if it is nullable and the version cannot say nil. */
  lemma NegativeArray(t: Type, version: int, l: int, rest: seq<byte>)
    requires t.ArrayT? && -0x8000 <= l < 0
    ensures Decode(t, version, false, Source(NegativeLength(t, l) + rest, false)) ==
      Done(ArrayV(if !t.varint && t.nullable && version < t.nullableVersion then Some([]) else None), Source(rest, false))
  {
    hide ReadLen, NegativeLength;
    ReadsNegative(t, version, l, rest);
  }

  /**
   One entry of a tag section. Its bytes are decoded by themselves: if they do
   not make a value the message is refused, and what they have too much is
   ignored. A later entry replaces an earlier one of the same tag.
   */
  lemma AnyTag(
      t: Type, version: int, vs: seq<Value>, unknown: map<nat, seq<byte>>, key: uint32, body: seq<byte>, rest: seq<byte>)
    requires t.StructT? && |vs| == |t.fields| && |body| < 0x1_0000_0000
    ensures
      var s := DecodeTag(t, version, true, vs, unknown, Source(Leb(key) + Leb(|body|) + body + rest, false));
      var i := TagIndex(t.fields, key);
      if key < NumTags(t) && i < |vs| then
        var d := Decode(t.fields[i].typ, version, true, Source(body, false));
        if Clean(d) then s == Done((vs[i := d.v], unknown), Source(rest, false)) else s == Failed
      else s == Done((vs, unknown[key := body]), Source(rest, false))
  {
    hide ReadUvarint, ReadSpan, Leb, Decode, TagIndex, NumTags;
    Reassociates(Leb(key), Leb(|body|), body, rest);
    ReadUvarintBack(key, Leb(|body|) + (body + rest));
    ReadUvarintBack(|body|, body + rest);
    ReadSpanBack(body, rest);
  }

  lemma Reassociates(a: seq<byte>, b: seq<byte>, c: seq<byte>, d: seq<byte>)
    ensures a + b + c + d == a + (b + (c + d))
  {
  }
}
