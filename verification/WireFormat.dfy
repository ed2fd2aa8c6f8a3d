/**
 The wire format in numbers: which fields travel at a version, what prefix a
 length gets and where nil survives. Nothing here is stated through the gates
 that the encoder and the decoder share.
 */
module WireFormat {
  import opened Wrappers
  import opened Varints
  import opened Kbin
  import opened Schema
  import opened Codec
  import opened RoundTrip
  import opened Messages

  // ---------------------------------------------------------------------
  // Versions
  // ---------------------------------------------------------------------

  /** The range of versions that the schema gives a field; without a greatest version it is open. */
  predicate InVersions(f: Field, version: int) {
    f.minVersion <= version && (f.maxVersion == -1 || version <= f.maxVersion)
  }

  /**
   A field with a version range decodes, inside the range, to what its value
   decodes to by itself. Outside, and without a tag, it is what the struct held
   before decoding: the default, or zero in a nullable struct.
   */
  lemma FieldTravels(t: Type, version: int, flexible: bool, v: Value, i: nat)
    requires t.StructT? && v.StructV? && WellFormed(t) && (flexible ==> Sectioned(t)) && version >= 0
    requires Conforms(t, v) && Encodable(t, version, flexible, v)
    requires i < |t.fields| && t.fields[i].minVersion >= 0
    ensures var f, w := t.fields[i], Decoded(t, version, flexible, v);
      w.StructV? && |w.fields| == |t.fields| &&
      (InVersions(f, version) ==> w.fields[i] == Decoded(f.typ, version, flexible, v.fields[i])) &&
      (!InVersions(f, version) && f.tag < 0 ==> w.fields[i] == if t.nullable then Zero(f.typ) else Default(f.typ))
  {
    DecodedIsProjected(t, version, flexible, v);
    if InVersions(t.fields[i], version) {
      assert Carried(t, version, flexible, v.fields, i);
      DecodedIsProjected(t.fields[i].typ, version, flexible, v.fields[i]);
    }
  }

  /** The bytes of the fields from `i` on: those of field `i` inside its range of versions, and none outside. */
  lemma FieldBytes(t: Type, version: int, flexible: bool, vs: seq<Value>, i: nat)
    requires t.StructT? && WellFormed(t) && version >= 0 && FieldsConform(t, vs) && i < |vs|
    ensures EncodeFields(t, version, flexible, vs, i) ==
      (if t.fields[i].minVersion >= 0 && InVersions(t.fields[i], version)
       then Encode(t.fields[i].typ, version, flexible, vs[i]) else [])
      + EncodeFields(t, version, flexible, vs, i + 1)
  {
  }

  /** The sizes of the fields from `i` on that are in their range of versions, added up. */
  ghost function SizeOfFields(t: Type, version: int, flexible: bool, vs: seq<Value>, i: nat): nat
    requires t.StructT? && FieldsConform(t, vs) && i <= |vs|
    decreases |vs| - i
  {
    if i == |vs| then 0 else
    (if t.fields[i].minVersion >= 0 && InVersions(t.fields[i], version)
     then |Encode(t.fields[i].typ, version, flexible, vs[i])| else 0)
    + SizeOfFields(t, version, flexible, vs, i + 1)
  }

  lemma {:induction false} FieldsSize(t: Type, version: int, flexible: bool, vs: seq<Value>, i: nat)
    requires t.StructT? && WellFormed(t) && version >= 0 && FieldsConform(t, vs) && i <= |vs|
    ensures |EncodeFields(t, version, flexible, vs, i)| == SizeOfFields(t, version, flexible, vs, i)
    decreases |vs| - i
  {
    if i < |vs| {
      FieldsSize(t, version, flexible, vs, i + 1);
      FieldBytes(t, version, flexible, vs, i);
    }
  }

  /** A struct without a tag section is exactly as long as its fields in range, and its presence byte if it is nullable. */
  lemma StructSize(t: Type, version: int, flexible: bool, v: Value)
    requires t.StructT? && v.StructV? && WellFormed(t) && version >= 0 && Conforms(t, v)
    requires !(t.fromFlexible && flexible)
    ensures |Encode(t, version, flexible, v)| ==
      (if t.nullable then 1 else 0) + SizeOfFields(t, version, flexible, v.fields, 0)
  {
    FieldsSize(t, version, flexible, v.fields, 0);
  }

  /** One 32-bit number: four bytes inside its range of versions and none outside. */
  lemma OneNumber(lo: nat, hi: int, d: int, version: nat, i: int)
    requires hi >= -1 && InRange(I32, d) && InRange(I32, i)
    ensures var t, v := StructT(false, false, [Field(lo, hi, -1, IntT(I32, d))]), StructV([IntV(i)], map[]);
      WellFormed(t) && Conforms(t, v) &&
      var inside := lo <= version && (hi == -1 || version <= hi);
      |Encode(t, version, false, v)| == (if inside then 4 else 0) &&
      Decoded(t, version, false, v) == StructV([IntV(if inside then i else d)], map[])
  {
    var t, v := StructT(false, false, [Field(lo, hi, -1, IntT(I32, d))]), StructV([IntV(i)], map[]);
    assert WellFormed(IntT(I32, d)) && Conforms(IntT(I32, d), IntV(i));
    assert WellFormed(t) && Conforms(t, v);
    StructSize(t, version, false, v);
    OneDecoded(t, version, v);
  }

  lemma OneDecoded(t: Type, version: nat, v: Value)
    requires t.StructT? && !t.nullable && !t.fromFlexible && |t.fields| == 1 && WellFormed(t) && Conforms(t, v) && v.StructV?
    requires t.fields[0].tag < 0 && t.fields[0].typ.IntT? && t.fields[0].minVersion >= 0
    ensures Decoded(t, version, false, v) ==
      StructV([if InVersions(t.fields[0], version) then v.fields[0] else IntV(t.fields[0].typ.intDefault)], map[])
  {
    FieldTravels(t, version, false, v, 0);
    DecodedIsProjected(t, version, false, v);
    DecodedIsProjected(t.fields[0].typ, version, false, v.fields[0]);
  }

  // ---------------------------------------------------------------------
  // Prefixes
  // ---------------------------------------------------------------------

  /** A number of things as it is written before them: a uvarint of one more, or `width` bytes. */
  function Prefix(n: nat, compact: bool, width: nat): seq<byte> {
    if compact then Leb(n + 1) else BigEndian(n, width)
  }

  lemma LenFormat(k: LenKind, n: nat)
    requires LenFits(k, n)
    ensures k == Len16 ==> EncodeLen(k, n) == BigEndian(n, 2)
    ensures k == Len32 ==> EncodeLen(k, n) == BigEndian(n, 4)
    ensures k == LenCompact ==> EncodeLen(k, n) == Leb(n + 1)
    ensures k == LenVarint ==> EncodeLen(k, n) == Leb(2 * n)
  {
    hide Leb, BigEndian;
    if k == LenVarint { ZigZagBijection32(n, 0); }
  }

  /**
   A string or byte slice is a length and its bytes. Where the type is flexible
   and the message is, the length is a uvarint of one more; otherwise it has two
   bytes for a string and four for a slice. In a record it is a varint.
   */
  lemma SizedFormat(t: Type, version: int, flexible: bool, b: seq<byte>)
    requires IsBytesLike(t) && Encodable(t, version, flexible, BytesV(Some(b)))
    ensures var s := Encode(t, version, flexible, BytesV(Some(b)));
      if t.VarintStringT? || t.VarintBytesT? then s == Leb(2 * |b|) + b
      else s == Prefix(|b|, t.fromFlexible && flexible, if t.StringT? || t.NullableStringT? then 2 else 4) + b
  {
    hide Leb, BigEndian, EncodeLen;
    LenFormat(LengthKind(t, flexible), |b|);
  }

  /** The elements of an array follow their number, written as for a slice. */
  lemma ArrayFormat(t: Type, version: int, flexible: bool, v: Value)
    requires t.ArrayT? && Conforms(t, v) && v.elems.Some? && |Elems(v)| < 0x8000_0000
    ensures Encode(t, version, flexible, v) ==
      (if t.varint then Leb(2 * |Elems(v)|) else Prefix(|Elems(v)|, t.fromFlexible && flexible, 4))
      + EncodeElems(t.inner, version, flexible, Elems(v))
  {
    hide Leb, BigEndian, EncodeLen;
    LenFormat(LengthKind(t, flexible), |Elems(v)|);
  }

  /** Nil, where it has a form of its own, is the length -1. */
  lemma NilFormat(version: nat, flexible: bool, ff: bool, nv: nat, inner: Type)
    ensures Encode(NullableBytesT(ff), version, flexible, BytesV(None)) ==
      if ff && flexible then [0] else [255, 255, 255, 255]
    ensures version >= nv ==>
      Encode(NullableStringT(ff, nv), version, flexible, BytesV(None)) == (if ff && flexible then [0] else [255, 255])
    ensures version >= nv ==>
      Encode(ArrayT(inner, false, true, nv, ff), version, flexible, ArrayV(None)) ==
      (if ff && flexible then [0] else [255, 255, 255, 255])
    ensures Encode(VarintBytesT, version, flexible, BytesV(None)) == [1]
  {
    hide Leb, BigEndian, EncodeLen;
    MinusOne();
    EmptyUnit(EncodeLen(LengthKind(ArrayT(inner, false, true, nv, ff), flexible), -1));
  }

  lemma MinusOne()
    ensures EncodeLen(Len16, -1) == [255, 255] && EncodeLen(Len32, -1) == [255, 255, 255, 255]
    ensures EncodeLen(LenCompact, -1) == [0] && EncodeLen(LenVarint, -1) == [1]
  {
    ZigZagBijection32(-1, 0);
    assert BigEndian(0xff, 1) == [255];
    assert BigEndian(0xffff, 2) == [255, 255];
    assert BigEndian(0xff_ffff, 3) == [255, 255, 255];
  }

  /** A nullable struct that is nil is the byte 255, and any other begins with the byte 1. */
  lemma PresenceFormat(t: Type, version: int, flexible: bool, v: Value)
    requires t.StructT? && t.nullable && Conforms(t, v)
    ensures var s := Encode(t, version, flexible, v);
      if v.NilV? then s == [255] else |s| >= 1 && s[0] == 1
  {
  }

  // ---------------------------------------------------------------------
  // The tag section
  // ---------------------------------------------------------------------

  ghost predicate Ascending(es: seq<Entry>) {
    forall i, j :: 0 <= i < j < |es| ==> es[i].tag < es[j].tag
  }

  lemma {:induction false} KnownAscend(t: Type, version: int, vs: seq<Value>, k: nat)
    requires t.StructT? && FieldsConform(t, vs)
    ensures Between(KnownEntries(t, version, true, vs, k), k, NumTags(t))
    decreases NumTags(t) - k
  {
    hide Encode, Written, KnownEntries, Conforms, NumTags, Between;
    if k < NumTags(t) {
      KnownAscend(t, version, vs, k + 1);
      KnownUnfolds(t, version, vs, k);
      var i := TagIndex(t.fields, k);
      BetweenMore(if i < |vs| then Encode(t.fields[i].typ, version, true, vs[i]) else [],
                  KnownEntries(t, version, true, vs, k + 1), k, NumTags(t));
    } else {
      KnownNone(t, version, true, vs, k);
      NoneBetween(k, NumTags(t));
    }
  }

  ghost predicate Between(es: seq<Entry>, k: nat, n: nat) {
    Ascending(es) && forall e :: e in es ==> k <= e.tag < n
  }

  lemma BetweenMore(body: seq<byte>, es: seq<Entry>, k: nat, n: nat)
    requires k < n && Between(es, k + 1, n)
    ensures Between(es, k, n) && Between([Entry(k, body)] + es, k, n)
  {
    var all := [Entry(k, body)] + es;
    forall i, j | 0 <= i < j < |all| ensures all[i].tag < all[j].tag {
      assert all[j] == es[j - 1] && es[j - 1] in es;
    }
  }

  lemma NoneBetween(k: nat, n: nat)
    ensures Between([], k, n)
  {
  }

  lemma KnownUnfolds(t: Type, version: int, vs: seq<Value>, k: nat)
    requires t.StructT? && FieldsConform(t, vs) && k < NumTags(t)
    ensures var es, rest := KnownEntries(t, version, true, vs, k), KnownEntries(t, version, true, vs, k + 1);
      var i := TagIndex(t.fields, k);
      es == if i < |vs| && Written(t.fields[i].typ, version, vs[i])
            then [Entry(k, Encode(t.fields[i].typ, version, true, vs[i]))] + rest else rest
  {
  }

  lemma {:induction false} KnownHolds(t: Type, version: int, vs: seq<Value>, k: nat, j: nat)
    requires t.StructT? && FieldsConform(t, vs) && k <= j < NumTags(t)
    ensures var i, es := TagIndex(t.fields, j), KnownEntries(t, version, true, vs, k);
      i < |vs| && Written(t.fields[i].typ, version, vs[i]) ==>
        Entry(j, Encode(t.fields[i].typ, version, true, vs[i])) in es
    decreases j - k
  {
    hide Encode, Written, KnownEntries, Conforms, NumTags, TagSet;
    KnownUnfolds(t, version, vs, k);
    if k < j { KnownHolds(t, version, vs, k + 1, j); }
  }

  /** The entries are those of the map, each once and in increasing order. */
  ghost predicate Lists(es: seq<Entry>, m: map<nat, seq<byte>>) {
    Ascending(es) && (forall k :: k in m ==> Entry(k, m[k]) in es) &&
    forall e :: e in es ==> e.tag in m && e.body == m[e.tag]
  }

  lemma ListsMore(k: nat, es: seq<Entry>, m: map<nat, seq<byte>>)
    requires k in m && IsLeast(k, m.Keys) && Lists(es, m - {k})
    ensures Lists([Entry(k, m[k])] + es, m)
  {
    var all := [Entry(k, m[k])] + es;
    forall j | j in m ensures Entry(j, m[j]) in all {
      if j == k { assert all[0] == Entry(k, m[k]); } else { assert j in m - {k}; }
    }
    forall i, j | 0 <= i < j < |all| ensures all[i].tag < all[j].tag {
      assert all[j] == es[j - 1] && es[j - 1] in es;
    }
  }

  lemma {:induction false} UnknownAscend(unknown: map<nat, seq<byte>>)
    ensures Lists(UnknownEntries(unknown), unknown)
    decreases |unknown|
  {
    hide Lists, IsLeast;
    if unknown == map[] {
      NothingToList();
    } else {
      var k := Least(unknown.Keys);
      LeastIsIn(k, unknown.Keys);
      UnknownAscend(unknown - {k});
      ListsMore(k, UnknownEntries(unknown - {k}), unknown);
    }
  }

  lemma NothingToList()
    ensures Lists([], map[])
  {
  }

  lemma LeastIsIn(k: nat, keys: set<nat>)
    requires IsLeast(k, keys)
    ensures k in keys
  {
  }

  lemma AscendAcross(es: seq<Entry>, fs: seq<Entry>, n: nat)
    requires Ascending(es) && Ascending(fs)
    requires (forall e :: e in es ==> e.tag < n) && (forall e :: e in fs ==> n <= e.tag)
    ensures Ascending(es + fs)
  {
    var all := es + fs;
    forall i, j | 0 <= i < j < |all| ensures all[i].tag < all[j].tag {
      if i < |es| <= j { assert all[i] in es && all[j] in fs; }
    }
  }

  /**
   The tag section is a count and that many entries in increasing order of their
   tags. Among them is every tagged field that is written, with its own encoding,
   and every unknown tag with its bytes.
   */
  lemma TagSection(t: Type, version: int, v: Value) returns (es: seq<Entry>)
    requires t.StructT? && v.StructV? && FieldsConform(t, v.fields) && TagsInOrder(t.fields) && TagsFit(t, v)
    ensures EncodeTags(t, version, true, v) == Leb(|es|) + EncodeEntries(es) && Ascending(es)
    ensures forall k :: k in v.unknown ==> Entry(k, v.unknown[k]) in es
    ensures forall i :: 0 <= i < |t.fields| && t.fields[i].tag >= 0 && Written(t.fields[i].typ, version, v.fields[i]) ==>
      Entry(t.fields[i].tag, Encode(t.fields[i].typ, version, true, v.fields[i])) in es
  {
    hide Encode, KnownEntries, UnknownEntries, EncodeEntries, EncodeTags, Leb, Written;
    hide NumTags, TagSet, TagsInOrder, Ascending;
    var known, unknown := KnownEntries(t, version, true, v.fields, 0), UnknownEntries(v.unknown);
    es := known + unknown;
    SectionOf(t, version, v, es);
    KnownAscend(t, version, v.fields, 0);
    UnknownAscend(v.unknown);
    AscendAcross(known, unknown, NumTags(t));
    forall i | 0 <= i < |t.fields| && t.fields[i].tag >= 0 && Written(t.fields[i].typ, version, v.fields[i])
      ensures Entry(t.fields[i].tag, Encode(t.fields[i].typ, version, true, v.fields[i])) in es
    {
      TagHeld(t, version, v.fields, i);
    }
  }

  lemma SectionOf(t: Type, version: int, v: Value, es: seq<Entry>)
    requires t.StructT? && v.StructV? && FieldsConform(t, v.fields) && TagsFit(t, v)
    requires es == KnownEntries(t, version, true, v.fields, 0) + UnknownEntries(v.unknown)
    ensures EncodeTags(t, version, true, v) == Leb(|es|) + EncodeEntries(es)
  {
    hide KnownEntries, UnknownEntries, EncodeEntries, Leb, NumTags, Conforms;
    KnownCount(t, version, true, v.fields, 0);
    UnknownCount(v.unknown);
  }

  lemma TagHeld(t: Type, version: int, vs: seq<Value>, i: nat)
    requires t.StructT? && FieldsConform(t, vs) && TagsInOrder(t.fields) && i < |vs| && t.fields[i].tag >= 0
    requires Written(t.fields[i].typ, version, vs[i])
    ensures Entry(t.fields[i].tag, Encode(t.fields[i].typ, version, true, vs[i])) in KnownEntries(t, version, true, vs, 0)
  {
    hide Encode, Written, KnownEntries, Conforms, TagSet, TagsInOrder;
    TagIndexOf(t.fields, i);
    KnownHolds(t, version, vs, 0, t.fields[i].tag);
  }

  /** A message has a tag section, of at least one byte, exactly from its first flexible version on. */
  lemma FlexibleFrom(m: Message, version: int, v: Value)
    requires ValidMessage(m) && ValidValue(m, version, v) && m.body.fromFlexible
    ensures var flexible := m.flexibleAt >= 0 && version >= m.flexibleAt;
      |EncodeTags(m.body, version, true, v)| >= 1 &&
      |Encode(m.body, version, IsFlexible(m, version), v)| ==
      SizeOfFields(m.body, version, flexible, v.fields, 0) +
      (if flexible then |EncodeTags(m.body, version, true, v)| else 0)
  {
    hide KnownEntries, UnknownEntries, EncodeEntries;
    FieldsSize(m.body, version, IsFlexible(m, version), v.fields, 0);
  }

  // ---------------------------------------------------------------------
  // Nil and empty
  // ---------------------------------------------------------------------

  /** A nil string comes back as nil from its first nullable version on, and as the empty string before. */
  lemma NilString(ff: bool, nv: nat, version: nat, flexible: bool)
    ensures Decoded(NullableStringT(ff, nv), version, flexible, BytesV(None)) ==
      BytesV(if version >= nv then None else Some([]))
  {
    DecodedIsProjected(NullableStringT(ff, nv), version, flexible, BytesV(None));
  }

  /** A nil slice comes back as nil unless its type is not nullable, which gives the empty slice. */
  lemma NilBytes(t: Type, version: nat, flexible: bool)
    requires t.BytesT? || t.NullableBytesT? || t.VarintBytesT?
    ensures Decoded(t, version, flexible, BytesV(None)) == BytesV(if t.BytesT? then Some([]) else None)
  {
    DecodedIsProjected(t, version, flexible, BytesV(None));
  }

  /**
   An array of no elements comes back as nil unless it is nullable; a nullable
   one comes back as nil only where it was nil and its version can say so.
   */
  lemma NoElements(t: Type, version: nat, flexible: bool, v: Value)
    requires t.ArrayT? && WellFormed(t) && (flexible ==> Sectioned(t)) && v.ArrayV? && Elems(v) == []
    ensures Decoded(t, version, flexible, v) ==
      ArrayV(if !t.varint && t.nullable && (v.elems.Some? || version < t.nullableVersion) then Some([]) else None)
  {
    DecodedIsProjected(t, version, flexible, v);
  }
}
