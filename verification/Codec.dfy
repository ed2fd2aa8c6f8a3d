/**
 The wire format, and the meaning of the decoders that `generate/gen.go` emits.

 `Encode` defines the format by concatenation. What the emitted encoders do to
 their `dst` slice is in the module `Emitted`.
 */
module Codec {
  import opened Wrappers
  import opened Varints
  import opened Kbin
  import opened Schema

  // ---------------------------------------------------------------------
  // Strings and byte slices
  // ---------------------------------------------------------------------

  predicate IsBytesLike(t: Type) {
    t.StringT? || t.NullableStringT? || t.BytesT? || t.NullableBytesT? || t.VarintStringT? || t.VarintBytesT?
  }

  /** Nil has its own encoding. */
  predicate NilAllowed(t: Type, version: int) {
    match t
    case NullableStringT(_, nv) => !(nv > 0 && version < nv)
    case NullableBytesT(_) => true
    case VarintBytesT => true
    case ArrayT(_, varint, nullable, nv, _) => !varint && nullable && (nv == 0 || version >= nv)
    case _ => false
  }

  function LengthKind(t: Type, flexible: bool): LenKind {
    match t
    case StringT(ff) => if ff && flexible then LenCompact else Len16
    case NullableStringT(ff, _) => if ff && flexible then LenCompact else Len16
    case BytesT(ff) => if ff && flexible then LenCompact else Len32
    case NullableBytesT(ff) => if ff && flexible then LenCompact else Len32
    case ArrayT(_, varint, _, _, ff) => if varint then LenVarint else if ff && flexible then LenCompact else Len32
    case _ => LenVarint
  }

  function EncodeBytes(t: Type, version: int, flexible: bool, b: Option<seq<byte>>): seq<byte> {
    var k := LengthKind(t, flexible);
    if b == None && NilAllowed(t, version) then EncodeLen(k, -1)
    else EncodeLen(k, |OrEmpty(b)|) + OrEmpty(b)
  }

  function DecodeBytes(t: Type, version: int, flexible: bool, r: Source): (Option<seq<byte>>, Source) {
    var k := LengthKind(t, flexible);
    match t
    case NullableStringT(_, _) =>
      if NilAllowed(t, version) then ReadNullableString(k, r)
      else var (s, r') := ReadString(k, r); (Some(s), r')
    case BytesT(_) => ReadBytes(k, r)
    case NullableBytesT(_) => ReadNullableBytes(k, r)
    case VarintBytesT => ReadNullableBytes(k, r)
    case VarintStringT => var (b, r') := ReadNullableBytes(k, r); (Some(OrEmpty(b)), r')
    case _ => var (s, r') := ReadString(k, r); (Some(s), r')
  }

  // ---------------------------------------------------------------------
  // Encoding
  // ---------------------------------------------------------------------

  /** One element of a tag section. */
  datatype Entry = Entry(tag: nat, body: seq<byte>)

  function EncodeEntries(es: seq<Entry>): seq<byte> {
    if es == [] then []
    else Leb(es[0].tag % 0x1_0000_0000) + Leb(|es[0].body| % 0x1_0000_0000) + es[0].body + EncodeEntries(es[1..])
  }

  ghost function Least(keys: set<nat>): (m: nat)
    requires keys != {}
    ensures IsLeast(m, keys)
  {
    LeastExists(keys);
    var m :| IsLeast(m, keys);
    m
  }

  ghost predicate IsLeast(m: nat, keys: set<nat>) {
    m in keys && forall k :: k in keys ==> m <= k
  }

  lemma {:induction false} LeastExists(keys: set<nat>)
    requires keys != {}
    ensures exists m :: IsLeast(m, keys)
  {
    var x :| x in keys;
    var others := keys - {x};
    assert keys == others + {x};
    if others == {} {
      assert IsLeast(x, keys);
    } else {
      LeastExists(others);
      var m :| IsLeast(m, others);
      assert IsLeast(if x < m then x else m, keys);
    }
  }

  /** The unknown tags of a struct, in increasing order of their keys. */
  ghost function UnknownEntries(unknown: map<nat, seq<byte>>): seq<Entry>
    decreases |unknown|
  {
    if unknown == map[] then [] else
    var k := Least(unknown.Keys);
    [Entry(k, unknown[k])] + UnknownEntries(unknown - {k})
  }

  ghost function Encode(t: Type, version: int, flexible: bool, v: Value): seq<byte>
    requires Conforms(t, v)
    decreases t, 3, 0
  {
    match t
    case BoolT(_) => [if v.b then 1 else 0]
    case IntT(kind, _) => EncodeInt(kind, v.i)
    case UuidT => v.bytes.value
    case ArrayT(inner, _, _, _, _) =>
      EncodeLen(LengthKind(t, flexible), if v.elems == None && NilAllowed(t, version) then -1 else |Elems(v)|)
      + EncodeElems(inner, version, flexible, Elems(v))
    case StructT(nullable, fromFlexible, _) =>
      if v.NilV? then [255] else
      (if nullable then [1] else [])
      + EncodeFields(t, version, flexible, v.fields, 0)
      + (if fromFlexible && flexible then EncodeTags(t, version, flexible, v) else [])
    case _ => EncodeBytes(t, version, flexible, v.bytes)
  }

  ghost function EncodeElems(inner: Type, version: int, flexible: bool, vs: seq<Value>): seq<byte>
    requires forall i :: 0 <= i < |vs| ==> Conforms(inner, vs[i])
    decreases inner, 4, |vs|
  {
    if vs == [] then [] else Encode(inner, version, flexible, vs[0]) + EncodeElems(inner, version, flexible, vs[1..])
  }

  ghost predicate FieldsConform(t: Type, vs: seq<Value>)
    requires t.StructT?
  {
    |vs| == |t.fields| && forall i :: 0 <= i < |vs| ==> Conforms(t.fields[i].typ, vs[i])
  }

  ghost function EncodeFields(t: Type, version: int, flexible: bool, vs: seq<Value>, i: nat): seq<byte>
    requires t.StructT? && FieldsConform(t, vs) && i <= |vs|
    decreases t, 2, |vs| - i
  {
    if i == |vs| then [] else
    (if Present(t.fields[i], version) then Encode(t.fields[i].typ, version, flexible, vs[i]) else [])
    + EncodeFields(t, version, flexible, vs, i + 1)
  }

  /** The entries for the tags of the schema from `k` on. */
  ghost function KnownEntries(t: Type, version: int, flexible: bool, vs: seq<Value>, k: nat): seq<Entry>
    requires t.StructT? && FieldsConform(t, vs)
    decreases t, 1, NumTags(t) - k
  {
    if k >= NumTags(t) then [] else
    var i := TagIndex(t.fields, k);
    (if i < |vs| && Written(t.fields[i].typ, version, vs[i])
     then [Entry(k, Encode(t.fields[i].typ, version, flexible, vs[i]))] else [])
    + KnownEntries(t, version, flexible, vs, k + 1)
  }

  ghost function EncodeTags(t: Type, version: int, flexible: bool, v: Value): seq<byte>
    requires t.StructT? && v.StructV? && FieldsConform(t, v.fields)
    decreases t, 2, 0
  {
    var es := KnownEntries(t, version, flexible, v.fields, 0) + UnknownEntries(v.unknown);
    Leb(|es| % 0x1_0000_0000) + EncodeEntries(es)
  }

  // ---------------------------------------------------------------------
  // Decoding
  // ---------------------------------------------------------------------

  /** The emitted code either runs to its end, or returns an error on the way. */
  datatype Step<+T> = Done(v: T, r: Source) | Failed

  function Decode(t: Type, version: int, flexible: bool, r: Source): Step<Value>
    decreases t, 4, 0
  {
    match t
    case BoolT(_) => var (u, r') := ReadFixed(r, 1); Done(BoolV(u != 0), r')
    case IntT(kind, _) => var (i, r') := ReadInt(kind, r); Done(IntV(i), r')
    case UuidT =>
      var (b, r') := ReadSpan(r, 16);
      Done(if b.Some? then BytesV(b) else Zero(UuidT), r')
    case ArrayT(inner, varint, nullable, nv, _) =>
      var (l, r1) := ReadArrayLen(LengthKind(t, flexible), r);
      if r1.bad then Failed else
      var madeEmpty := !varint && nullable && (version < nv || l == 0);
      (match DecodeElems(inner, version, flexible, if l > 0 then l else 0, r1)
       case Failed => Failed
       case Done(vs, r2) => Done(ArrayV(if l > 0 || madeEmpty then Some(vs) else None), r2))
    case StructT(nullable, _, _) =>
      if nullable then
        var (present, r1) := ReadInt(I8, r);
        if present != -1 && !r1.bad then DecodeStruct(t, version, flexible, r1) else Done(NilV, r1)
      else DecodeStruct(t, version, flexible, r)
    case _ => var (b, r') := DecodeBytes(t, version, flexible, r); Done(BytesV(b), r')
  }

  function DecodeElems(inner: Type, version: int, flexible: bool, n: nat, r: Source): Step<seq<Value>>
    decreases inner, 5, n
  {
    if n == 0 then Done([], r) else
    match Decode(inner, version, flexible, r)
    case Failed => Failed
    case Done(v, r1) =>
      match DecodeElems(inner, version, flexible, n - 1, r1)
      case Failed => Failed
      case Done(vs, r2) => Done([v] + vs, r2)
  }

  /** A struct without fields gets no decoding code at all. */
  function DecodeStruct(t: Type, version: int, flexible: bool, r: Source): Step<Value>
    requires t.StructT?
    decreases t, 3, 0
  {
    if t.fields == [] then Done(StructV([], map[]), r) else
    match DecodeFields(t, version, flexible, 0, InitialFields(t), r)
    case Failed => Failed
    case Done(vs, r1) =>
      if !(t.fromFlexible && flexible) then Done(StructV(vs, map[]), r1) else
      var (n, r2) := ReadUvarint(r1);
      match DecodeTags(t, version, flexible, n, vs, map[], r2)
      case Failed => Failed
      case Done(all, r3) => Done(StructV(all.0, all.1), r3)
  }

  function DecodeFields(t: Type, version: int, flexible: bool, i: nat, vs: seq<Value>, r: Source): (s: Step<seq<Value>>)
    requires t.StructT? && |vs| == |t.fields| && i <= |vs|
    ensures s.Done? ==> |s.v| == |vs|
    decreases t, 2, |vs| - i
  {
    if i == |vs| then Done(vs, r)
    else if !Present(t.fields[i], version) then DecodeFields(t, version, flexible, i + 1, vs, r)
    else
      match DecodeField(t, version, flexible, i, r)
      case Failed => Failed
      case Done(v, r1) => DecodeFields(t, version, flexible, i + 1, vs[i := v], r1)
  }

  function DecodeField(t: Type, version: int, flexible: bool, i: nat, r: Source): Step<Value>
    requires t.StructT? && i < |t.fields|
    decreases t, 0, 0
  {
    Decode(t.fields[i].typ, version, flexible, r)
  }

  function DecodeTags(
      t: Type, version: int, flexible: bool, n: nat, vs: seq<Value>, unknown: map<nat, seq<byte>>, r: Source)
      : Step<(seq<Value>, map<nat, seq<byte>>)>
    requires t.StructT? && |vs| == |t.fields|
    decreases t, 2, n
  {
    if n == 0 then Done((vs, unknown), r) else
    match DecodeTag(t, version, flexible, vs, unknown, r)
    case Failed => Failed
    case Done(all, r1) => DecodeTags(t, version, flexible, n - 1, all.0, all.1, r1)
  }

  /** One turn of the tag loop; a tag of the schema is decoded by a reader of its own. */
  function DecodeTag(
      t: Type, version: int, flexible: bool, vs: seq<Value>, unknown: map<nat, seq<byte>>, r: Source)
      : (s: Step<(seq<Value>, map<nat, seq<byte>>)>)
    requires t.StructT? && |vs| == |t.fields|
    ensures s.Done? ==> |s.v.0| == |vs|
    decreases t, 1, 0
  {
    var (key, r1) := ReadUvarint(r);
    var (size, r2) := ReadUvarint(r1);
    var (body, r3) := ReadSpan(r2, size);
    var i := TagIndex(t.fields, key);
    if key < NumTags(t) && i < |vs| then
      match DecodeField(t, version, flexible, i, Source(OrEmpty(body), false))
      case Failed => Failed
      case Done(v, inner) => if inner.bad then Failed else Done((vs[i := v], unknown), r3)
    else Done((vs, unknown[key := OrEmpty(body)]), r3)
  }
}
