/**
 What the encoders emitted by `generate/gen.go` do to the slice they append to:
 fixed size prefixes for tags of fixed width, and for all other tags two passes
 over the same appending code, the first only to learn the size.
 */
module Emitted {
  import opened Wrappers
  import opened Varints
  import opened Kbin
  import opened Schema
  import opened Codec
  import opened RoundTrip
  import opened Messages

  ghost function Append(t: Type, version: int, flexible: bool, v: Value, dst: seq<byte>): seq<byte>
    requires Conforms(t, v)
    decreases t, 3, 0
  {
    match t
    case BoolT(_) => dst + [if v.b then 1 else 0]
    case IntT(kind, _) => dst + EncodeInt(kind, v.i)
    case UuidT => dst + v.bytes.value
    case ArrayT(inner, _, _, _, _) =>
      var l := if v.elems == None && NilAllowed(t, version) then -1 else |Elems(v)|;
      AppendElems(inner, version, flexible, Elems(v), dst + EncodeLen(LengthKind(t, flexible), l))
    case StructT(nullable, fromFlexible, _) =>
      if v.NilV? then dst + [255] else
      var d0 := if nullable then dst + [1] else dst;
      var d1 := AppendFields(t, version, flexible, v.fields, 0, d0);
      if fromFlexible && flexible then AppendTags(t, version, flexible, v, d1) else d1
    case _ => AppendBytes(t, version, flexible, v.bytes, dst)
  }

  function AppendBytes(t: Type, version: int, flexible: bool, b: Option<seq<byte>>, dst: seq<byte>): seq<byte> {
    var k := LengthKind(t, flexible);
    if b == None && NilAllowed(t, version) then dst + EncodeLen(k, -1)
    else dst + EncodeLen(k, |OrEmpty(b)|) + OrEmpty(b)
  }

  ghost function AppendElems(inner: Type, version: int, flexible: bool, vs: seq<Value>, dst: seq<byte>): seq<byte>
    requires forall i :: 0 <= i < |vs| ==> Conforms(inner, vs[i])
    decreases inner, 4, |vs|
  {
    if vs == [] then dst
    else AppendElems(inner, version, flexible, vs[1..], Append(inner, version, flexible, vs[0], dst))
  }

  ghost function AppendFields(t: Type, version: int, flexible: bool, vs: seq<Value>, i: nat, dst: seq<byte>): seq<byte>
    requires t.StructT? && FieldsConform(t, vs) && i <= |vs|
    decreases t, 2, |vs| - i
  {
    if i == |vs| then dst
    else if Present(t.fields[i], version) then
      AppendFields(t, version, flexible, vs, i + 1, Append(t.fields[i].typ, version, flexible, vs[i], dst))
    else AppendFields(t, version, flexible, vs, i + 1, dst)
  }

  /** The tags that differ from their defaults. */
  ghost function ToEncode(t: Type, version: int, vs: seq<Value>, k: nat): seq<nat>
    requires t.StructT? && FieldsConform(t, vs)
    decreases NumTags(t) - k
  {
    if k >= NumTags(t) then [] else
    var i := TagIndex(t.fields, k);
    (if i < |vs| && Written(t.fields[i].typ, version, vs[i]) then [k] else []) + ToEncode(t, version, vs, k + 1)
  }

  ghost function AppendTags(t: Type, version: int, flexible: bool, v: Value, dst: seq<byte>): seq<byte>
    requires t.StructT? && v.StructV? && FieldsConform(t, v.fields)
    decreases t, 2, 0
  {
    var toEncode := ToEncode(t, version, v.fields, 0);
    var d := AppendEach(t, version, flexible, v.fields, toEncode,
                        dst + Leb((|toEncode| + |v.unknown|) % 0x1_0000_0000));
    d + EncodeEntries(UnknownEntries(v.unknown))
  }

  ghost function AppendEach(
      t: Type, version: int, flexible: bool, vs: seq<Value>, tags: seq<nat>, dst: seq<byte>): seq<byte>
    requires t.StructT? && FieldsConform(t, vs)
    decreases t, 1, |tags|
  {
    if tags == [] then dst else
    var i := TagIndex(t.fields, tags[0]);
    var d := dst + Leb(tags[0] % 0x1_0000_0000);
    AppendEach(t, version, flexible, vs, tags[1..],
               if i < |vs| then AppendSized(t.fields[i].typ, version, flexible, vs[i], d) else d)
  }

  /** The size the generator writes as a constant or computes from the number; nothing for other types. */
  function FixedSize(t: Type, v: Value): Option<nat>
    requires t.IntT? ==> v.IntV? && InRange(t.kind, v.i)
  {
    match t
    case BoolT(_) => Some(1)
    case IntT(I8, _) => Some(1)
    case IntT(I16, _) => Some(2)
    case IntT(U16, _) => Some(2)
    case IntT(I32, _) => Some(4)
    case IntT(U32, _) => Some(4)
    case IntT(I64, _) => Some(8)
    case IntT(Var32, _) => Some(UvarintLen(ZigZag32(v.i)))
    case IntT(Var64, _) => Some(UvarlongLen(ZigZag64(v.i)))
    case UuidT => Some(16)
    case _ => None
  }

  /** A size and a body. In the second pass the body is appended after the size that the first pass found. */
  ghost function AppendSized(t: Type, version: int, flexible: bool, v: Value, dst: seq<byte>): seq<byte>
    requires Conforms(t, v)
    decreases t, 5, 0
  {
    match FixedSize(t, v)
    case Some(size) => Append(t, version, flexible, v, dst + Leb(size))
    case None =>
      var first := Append(t, version, flexible, v, dst);
      if |first| < |dst| then first else
      var lenAt := |dst|;
      var sized := first[..lenAt] + Leb(|first[lenAt..]| % 0x1_0000_0000);
      Append(t, version, flexible, v, sized)
  }

  // ---------------------------------------------------------------------
  // The emitted code appends the wire format, and touches nothing before it
  // ---------------------------------------------------------------------

  lemma {:induction false} AppendIsEncode(t: Type, version: int, flexible: bool, v: Value, dst: seq<byte>)
    requires Conforms(t, v)
    ensures Append(t, version, flexible, v, dst) == dst + Encode(t, version, flexible, v)
    decreases t, 3, 0
  {
    match t
    case ArrayT(inner, _, _, _, _) =>
      var l := if v.elems == None && NilAllowed(t, version) then -1 else |Elems(v)|;
      var len := EncodeLen(LengthKind(t, flexible), l);
      ElemsAppend(inner, version, flexible, Elems(v), dst + len);
      Assoc(dst, len, EncodeElems(inner, version, flexible, Elems(v)));
    case StructT(_, _, _) => if v.StructV? { StructAppend(t, version, flexible, v, dst); }
    case BoolT(_) =>
    case IntT(_, _) =>
    case UuidT =>
    case _ =>
      if !(v.bytes == None && NilAllowed(t, version)) {
        Assoc(dst, EncodeLen(LengthKind(t, flexible), |OrEmpty(v.bytes)|), OrEmpty(v.bytes));
      }
  }

  lemma {:induction false} ElemsAppend(inner: Type, version: int, flexible: bool, vs: seq<Value>, dst: seq<byte>)
    requires forall i :: 0 <= i < |vs| ==> Conforms(inner, vs[i])
    ensures AppendElems(inner, version, flexible, vs, dst) == dst + EncodeElems(inner, version, flexible, vs)
    decreases inner, 4, |vs|
  {
    if vs == [] {
      EmptyUnit(dst);
    } else {
      var first := Encode(inner, version, flexible, vs[0]);
      AppendIsEncode(inner, version, flexible, vs[0], dst);
      ElemsAppend(inner, version, flexible, vs[1..], dst + first);
      Assoc(dst, first, EncodeElems(inner, version, flexible, vs[1..]));
    }
  }

  lemma {:induction false} FieldsAppend(t: Type, version: int, flexible: bool, vs: seq<Value>, i: nat, dst: seq<byte>)
    requires t.StructT? && FieldsConform(t, vs) && i <= |vs|
    ensures AppendFields(t, version, flexible, vs, i, dst) == dst + EncodeFields(t, version, flexible, vs, i)
    decreases t, 1, |vs| - i
  {
    if i == |vs| {
      EmptyUnit(dst);
    } else {
      var later := EncodeFields(t, version, flexible, vs, i + 1);
      EmptyUnit(later);
      if Present(t.fields[i], version) {
        var first := Encode(t.fields[i].typ, version, flexible, vs[i]);
        AppendIsEncode(t.fields[i].typ, version, flexible, vs[i], dst);
        FieldsAppend(t, version, flexible, vs, i + 1, dst + first);
        Assoc(dst, first, later);
      } else {
        FieldsAppend(t, version, flexible, vs, i + 1, dst);
      }
    }
  }

  lemma FixedSizeIsRight(t: Type, version: int, flexible: bool, v: Value)
    requires Conforms(t, v) && FixedSize(t, v).Some?
    ensures FixedSize(t, v).value == |Encode(t, version, flexible, v)| <= 16
  {
    match t
    case IntT(Var32, _) => LebLen(ZigZag32(v.i));
    case IntT(Var64, _) => LebLen(ZigZag64(v.i));
    case _ =>
  }

  /** Both ways of sizing put the length of the body, modulo 2^32, in front of that same body. */
  lemma {:induction false} SizedAppend(t: Type, version: int, flexible: bool, v: Value, dst: seq<byte>)
    requires Conforms(t, v)
    ensures var body := Encode(t, version, flexible, v);
      AppendSized(t, version, flexible, v, dst) == dst + Leb(|body| % 0x1_0000_0000) + body
    decreases t, 5, 0
  {
    var body := Encode(t, version, flexible, v);
    var size := Leb(|body| % 0x1_0000_0000);
    AppendIsEncode(t, version, flexible, v, dst + size);
    if FixedSize(t, v).Some? {
      FixedSizeIsRight(t, version, flexible, v);
      OnePass(t, version, flexible, v, dst, |body|);
    } else {
      AppendIsEncode(t, version, flexible, v, dst);
      TwoPasses(t, version, flexible, v, dst, body, size);
    }
  }

  lemma OnePass(t: Type, version: int, flexible: bool, v: Value, dst: seq<byte>, n: nat)
    requires Conforms(t, v) && FixedSize(t, v) == Some(n) && n <= 16
    ensures AppendSized(t, version, flexible, v, dst) ==
            Append(t, version, flexible, v, dst + Leb(n % 0x1_0000_0000))
  {
    assert n % 0x1_0000_0000 == n;
  }

  lemma TwoPasses(
      t: Type, version: int, flexible: bool, v: Value, dst: seq<byte>, body: seq<byte>, size: seq<byte>)
    requires Conforms(t, v) && FixedSize(t, v).None? && size == Leb(|body| % 0x1_0000_0000)
    requires Append(t, version, flexible, v, dst) == dst + body
    ensures AppendSized(t, version, flexible, v, dst) == Append(t, version, flexible, v, dst + size)
  {
    assert (dst + body)[..|dst|] == dst && (dst + body)[|dst|..] == body;
  }

  lemma {:induction false} EachAppend(t: Type, version: int, flexible: bool, vs: seq<Value>, k: nat, dst: seq<byte>)
    requires t.StructT? && FieldsConform(t, vs)
    ensures |ToEncode(t, version, vs, k)| == |KnownEntries(t, version, flexible, vs, k)|
    ensures AppendEach(t, version, flexible, vs, ToEncode(t, version, vs, k), dst) ==
            dst + EncodeEntries(KnownEntries(t, version, flexible, vs, k))
    decreases t, 1, NumTags(t) - k, 1
  {
    hide Encode, Append, Written;
    var i := TagIndex(t.fields, k);
    if k >= NumTags(t) {
      EmptyUnit(dst);
    } else if i < |vs| && Written(t.fields[i].typ, version, vs[i]) {
      FirstTag(t, version, flexible, vs, k, i, dst);
    } else {
      EachAppend(t, version, flexible, vs, k + 1, dst);
      assert ToEncode(t, version, vs, k) == ToEncode(t, version, vs, k + 1);
      assert KnownEntries(t, version, flexible, vs, k) == KnownEntries(t, version, flexible, vs, k + 1);
    }
  }

  lemma {:induction false} FirstTag(t: Type, version: int, flexible: bool, vs: seq<Value>, k: nat, i: nat, dst: seq<byte>)
    requires t.StructT? && FieldsConform(t, vs) && k < NumTags(t) && i == TagIndex(t.fields, k) < |vs|
    requires Written(t.fields[i].typ, version, vs[i])
    ensures |ToEncode(t, version, vs, k)| == |KnownEntries(t, version, flexible, vs, k)|
    ensures AppendEach(t, version, flexible, vs, ToEncode(t, version, vs, k), dst) ==
            dst + EncodeEntries(KnownEntries(t, version, flexible, vs, k))
    decreases t, 1, NumTags(t) - k, 0
  {
    var body := Encode(t.fields[i].typ, version, flexible, vs[i]);
    var key, size := Leb(k % 0x1_0000_0000), Leb(|body| % 0x1_0000_0000);
    SizedAppend(t.fields[i].typ, version, flexible, vs[i], dst + key);
    EachAppend(t, version, flexible, vs, k + 1, dst + key + size + body);
    FirstTagUnfolds(t, version, flexible, vs, k, i, dst);
    FirstEntry(t, version, flexible, vs, k, i, dst);
  }

  lemma FirstTagUnfolds(t: Type, version: int, flexible: bool, vs: seq<Value>, k: nat, i: nat, dst: seq<byte>)
    requires t.StructT? && FieldsConform(t, vs) && k < NumTags(t) && i == TagIndex(t.fields, k) < |vs|
    requires Written(t.fields[i].typ, version, vs[i])
    ensures |ToEncode(t, version, vs, k)| == 1 + |ToEncode(t, version, vs, k + 1)|
    ensures AppendEach(t, version, flexible, vs, ToEncode(t, version, vs, k), dst) ==
            AppendEach(t, version, flexible, vs, ToEncode(t, version, vs, k + 1),
                       AppendSized(t.fields[i].typ, version, flexible, vs[i], dst + Leb(k % 0x1_0000_0000)))
  {
    assert ToEncode(t, version, vs, k) == [k] + ToEncode(t, version, vs, k + 1);
    assert ([k] + ToEncode(t, version, vs, k + 1))[1..] == ToEncode(t, version, vs, k + 1);
  }

  lemma FirstEntry(t: Type, version: int, flexible: bool, vs: seq<Value>, k: nat, i: nat, dst: seq<byte>)
    requires t.StructT? && FieldsConform(t, vs) && k < NumTags(t) && i == TagIndex(t.fields, k) < |vs|
    requires Written(t.fields[i].typ, version, vs[i])
    ensures |KnownEntries(t, version, flexible, vs, k)| == 1 + |KnownEntries(t, version, flexible, vs, k + 1)|
    ensures var body := Encode(t.fields[i].typ, version, flexible, vs[i]);
      dst + EncodeEntries(KnownEntries(t, version, flexible, vs, k)) ==
      dst + Leb(k % 0x1_0000_0000) + Leb(|body| % 0x1_0000_0000) + body
        + EncodeEntries(KnownEntries(t, version, flexible, vs, k + 1))
  {
    var body := Encode(t.fields[i].typ, version, flexible, vs[i]);
    KnownUnfold(t, version, flexible, vs, k, i);
    Regroup5(dst, Leb(k % 0x1_0000_0000), Leb(|body| % 0x1_0000_0000), body,
             EncodeEntries(KnownEntries(t, version, flexible, vs, k + 1)));
  }

  lemma Regroup5(a: seq<byte>, b: seq<byte>, c: seq<byte>, d: seq<byte>, e: seq<byte>)
    ensures a + (b + c + d + e) == a + b + c + d + e
  {
  }

  lemma {:induction false} EntriesConcat(es: seq<Entry>, fs: seq<Entry>)
    ensures EncodeEntries(es + fs) == EncodeEntries(es) + EncodeEntries(fs)
    decreases |es|
  {
    if es == [] {
      assert es + fs == fs;
      EmptyUnit(EncodeEntries(fs));
    } else {
      assert (es + fs)[1..] == es[1..] + fs;
      EntriesConcat(es[1..], fs);
      var head := Leb(es[0].tag % 0x1_0000_0000) + Leb(|es[0].body| % 0x1_0000_0000) + es[0].body;
      Assoc(head, EncodeEntries(es[1..]), EncodeEntries(fs));
    }
  }

  lemma {:induction false} TagsAppend(t: Type, version: int, flexible: bool, v: Value, dst: seq<byte>)
    requires t.StructT? && v.StructV? && FieldsConform(t, v.fields)
    ensures AppendTags(t, version, flexible, v, dst) == dst + EncodeTags(t, version, flexible, v)
    decreases t, 2, 0
  {
    hide KnownEntries, ToEncode, EncodeEntries, Leb;
    var own, unknown := KnownEntries(t, version, flexible, v.fields, 0), UnknownEntries(v.unknown);
    var count := Leb(|own + unknown| % 0x1_0000_0000);
    EachAppend(t, version, flexible, v.fields, 0, dst + count);
    UnknownCount(v.unknown);
    EntriesConcat(own, unknown);
    Assoc(dst + count, EncodeEntries(own), EncodeEntries(unknown));
    Assoc(dst, count, EncodeEntries(own) + EncodeEntries(unknown));
  }

  lemma {:induction false} StructAppend(t: Type, version: int, flexible: bool, v: Value, dst: seq<byte>)
    requires t.StructT? && v.StructV? && Conforms(t, v)
    ensures Append(t, version, flexible, v, dst) == dst + Encode(t, version, flexible, v)
    decreases t, 2, 1
  {
    var d0 := if t.nullable then dst + [1] else dst;
    var fields := EncodeFields(t, version, flexible, v.fields, 0);
    var tags := if t.fromFlexible && flexible then EncodeTags(t, version, flexible, v) else [];
    FieldsAppend(t, version, flexible, v.fields, 0, d0);
    if t.fromFlexible && flexible { TagsAppend(t, version, flexible, v, d0 + fields); }
    Regroup(dst, if t.nullable then [1] else [], fields, tags);
  }

  lemma Regroup(dst: seq<byte>, presence: seq<byte>, fields: seq<byte>, tags: seq<byte>)
    ensures dst + presence + fields + tags == dst + (presence + fields + tags)
    ensures dst + [] == dst && fields + [] == fields && dst + presence + fields + [] == dst + presence + fields
  {
  }

  /** `AppendTo` adds the message after `dst`, and `ReadFrom` gets it back from there. */
  lemma AppendToReadFrom(m: Message, version: int, v: Value, other: int, dst: seq<byte>, tail: seq<byte>)
    requires ValidMessage(m) && ValidValue(m, version, v) && Canonical(m.body, version, IsFlexible(m, version), v)
    requires !m.withVersionField ==> other == version
    requires IsFlexible(m, version) ==> Sectioned(m.body) || m.body.fields == []
    ensures var out := Append(m.body, version, IsFlexible(m, version), v, dst);
      |dst| <= |out| && out[..|dst|] == dst &&
      (ReadFrom(m, other, out[|dst|..] + tail) == Ok(v) <==> !LosesTags(m, version, v))
  {
    AppendIsEncode(m.body, version, IsFlexible(m, version), v, dst);
    var body := Encode(m.body, version, IsFlexible(m, version), v);
    assert (dst + body)[..|dst|] == dst && (dst + body)[|dst|..] == body;
    MessageRoundTrip(m, version, v, other, tail);
  }
}
