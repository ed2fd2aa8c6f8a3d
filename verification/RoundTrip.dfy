/**
 Decoding an encoding: with the same schema, and with an older one.
 */
module RoundTrip {
  import opened Wrappers
  import opened Varints
  import opened Kbin
  import opened Schema
  import opened Codec

  // ---------------------------------------------------------------------
  // What can be encoded
  // ---------------------------------------------------------------------

  /** The field travels: in the untagged section, or as a tag. */
  ghost predicate Carried(t: Type, version: int, flexible: bool, vs: seq<Value>, i: nat)
    requires t.StructT? && FieldsConform(t, vs) && i < |vs|
  {
    Present(t.fields[i], version) || Tagged(t, version, flexible, vs, i)
  }

  ghost predicate Tagged(t: Type, version: int, flexible: bool, vs: seq<Value>, i: nat)
    requires t.StructT? && FieldsConform(t, vs) && i < |vs|
  {
    t.fromFlexible && flexible && t.fields[i].tag >= 0 && Written(t.fields[i].typ, version, vs[i])
  }

  /**
   The values whose lengths survive the width of their prefixes, whose arrays
   have no more elements than bytes, and whose unknown tags are unknown.
   */
  ghost predicate Encodable(t: Type, version: int, flexible: bool, v: Value)
    requires Conforms(t, v)
    decreases t
  {
    match t
    case ArrayT(inner, _, _, _, _) =>
      |Elems(v)| < 0x8000_0000 &&
      |Elems(v)| <= |EncodeElems(inner, version, flexible, Elems(v))| &&
      forall i :: 0 <= i < |Elems(v)| ==> Encodable(inner, version, flexible, Elems(v)[i])
    case StructT(_, _, fields) =>
      v.StructV? ==>
        (forall i :: 0 <= i < |fields| && Carried(t, version, flexible, v.fields, i) ==>
          Encodable(fields[i].typ, version, flexible, v.fields[i])) &&
        (forall i :: 0 <= i < |fields| && Tagged(t, version, flexible, v.fields, i) ==>
          |Encode(fields[i].typ, version, flexible, v.fields[i])| < 0x1_0000_0000) &&
        (t.fromFlexible && flexible ==> TagsFit(t, v))
    case BoolT(_) => true
    case IntT(_, _) => true
    case UuidT => true
    case _ => LenFits(LengthKind(t, flexible), |OrEmpty(v.bytes)|)
  }

  ghost predicate TagsFit(t: Type, v: Value)
    requires t.StructT? && v.StructV?
  {
    NumTags(t) + |v.unknown| < 0x1_0000_0000 &&
    forall k :: k in v.unknown ==> NumTags(t) <= k < 0x1_0000_0000 && |v.unknown[k]| < 0x1_0000_0000
  }

  // ---------------------------------------------------------------------
  // What a decoder with schema `known` makes of a value of schema `full`
  // ---------------------------------------------------------------------

  ghost function Project(known: Type, full: Type, version: int, flexible: bool, v: Value): Value
    requires Older(known, full) && Conforms(full, v)
    decreases known, 1
  {
    match known
    case BoolT(_) => v
    case IntT(_, _) => v
    case UuidT => v
    case ArrayT(inner, varint, nullable, _, _) =>
      var vs := ProjectAll(inner, full.inner, version, flexible, Elems(v));
      if NilAllowed(known, version) then ArrayV(if v.elems == None then None else Some(vs))
      else if nullable && !varint then ArrayV(Some(vs))
      else ArrayV(if vs == [] then None else Some(vs))
    case StructT(_, _, fields) =>
      if v.NilV? then NilV else
      StructV(Mix(known, full, version, flexible, v.fields,
                  ProjectEach(known, full, version, flexible, v.fields), NumTags(full)),
              if known.fromFlexible && flexible
              then EntryMap(KnownEntries(full, version, flexible, v.fields, NumTags(known))) + v.unknown else map[])
    case _ =>
      var b := v.bytes;
      BytesV(if NilAllowed(known, version) then b else Some(OrEmpty(b)))
  }

  ghost function ProjectAll(known: Type, full: Type, version: int, flexible: bool, vs: seq<Value>): (ps: seq<Value>)
    requires Older(known, full) && forall i :: 0 <= i < |vs| ==> Conforms(full, vs[i])
    ensures |ps| == |vs|
    decreases known, 2, |vs|
  {
    if vs == [] then []
    else [Project(known, full, version, flexible, vs[0])] + ProjectAll(known, full, version, flexible, vs[1..])
  }

  ghost function ProjectEach(known: Type, full: Type, version: int, flexible: bool, vs: seq<Value>): (ps: seq<Value>)
    requires known.StructT? && Older(known, full) && FieldsConform(full, vs)
    ensures |ps| == |known.fields|
    decreases known, 0
  {
    seq(|known.fields|, i requires 0 <= i < |known.fields| =>
      Project(known.fields[i].typ, full.fields[i].typ, version, flexible, vs[i]))
  }

  /** `ps` for the fields in the untagged section and in the tags below `k`; the others are as before decoding. */
  ghost function Mix(
      known: Type, full: Type, version: int, flexible: bool, vs: seq<Value>, ps: seq<Value>, k: nat): (ms: seq<Value>)
    requires known.StructT? && full.StructT? && FieldsConform(full, vs) && |ps| == |known.fields| <= |full.fields|
    ensures |ms| == |ps|
  {
    seq(|ps|, i requires 0 <= i < |ps| =>
      if Present(full.fields[i], version) || (Tagged(full, version, flexible, vs, i) && full.fields[i].tag < k)
      then ps[i] else InitialFields(known)[i])
  }

  ghost function EntryMap(es: seq<Entry>): map<nat, seq<byte>> {
    if es == [] then map[] else map[es[0].tag := es[0].body] + EntryMap(es[1..])
  }

  // ---------------------------------------------------------------------
  // Strings and bytes
  // ---------------------------------------------------------------------

  lemma Assoc(a: seq<byte>, b: seq<byte>, c: seq<byte>)
    ensures a + b + c == a + (b + c)
  {
  }

  lemma EmptyUnit(b: seq<byte>)
    ensures [] + b == b && b + [] == b
  {
  }

  lemma BytesBack(t: Type, version: int, flexible: bool, v: Value, rest: seq<byte>)
    requires IsBytesLike(t) && Conforms(t, v) && Encodable(t, version, flexible, v)
    ensures DecodeBytes(t, version, flexible, Source(EncodeBytes(t, version, flexible, v.bytes) + rest, false)) ==
            (if NilAllowed(t, version) then v.bytes else Some(OrEmpty(v.bytes)), Source(rest, false))
  {
    var k := LengthKind(t, flexible);
    if v.bytes == None && NilAllowed(t, version) {
      ReadLenBack(k, -1, rest);
    } else {
      ReadSizedBack(k, OrEmpty(v.bytes), rest);
    }
  }

  // ---------------------------------------------------------------------
  // Arrays, structs, tags: mutual induction over the schema
  // ---------------------------------------------------------------------

  ghost predicate Ready(known: Type, full: Type, version: int, flexible: bool, v: Value) {
    WellFormed(known) && WellFormed(full) && Older(known, full) && (flexible ==> Sectioned(known)) &&
    version >= 0 && Conforms(full, v) && Encodable(full, version, flexible, v)
  }

  ghost predicate DecodesTo(known: Type, full: Type, version: int, flexible: bool, v: Value, rest: seq<byte>)
    requires Older(known, full) && Conforms(full, v)
  {
    Decode(known, version, flexible, Source(Encode(full, version, flexible, v) + rest, false)) ==
    Done(Project(known, full, version, flexible, v), Source(rest, false))
  }

  lemma {:induction false} DecodeBack(known: Type, full: Type, version: int, flexible: bool, v: Value, rest: seq<byte>)
    requires Ready(known, full, version, flexible, v)
    ensures DecodesTo(known, full, version, flexible, v, rest)
    decreases known, 3, 0
  {
    match known
    case BoolT(_) => ReadFixedBack(if v.b then 1 else 0, 1, rest);
    case IntT(kind, _) => ReadIntBack(kind, v.i, rest);
    case UuidT => ReadSpanBack(v.bytes.value, rest);
    case ArrayT(_, _, _, _, _) => ArrayBack(known, full, version, flexible, v, rest);
    case StructT(_, _, _) => StructBack(known, full, version, flexible, v, rest);
    case _ => BytesBack(known, version, flexible, v, rest);
  }

  lemma {:induction false} ArrayBack(known: Type, full: Type, version: int, flexible: bool, v: Value, rest: seq<byte>)
    requires known.ArrayT? && Ready(known, full, version, flexible, v)
    ensures DecodesTo(known, full, version, flexible, v, rest)
    decreases known, 2, 0
  {
    var vs := Elems(v);
    var body := EncodeElems(full.inner, version, flexible, vs);
    var l := if v.elems == None && NilAllowed(full, version) then -1 else |vs|;
    var k := LengthKind(full, flexible);
    Assoc(EncodeLen(k, l), body, rest);
    ReadArrayLenBack(k, l, body + rest);
    ElemsBack(known.inner, full.inner, version, flexible, vs, rest);
  }

  lemma {:induction false} ElemsBack(known: Type, full: Type, version: int, flexible: bool, vs: seq<Value>, rest: seq<byte>)
    requires Older(known, full) && forall i :: 0 <= i < |vs| ==> Conforms(full, vs[i])
    requires forall i :: 0 <= i < |vs| ==> Ready(known, full, version, flexible, vs[i])
    ensures DecodeElems(known, version, flexible, |vs|,
                        Source(EncodeElems(full, version, flexible, vs) + rest, false)) ==
            Done(ProjectAll(known, full, version, flexible, vs), Source(rest, false))
    decreases known, 4, |vs|
  {
    hide Encode, Decode, Project, Ready, Conforms, Older;
    if vs != [] {
      var tail := EncodeElems(full, version, flexible, vs[1..]);
      Assoc(Encode(full, version, flexible, vs[0]), tail, rest);
      DecodeBack(known, full, version, flexible, vs[0], tail + rest);
      ElemsBack(known, full, version, flexible, vs[1..], rest);
    }
  }

  /** The fields of a struct of schema `full`, as far as they travel, can be decoded with schema `known`. */
  ghost predicate FieldsReady(known: Type, full: Type, version: int, flexible: bool, vs: seq<Value>) {
    known.StructT? && WellFormed(known) && WellFormed(full) && Older(known, full) && version >= 0 &&
    (flexible ==> Sectioned(known)) && FieldsConform(full, vs) &&
    (forall i :: 0 <= i < |vs| && Carried(full, version, flexible, vs, i) ==>
      Encodable(full.fields[i].typ, version, flexible, vs[i])) &&
    (forall i :: 0 <= i < |vs| && Tagged(full, version, flexible, vs, i) ==>
      |Encode(full.fields[i].typ, version, flexible, vs[i])| < 0x1_0000_0000)
  }

  lemma FieldReady(known: Type, full: Type, version: int, flexible: bool, vs: seq<Value>, i: nat)
    requires FieldsReady(known, full, version, flexible, vs) && i < |known.fields|
    requires Carried(full, version, flexible, vs, i)
    ensures Ready(known.fields[i].typ, full.fields[i].typ, version, flexible, vs[i])
  {
  }

  lemma {:induction false} ExtrasAbsent(known: Type, full: Type, version: int, flexible: bool, vs: seq<Value>, i: nat)
    requires known.StructT? && Older(known, full) && FieldsConform(full, vs) && |known.fields| <= i <= |vs|
    ensures EncodeFields(full, version, flexible, vs, i) == []
    decreases |vs| - i
  {
    if i < |vs| { ExtrasAbsent(known, full, version, flexible, vs, i + 1); }
  }

  /** The state of the decoder when it reaches field `i` of the untagged section. */
  ghost predicate SoFar(known: Type, full: Type, version: int, ps: seq<Value>, i: nat, ws: seq<Value>)
    requires known.StructT? && full.StructT? && |ps| == |known.fields| <= |full.fields|
  {
    |ws| == |ps| && i <= |ws| &&
    (forall j :: 0 <= j < i ==> ws[j] == if Present(full.fields[j], version) then ps[j] else InitialFields(known)[j]) &&
    (forall j :: i <= j < |ws| ==> ws[j] == InitialFields(known)[j])
  }

  lemma PresentStep(
      known: Type, full: Type, version: int, flexible: bool, vs: seq<Value>, i: nat, ws: seq<Value>, w: Value,
      rest: seq<byte>)
    requires known.StructT? && Older(known, full) && FieldsConform(full, vs)
    requires |ws| == |known.fields| && i < |ws| && Present(full.fields[i], version)
    requires DecodeField(known, version, flexible, i,
                         Source(Encode(full.fields[i].typ, version, flexible, vs[i])
                                + (EncodeFields(full, version, flexible, vs, i + 1) + rest), false)) ==
             Done(w, Source(EncodeFields(full, version, flexible, vs, i + 1) + rest, false))
    ensures DecodeFields(known, version, flexible, i, ws,
                         Source(EncodeFields(full, version, flexible, vs, i) + rest, false)) ==
            DecodeFields(known, version, flexible, i + 1, ws[i := w],
                         Source(EncodeFields(full, version, flexible, vs, i + 1) + rest, false))
  {
    Assoc(Encode(full.fields[i].typ, version, flexible, vs[i]), EncodeFields(full, version, flexible, vs, i + 1), rest);
  }

  lemma AbsentStep(
      known: Type, full: Type, version: int, flexible: bool, vs: seq<Value>, i: nat, ws: seq<Value>, rest: seq<byte>)
    requires known.StructT? && Older(known, full) && FieldsConform(full, vs)
    requires |ws| == |known.fields| && i < |ws| && !Present(full.fields[i], version)
    ensures DecodeFields(known, version, flexible, i, ws,
                         Source(EncodeFields(full, version, flexible, vs, i) + rest, false)) ==
            DecodeFields(known, version, flexible, i + 1, ws,
                         Source(EncodeFields(full, version, flexible, vs, i + 1) + rest, false))
  {
    assert EncodeFields(full, version, flexible, vs, i) == EncodeFields(full, version, flexible, vs, i + 1);
  }

  lemma {:induction false} FieldBack(
      known: Type, full: Type, version: int, flexible: bool, vs: seq<Value>, i: nat, rest: seq<byte>)
    requires FieldsReady(known, full, version, flexible, vs) && i < |known.fields|
    requires Carried(full, version, flexible, vs, i)
    ensures DecodeField(known, version, flexible, i,
                        Source(Encode(full.fields[i].typ, version, flexible, vs[i]) + rest, false)) ==
            Done(ProjectEach(known, full, version, flexible, vs)[i], Source(rest, false))
    decreases known, 0, 0
  {
    FieldReady(known, full, version, flexible, vs, i);
    DecodeBack(known.fields[i].typ, full.fields[i].typ, version, flexible, vs[i], rest);
  }

  lemma AllSoFar(known: Type, full: Type, version: int, flexible: bool, vs: seq<Value>, ps: seq<Value>, ws: seq<Value>)
    requires FieldsReady(known, full, version, flexible, vs) && |ps| == |known.fields|
    requires SoFar(known, full, version, ps, |known.fields|, ws)
    ensures ws == Mix(known, full, version, flexible, vs, ps, 0)
  {
  }

  lemma SoFarNext(known: Type, full: Type, version: int, ps: seq<Value>, i: nat, ws: seq<Value>)
    requires known.StructT? && full.StructT? && |ps| == |known.fields| <= |full.fields| && i < |ps|
    requires SoFar(known, full, version, ps, i, ws)
    ensures SoFar(known, full, version, ps, i + 1, if Present(full.fields[i], version) then ws[i := ps[i]] else ws)
  {
  }

  lemma {:induction false} FieldsBack(
      known: Type, full: Type, version: int, flexible: bool, vs: seq<Value>, ps: seq<Value>, i: nat, ws: seq<Value>,
      rest: seq<byte>)
    requires FieldsReady(known, full, version, flexible, vs) && ps == ProjectEach(known, full, version, flexible, vs)
    requires SoFar(known, full, version, ps, i, ws)
    ensures DecodeFields(known, version, flexible, i, ws,
                         Source(EncodeFields(full, version, flexible, vs, i) + rest, false)) ==
            Done(Mix(known, full, version, flexible, vs, ps, 0), Source(rest, false))
    decreases known, 1, |known.fields| - i
  {
    if i == |known.fields| {
      ExtrasAbsent(known, full, version, flexible, vs, i);
      EmptyUnit(rest);
      AllSoFar(known, full, version, flexible, vs, ps, ws);
    } else if Present(full.fields[i], version) {
      FieldBack(known, full, version, flexible, vs, i, EncodeFields(full, version, flexible, vs, i + 1) + rest);
      PresentStep(known, full, version, flexible, vs, i, ws, ps[i], rest);
      SoFarNext(known, full, version, ps, i, ws);
      FieldsBack(known, full, version, flexible, vs, ps, i + 1, ws[i := ps[i]], rest);
    } else {
      AbsentStep(known, full, version, flexible, vs, i, ws, rest);
      SoFarNext(known, full, version, ps, i, ws);
      FieldsBack(known, full, version, flexible, vs, ps, i + 1, ws, rest);
    }
  }

  // ---------------------------------------------------------------------
  // The tag section, entry by entry
  // ---------------------------------------------------------------------

  predicate EntryFits(e: Entry) { e.tag < 0x1_0000_0000 && |e.body| < 0x1_0000_0000 }

  lemma EntryBack(es: seq<Entry>, rest: seq<byte>)
    requires es != [] && EntryFits(es[0])
    ensures
      var (key, r1) := ReadUvarint(Source(EncodeEntries(es) + rest, false));
      var (size, r2) := ReadUvarint(r1);
      key == es[0].tag && size == |es[0].body| &&
      ReadSpan(r2, size) == (Some(es[0].body), Source(EncodeEntries(es[1..]) + rest, false))
  {
    hide Leb, ReadUvarint, ReadSpan;
    var e := es[0];
    var tail := EncodeEntries(es[1..]) + rest;
    var key, size := Leb(e.tag), Leb(|e.body|);
    assert EncodeEntries(es) + rest == key + (size + (e.body + tail)) by {
      Reassociate(key, size, e.body, EncodeEntries(es[1..]), rest);
    }
    ReadUvarintBack(e.tag, size + (e.body + tail));
    ReadUvarintBack(|e.body|, e.body + tail);
    ReadSpanBack(e.body, tail);
  }

  lemma Reassociate(a: seq<byte>, b: seq<byte>, c: seq<byte>, d: seq<byte>, e: seq<byte>)
    ensures a + b + c + d + e == a + (b + (c + (d + e)))
  {
  }

  predicate HasTag(t: Type, k: nat)
    requires t.StructT?
  {
    k < NumTags(t) && TagIndex(t.fields, k) < |t.fields|
  }

  /** Where the decoded fields end up when field number `i` decodes to `ps[i]`. */
  function Apply(t: Type, ps: seq<Value>, es: seq<Entry>, vs: seq<Value>, acc: map<nat, seq<byte>>)
      : (seq<Value>, map<nat, seq<byte>>)
    requires t.StructT? && |vs| == |ps| == |t.fields|
  {
    if es == [] then (vs, acc)
    else if HasTag(t, es[0].tag) then
      var i := TagIndex(t.fields, es[0].tag);
      Apply(t, ps, es[1..], vs[i := ps[i]], acc)
    else Apply(t, ps, es[1..], vs, acc[es[0].tag := es[0].body])
  }

  /** The entry is short enough, and if the schema has its tag then its body decodes to the value in `ps`. */
  predicate EntryOk(t: Type, version: int, flexible: bool, ps: seq<Value>, e: Entry)
    requires t.StructT? && |ps| == |t.fields|
  {
    EntryFits(e) &&
    (HasTag(t, e.tag) ==>
      var i := TagIndex(t.fields, e.tag);
      DecodeField(t, version, flexible, i, Source(e.body, false)) == Done(ps[i], Source([], false)))
  }

  predicate EntriesOk(t: Type, version: int, flexible: bool, ps: seq<Value>, es: seq<Entry>)
    requires t.StructT? && |ps| == |t.fields|
  {
    es == [] || (EntryOk(t, version, flexible, ps, es[0]) && EntriesOk(t, version, flexible, ps, es[1..]))
  }

  lemma {:induction false} EntriesOkConcat(
      t: Type, version: int, flexible: bool, ps: seq<Value>, es: seq<Entry>, fs: seq<Entry>)
    requires t.StructT? && |ps| == |t.fields|
    requires EntriesOk(t, version, flexible, ps, es) && EntriesOk(t, version, flexible, ps, fs)
    ensures EntriesOk(t, version, flexible, ps, es + fs)
  {
    if es == [] {
      assert es + fs == fs;
    } else {
      EntriesOkConcat(t, version, flexible, ps, es[1..], fs);
      assert (es + fs)[1..] == es[1..] + fs;
    }
  }

  lemma KnownStep(
      t: Type, version: int, flexible: bool, n: nat, ps: seq<Value>, vs: seq<Value>, acc: map<nat, seq<byte>>,
      es: seq<Entry>, rest: seq<byte>, i: nat)
    requires t.StructT? && |vs| == |ps| == |t.fields| && n > 0 && es != [] && EntryOk(t, version, flexible, ps, es[0])
    requires HasTag(t, es[0].tag) && i == TagIndex(t.fields, es[0].tag)
    ensures DecodeTags(t, version, flexible, n, vs, acc, Source(EncodeEntries(es) + rest, false)) ==
            DecodeTags(t, version, flexible, n - 1, vs[i := ps[i]], acc, Source(EncodeEntries(es[1..]) + rest, false))
  {
    EntryBack(es, rest);
  }

  lemma UnknownStep(
      t: Type, version: int, flexible: bool, n: nat, ps: seq<Value>, vs: seq<Value>, acc: map<nat, seq<byte>>,
      es: seq<Entry>, rest: seq<byte>)
    requires t.StructT? && |vs| == |ps| == |t.fields| && n > 0 && es != [] && EntryOk(t, version, flexible, ps, es[0])
    requires !HasTag(t, es[0].tag)
    ensures DecodeTags(t, version, flexible, n, vs, acc, Source(EncodeEntries(es) + rest, false)) ==
            DecodeTags(t, version, flexible, n - 1, vs, acc[es[0].tag := es[0].body],
                       Source(EncodeEntries(es[1..]) + rest, false))
  {
    EntryBack(es, rest);
  }

  lemma ChainKnown(
      t: Type, version: int, flexible: bool, ps: seq<Value>, es: seq<Entry>, vs: seq<Value>, acc: map<nat, seq<byte>>,
      r: Source, r': Source, end: Source, i: nat)
    requires t.StructT? && |vs| == |ps| == |t.fields| && es != []
    requires HasTag(t, es[0].tag) && i == TagIndex(t.fields, es[0].tag)
    requires DecodeTags(t, version, flexible, |es|, vs, acc, r) ==
             DecodeTags(t, version, flexible, |es| - 1, vs[i := ps[i]], acc, r')
    requires DecodeTags(t, version, flexible, |es[1..]|, vs[i := ps[i]], acc, r') ==
             Done(Apply(t, ps, es[1..], vs[i := ps[i]], acc), end)
    ensures DecodeTags(t, version, flexible, |es|, vs, acc, r) == Done(Apply(t, ps, es, vs, acc), end)
  {
  }

  lemma ChainUnknown(
      t: Type, version: int, flexible: bool, ps: seq<Value>, es: seq<Entry>, vs: seq<Value>, acc: map<nat, seq<byte>>,
      acc': map<nat, seq<byte>>, r: Source, r': Source, end: Source)
    requires t.StructT? && |vs| == |ps| == |t.fields| && es != []
    requires !HasTag(t, es[0].tag) && acc' == acc[es[0].tag := es[0].body]
    requires DecodeTags(t, version, flexible, |es|, vs, acc, r) ==
             DecodeTags(t, version, flexible, |es| - 1, vs, acc', r')
    requires DecodeTags(t, version, flexible, |es[1..]|, vs, acc', r') ==
             Done(Apply(t, ps, es[1..], vs, acc'), end)
    ensures DecodeTags(t, version, flexible, |es|, vs, acc, r) == Done(Apply(t, ps, es, vs, acc), end)
  {
  }

  /** Decoding the encoding of entries does what `Apply` says, and leaves what follows. */
  lemma {:induction false} EntriesBack(
      t: Type, version: int, flexible: bool, ps: seq<Value>, es: seq<Entry>, vs: seq<Value>, acc: map<nat, seq<byte>>,
      rest: seq<byte>)
    requires t.StructT? && |vs| == |ps| == |t.fields| && EntriesOk(t, version, flexible, ps, es)
    ensures DecodeTags(t, version, flexible, |es|, vs, acc, Source(EncodeEntries(es) + rest, false)) ==
            Done(Apply(t, ps, es, vs, acc), Source(rest, false))
    decreases |es|
  {
    if es == [] {
      EmptyUnit(rest);
    } else {
      var r, r' := Source(EncodeEntries(es) + rest, false), Source(EncodeEntries(es[1..]) + rest, false);
      if HasTag(t, es[0].tag) {
        var i := TagIndex(t.fields, es[0].tag);
        KnownStep(t, version, flexible, |es|, ps, vs, acc, es, rest, i);
        EntriesBack(t, version, flexible, ps, es[1..], vs[i := ps[i]], acc, rest);
        ChainKnown(t, version, flexible, ps, es, vs, acc, r, r', Source(rest, false), i);
      } else {
        var acc' := acc[es[0].tag := es[0].body];
        UnknownStep(t, version, flexible, |es|, ps, vs, acc, es, rest);
        EntriesBack(t, version, flexible, ps, es[1..], vs, acc', rest);
        ChainUnknown(t, version, flexible, ps, es, vs, acc, acc', r, r', Source(rest, false));
      }
    }
  }

  lemma {:induction false} ApplyConcat(
      t: Type, ps: seq<Value>, es: seq<Entry>, fs: seq<Entry>, vs: seq<Value>, acc: map<nat, seq<byte>>)
    requires t.StructT? && |vs| == |ps| == |t.fields|
    ensures var (ws, acc') := Apply(t, ps, es, vs, acc);
      |ws| == |vs| && Apply(t, ps, es + fs, vs, acc) == Apply(t, ps, fs, ws, acc')
    decreases |es|
  {
    if es == [] {
      assert es + fs == fs;
    } else {
      assert (es + fs)[1..] == es[1..] + fs;
      if HasTag(t, es[0].tag) {
        var i := TagIndex(t.fields, es[0].tag);
        ApplyConcat(t, ps, es[1..], fs, vs[i := ps[i]], acc);
      } else {
        ApplyConcat(t, ps, es[1..], fs, vs, acc[es[0].tag := es[0].body]);
      }
    }
  }

  // ---------------------------------------------------------------------
  // The tags the encoder's schema has
  // ---------------------------------------------------------------------

  /** What two schemas, one older than the other, agree on about tags. */
  ghost predicate TagsAlign(known: Type, full: Type) {
    known.StructT? && full.StructT? && |known.fields| <= |full.fields| &&
    TagsInOrder(known.fields) && TagsInOrder(full.fields) &&
    (forall i :: 0 <= i < |known.fields| ==> known.fields[i].tag == full.fields[i].tag)
  }

  /** A tag names the same field in both schemas, as long as the decoder's schema has it. */
  lemma TagPlace(known: Type, full: Type, k: nat)
    requires TagsAlign(known, full) && k < NumTags(full)
    ensures var i := TagIndex(full.fields, k);
      i < |full.fields| && (HasTag(known, k) <==> i < |known.fields|) && (HasTag(known, k) <==> k < NumTags(known)) &&
      (HasTag(known, k) ==> TagIndex(known.fields, k) == i)
    ensures forall j :: 0 <= j < |full.fields| && full.fields[j].tag == k ==> j == TagIndex(full.fields, k)
  {
    TagIndexExists(full.fields, k);
    if k < NumTags(known) {
      TagIndexExists(known.fields, k);
      TagIndexOf(full.fields, TagIndex(known.fields, k));
    } else if TagIndex(full.fields, k) < |known.fields| {
      TagIndexOf(known.fields, TagIndex(full.fields, k));
    }
    forall j | 0 <= j < |full.fields| && full.fields[j].tag == k ensures j == TagIndex(full.fields, k) {
      TagIndexOf(full.fields, j);
    }
  }

  lemma KnownUnfold(t: Type, version: int, flexible: bool, vs: seq<Value>, k: nat, i: nat)
    requires t.StructT? && FieldsConform(t, vs) && k < NumTags(t) && i == TagIndex(t.fields, k) < |vs|
    ensures var es := KnownEntries(t, version, flexible, vs, k);
      if Written(t.fields[i].typ, version, vs[i]) then
        es != [] && es[0] == Entry(k, Encode(t.fields[i].typ, version, flexible, vs[i])) &&
        es[1..] == KnownEntries(t, version, flexible, vs, k + 1)
      else
        es == KnownEntries(t, version, flexible, vs, k + 1)
  {
  }

  /** Reading past tag `k` changes the field with that tag, if the decoder knows it and it was written. */
  lemma MixStep(
      known: Type, full: Type, version: int, vs: seq<Value>, ps: seq<Value>, k: nat, i: nat)
    requires TagsAlign(known, full) && full.fromFlexible && FieldsConform(full, vs) && |ps| == |known.fields|
    requires k < NumTags(full) && i == TagIndex(full.fields, k) < |vs|
    ensures Mix(known, full, version, true, vs, ps, k + 1) ==
      if Written(full.fields[i].typ, version, vs[i]) && HasTag(known, k)
      then Mix(known, full, version, true, vs, ps, k)[TagIndex(known.fields, k) := ps[TagIndex(known.fields, k)]]
      else Mix(known, full, version, true, vs, ps, k)
  {
    TagPlace(known, full, k);
  }

  /** The tags seen so far that the decoder has no field for, once tag `k` is reached. */
  ghost function NextAcc(
      known: Type, full: Type, version: int, vs: seq<Value>, k: nat, i: nat, acc: map<nat, seq<byte>>): map<nat, seq<byte>>
    requires known.StructT? && full.StructT? && FieldsConform(full, vs) && i < |vs|
  {
    if Written(full.fields[i].typ, version, vs[i]) && !HasTag(known, k)
    then acc[k := Encode(full.fields[i].typ, version, true, vs[i])] else acc
  }

  lemma ApplyFirst(
      known: Type, full: Type, version: int, vs: seq<Value>, ps: seq<Value>, k: nat, i: nat, acc: map<nat, seq<byte>>)
    requires TagsAlign(known, full) && full.fromFlexible && FieldsConform(full, vs) && |ps| == |known.fields|
    requires k < NumTags(full) && i == TagIndex(full.fields, k) < |vs|
    ensures Apply(known, ps, KnownEntries(full, version, true, vs, k), Mix(known, full, version, true, vs, ps, k), acc) ==
            Apply(known, ps, KnownEntries(full, version, true, vs, k + 1), Mix(known, full, version, true, vs, ps, k + 1),
                  NextAcc(known, full, version, vs, k, i, acc))
  {
    MixStep(known, full, version, vs, ps, k, i);
    KnownUnfold(full, version, true, vs, k, i);
  }

  /** What ends up among the unknown tags: the tags the decoder has no field for. */
  ghost function Extras(known: Type, full: Type, version: int, vs: seq<Value>, k: nat): map<nat, seq<byte>>
    requires known.StructT? && full.StructT? && FieldsConform(full, vs)
  {
    EntryMap(KnownEntries(full, version, true, vs, if k < NumTags(known) then NumTags(known) else k))
  }

  lemma ExtrasFirst(
      known: Type, full: Type, version: int, vs: seq<Value>, k: nat, i: nat, acc: map<nat, seq<byte>>)
    requires TagsAlign(known, full) && FieldsConform(full, vs)
    requires k < NumTags(full) && i == TagIndex(full.fields, k) < |vs|
    ensures acc + Extras(known, full, version, vs, k) ==
            NextAcc(known, full, version, vs, k, i, acc) + Extras(known, full, version, vs, k + 1)
  {
    hide Encode, Written, TagsInOrder, TagSet, KnownEntries;
    TagPlace(known, full, k);
    KnownUnfold(full, version, true, vs, k, i);
  }

  lemma ApplyNone(known: Type, full: Type, version: int, vs: seq<Value>, ps: seq<Value>, acc: map<nat, seq<byte>>)
    requires TagsAlign(known, full) && full.fromFlexible && FieldsConform(full, vs) && |ps| == |known.fields|
    requires NumTags(known) <= NumTags(full)
    ensures var ms := Mix(known, full, version, true, vs, ps, NumTags(full));
      Apply(known, ps, KnownEntries(full, version, true, vs, NumTags(full)), ms, acc) ==
      (ms, acc + Extras(known, full, version, vs, NumTags(full)))
  {
    assert acc + map[] == acc;
  }

  lemma {:induction false} ApplyKnown(
      known: Type, full: Type, version: int, vs: seq<Value>, ps: seq<Value>, k: nat, acc: map<nat, seq<byte>>)
    requires TagsAlign(known, full) && full.fromFlexible && FieldsConform(full, vs) && |ps| == |known.fields|
    requires NumTags(known) <= NumTags(full) && k <= NumTags(full)
    ensures Apply(known, ps, KnownEntries(full, version, true, vs, k), Mix(known, full, version, true, vs, ps, k), acc) ==
            (Mix(known, full, version, true, vs, ps, NumTags(full)), acc + Extras(known, full, version, vs, k))
    decreases NumTags(full) - k
  {
    if k == NumTags(full) {
      ApplyNone(known, full, version, vs, ps, acc);
    } else {
      var i := TagIndex(full.fields, k);
      TagIndexExists(full.fields, k);
      ApplyFirst(known, full, version, vs, ps, k, i, acc);
      ExtrasFirst(known, full, version, vs, k, i, acc);
      ApplyKnown(known, full, version, vs, ps, k + 1, NextAcc(known, full, version, vs, k, i, acc));
    }
  }

  /** The body of every written tag the decoder knows decodes, on its own, to the value in `ps`. */
  ghost predicate BodiesDecode(known: Type, full: Type, version: int, vs: seq<Value>, ps: seq<Value>)
    requires known.StructT? && full.StructT? && |ps| == |known.fields| <= |full.fields| && FieldsConform(full, vs)
  {
    forall i :: 0 <= i < |full.fields| && Tagged(full, version, true, vs, i) ==>
      BodyDecodes(known, full, version, vs, ps, i)
  }

  ghost predicate BodyDecodes(known: Type, full: Type, version: int, vs: seq<Value>, ps: seq<Value>, i: nat)
    requires known.StructT? && full.StructT? && |ps| == |known.fields| <= |full.fields| && FieldsConform(full, vs)
    requires i < |full.fields|
  {
    var body := Encode(full.fields[i].typ, version, true, vs[i]);
    |body| < 0x1_0000_0000 &&
    (i < |known.fields| ==>
      DecodeField(known, version, true, i, Source(body, false)) == Done(ps[i], Source([], false)))
  }

  lemma {:induction false} KnownEntriesOk(
      known: Type, full: Type, version: int, vs: seq<Value>, ps: seq<Value>, k: nat)
    requires TagsAlign(known, full) && full.fromFlexible && FieldsConform(full, vs) && |ps| == |known.fields|
    requires BodiesDecode(known, full, version, vs, ps) && NumTags(full) < 0x1_0000_0000
    ensures EntriesOk(known, version, true, ps, KnownEntries(full, version, true, vs, k))
    decreases NumTags(full) - k
  {
    hide EntryOk, Encode, Written, BodiesDecode, TagsInOrder, TagSet, KnownEntries;
    if k < NumTags(full) {
      KnownEntriesOk(known, full, version, vs, ps, k + 1);
      KnownEntryOk(known, full, version, vs, ps, k);
      EntriesOkMore(known, version, true, ps, KnownEntries(full, version, true, vs, k),
                    KnownEntries(full, version, true, vs, k + 1));
    } else {
      KnownNone(full, version, true, vs, k);
    }
  }

  lemma EntriesOkMore(t: Type, version: int, flexible: bool, ps: seq<Value>, es: seq<Entry>, rest: seq<Entry>)
    requires t.StructT? && |ps| == |t.fields| && EntriesOk(t, version, flexible, ps, rest)
    requires es == rest || (es != [] && EntryOk(t, version, flexible, ps, es[0]) && es[1..] == rest)
    ensures EntriesOk(t, version, flexible, ps, es)
  {
  }

  lemma KnownEntryOk(known: Type, full: Type, version: int, vs: seq<Value>, ps: seq<Value>, k: nat)
    requires TagsAlign(known, full) && full.fromFlexible && FieldsConform(full, vs) && |ps| == |known.fields|
    requires BodiesDecode(known, full, version, vs, ps) && k < NumTags(full) < 0x1_0000_0000
    ensures var es, rest := KnownEntries(full, version, true, vs, k), KnownEntries(full, version, true, vs, k + 1);
      es == rest || (es != [] && EntryOk(known, version, true, ps, es[0]) && es[1..] == rest)
  {
    TagPlace(known, full, k);
    KnownUnfold(full, version, true, vs, k, TagIndex(full.fields, k));
    BodyOk(known, full, version, vs, ps, k, TagIndex(full.fields, k));
  }

  lemma BodyOk(known: Type, full: Type, version: int, vs: seq<Value>, ps: seq<Value>, k: nat, i: nat)
    requires TagsAlign(known, full) && full.fromFlexible && FieldsConform(full, vs) && |ps| == |known.fields|
    requires BodiesDecode(known, full, version, vs, ps) && k < NumTags(full) < 0x1_0000_0000
    requires i == TagIndex(full.fields, k) < |vs|
    ensures Written(full.fields[i].typ, version, vs[i]) ==>
      EntryOk(known, version, true, ps, Entry(k, Encode(full.fields[i].typ, version, true, vs[i])))
  {
    TagPlace(known, full, k);
    if Written(full.fields[i].typ, version, vs[i]) {
      assert Tagged(full, version, true, vs, i);
      assert BodyDecodes(known, full, version, vs, ps, i);
    }
  }

  // ---------------------------------------------------------------------
  // The tags nobody's schema has
  // ---------------------------------------------------------------------

  ghost predicate KeysUnknown(t: Type, unknown: map<nat, seq<byte>>)
    requires t.StructT?
  {
    forall k :: k in unknown ==> NumTags(t) <= k && EntryFits(Entry(k, unknown[k]))
  }

  lemma MergeKey(acc: map<nat, seq<byte>>, unknown: map<nat, seq<byte>>, k: nat)
    requires k in unknown
    ensures acc[k := unknown[k]] + (unknown - {k}) == acc + unknown
  {
  }

  lemma {:induction false} ApplyUnknown(
      t: Type, version: int, flexible: bool, ps: seq<Value>, vs: seq<Value>, acc: map<nat, seq<byte>>,
      unknown: map<nat, seq<byte>>)
    requires t.StructT? && |vs| == |ps| == |t.fields| && KeysUnknown(t, unknown)
    ensures Apply(t, ps, UnknownEntries(unknown), vs, acc) == (vs, acc + unknown)
    ensures EntriesOk(t, version, flexible, ps, UnknownEntries(unknown))
    decreases |unknown|
  {
    if unknown == map[] {
      assert acc + unknown == acc;
    } else {
      var k := Least(unknown.Keys);
      assert UnknownEntries(unknown)[1..] == UnknownEntries(unknown - {k});
      ApplyUnknown(t, version, flexible, ps, vs, acc[k := unknown[k]], unknown - {k});
      MergeKey(acc, unknown, k);
    }
  }

  lemma {:induction false} UnknownCount(unknown: map<nat, seq<byte>>)
    ensures |UnknownEntries(unknown)| == |unknown|
    decreases |unknown|
  {
    if unknown != map[] {
      var k := Least(unknown.Keys);
      assert (unknown - {k}).Keys == unknown.Keys - {k};
      UnknownCount(unknown - {k});
    }
  }

  lemma {:induction false} KnownCount(t: Type, version: int, flexible: bool, vs: seq<Value>, k: nat)
    requires t.StructT? && FieldsConform(t, vs) && k <= NumTags(t)
    ensures |KnownEntries(t, version, flexible, vs, k)| <= NumTags(t) - k
    decreases NumTags(t) - k
  {
    hide KnownEntries, FieldsConform, NumTags;
    if k < NumTags(t) {
      KnownCount(t, version, flexible, vs, k + 1);
      KnownOneMore(t, version, flexible, vs, k);
    } else {
      KnownNone(t, version, flexible, vs, k);
    }
  }

  lemma KnownNone(t: Type, version: int, flexible: bool, vs: seq<Value>, k: nat)
    requires t.StructT? && FieldsConform(t, vs) && k >= NumTags(t)
    ensures KnownEntries(t, version, flexible, vs, k) == []
  {
  }

  lemma KnownOneMore(t: Type, version: int, flexible: bool, vs: seq<Value>, k: nat)
    requires t.StructT? && FieldsConform(t, vs) && k < NumTags(t)
    ensures |KnownEntries(t, version, flexible, vs, k)| <= |KnownEntries(t, version, flexible, vs, k + 1)| + 1
  {
    hide Encode, Written;
  }

  // ---------------------------------------------------------------------
  // Whole sections, whole structs
  // ---------------------------------------------------------------------

  lemma SectionOk(known: Type, full: Type, version: int, v: Value, ps: seq<Value>, es: seq<Entry>)
    requires v.StructV? && TagsAlign(known, full) && full.fromFlexible && FieldsConform(full, v.fields)
    requires NumTags(known) <= NumTags(full) && TagsFit(full, v)
    requires |ps| == |known.fields| && BodiesDecode(known, full, version, v.fields, ps)
    requires es == KnownEntries(full, version, true, v.fields, 0) + UnknownEntries(v.unknown)
    ensures EntriesOk(known, version, true, ps, es)
  {
    KnownEntriesOk(known, full, version, v.fields, ps, 0);
    ApplyUnknown(known, version, true, ps, ps, map[], v.unknown);
    EntriesOkConcat(known, version, true, ps, KnownEntries(full, version, true, v.fields, 0), UnknownEntries(v.unknown));
  }

  lemma SectionApplies(known: Type, full: Type, version: int, v: Value, ps: seq<Value>, es: seq<Entry>)
    requires v.StructV? && TagsAlign(known, full) && full.fromFlexible && FieldsConform(full, v.fields)
    requires NumTags(known) <= NumTags(full) && TagsFit(full, v)
    requires |ps| == |known.fields|
    requires es == KnownEntries(full, version, true, v.fields, 0) + UnknownEntries(v.unknown)
    ensures Apply(known, ps, es, Mix(known, full, version, true, v.fields, ps, 0), map[]) ==
            (Mix(known, full, version, true, v.fields, ps, NumTags(full)),
             Extras(known, full, version, v.fields, 0) + v.unknown)
  {
    var start := Mix(known, full, version, true, v.fields, ps, 0);
    var finish := Mix(known, full, version, true, v.fields, ps, NumTags(full));
    var extras := Extras(known, full, version, v.fields, 0);
    ApplyKnown(known, full, version, v.fields, ps, 0, map[]);
    EmptyPlus(extras);
    ApplyUnknown(known, version, true, ps, finish, extras, v.unknown);
    ApplyChain(known, ps, KnownEntries(full, version, true, v.fields, 0), UnknownEntries(v.unknown), start, map[],
               finish, extras, (finish, extras + v.unknown));
  }

  lemma EmptyPlus(m: map<nat, seq<byte>>)
    ensures map[] + m == m
  {
  }

  lemma ApplyChain(
      t: Type, ps: seq<Value>, es: seq<Entry>, fs: seq<Entry>, vs: seq<Value>, acc: map<nat, seq<byte>>,
      ws: seq<Value>, acc': map<nat, seq<byte>>, result: (seq<Value>, map<nat, seq<byte>>))
    requires t.StructT? && |vs| == |ps| == |t.fields| && |ws| == |ps|
    requires Apply(t, ps, es, vs, acc) == (ws, acc') && Apply(t, ps, fs, ws, acc') == result
    ensures Apply(t, ps, es + fs, vs, acc) == result
  {
    ApplyConcat(t, ps, es, fs, vs, acc);
  }

  lemma SectionBack(
      known: Type, full: Type, version: int, v: Value, ps: seq<Value>, es: seq<Entry>, rest: seq<byte>)
    requires v.StructV? && TagsAlign(known, full) && full.fromFlexible && FieldsConform(full, v.fields)
    requires NumTags(known) <= NumTags(full) && TagsFit(full, v)
    requires |ps| == |known.fields| && BodiesDecode(known, full, version, v.fields, ps)
    requires es == KnownEntries(full, version, true, v.fields, 0) + UnknownEntries(v.unknown)
    ensures DecodeTags(known, version, true, |es|, Mix(known, full, version, true, v.fields, ps, 0), map[],
                       Source(EncodeEntries(es) + rest, false)) ==
            Done((Mix(known, full, version, true, v.fields, ps, NumTags(full)),
                  Extras(known, full, version, v.fields, 0) + v.unknown),
                 Source(rest, false))
  {
    SectionOk(known, full, version, v, ps, es);
    SectionApplies(known, full, version, v, ps, es);
    EntriesBack(known, version, true, ps, es, Mix(known, full, version, true, v.fields, ps, 0), map[], rest);
  }

  lemma CountBack(n: nat, entries: seq<byte>, rest: seq<byte>)
    requires n < 0x1_0000_0000
    ensures ReadUvarint(Source(Leb(n % 0x1_0000_0000) + entries + rest, false)) == (n, Source(entries + rest, false))
  {
    hide Leb, ReadUvarint;
    Assoc(Leb(n), entries, rest);
    ReadUvarintBack(n, entries + rest);
  }

  lemma SectionReadBack(known: Type, full: Type, version: int, v: Value, ps: seq<Value>, rest: seq<byte>)
    requires v.StructV? && TagsAlign(known, full) && full.fromFlexible && FieldsConform(full, v.fields)
    requires NumTags(known) <= NumTags(full) && TagsFit(full, v)
    requires |ps| == |known.fields| && BodiesDecode(known, full, version, v.fields, ps)
    ensures
      var (n, r) := ReadUvarint(Source(EncodeTags(full, version, true, v) + rest, false));
      DecodeTags(known, version, true, n, Mix(known, full, version, true, v.fields, ps, 0), map[], r) ==
      Done((Mix(known, full, version, true, v.fields, ps, NumTags(full)),
            Extras(known, full, version, v.fields, 0) + v.unknown),
           Source(rest, false))
  {
    var es := KnownEntries(full, version, true, v.fields, 0) + UnknownEntries(v.unknown);
    KnownCount(full, version, true, v.fields, 0);
    UnknownCount(v.unknown);
    CountBack(|es|, EncodeEntries(es), rest);
    SectionBack(known, full, version, v, ps, es, rest);
  }

  lemma OlderAligns(known: Type, full: Type)
    requires known.StructT? && WellFormed(known) && WellFormed(full) && Older(known, full) && known.fromFlexible
    ensures TagsAlign(known, full) && NumTags(known) <= NumTags(full)
  {
    forall i | 0 <= i < |known.fields| ensures known.fields[i].tag == full.fields[i].tag {
      assert SameGates(known.fields[i], full.fields[i]);
    }
    forall k | k in TagSet(known.fields) ensures k in TagSet(full.fields) {
      var i :| 0 <= i < |known.fields| && known.fields[i].tag == k && k >= 0;
      assert full.fields[i].tag == k;
    }
    SubsetSize(TagSet(known.fields), TagSet(full.fields));
  }

  lemma {:induction false} BodiesBack(known: Type, full: Type, version: int, vs: seq<Value>, ps: seq<Value>)
    requires FieldsReady(known, full, version, true, vs) && ps == ProjectEach(known, full, version, true, vs)
    ensures BodiesDecode(known, full, version, vs, ps)
    decreases known, 1, 0
  {
    forall i | 0 <= i < |full.fields| && Tagged(full, version, true, vs, i)
      ensures BodyDecodes(known, full, version, vs, ps, i)
    {
      if i < |known.fields| {
        FieldBack(known, full, version, true, vs, i, []);
        EmptyUnit(Encode(full.fields[i].typ, version, true, vs[i]));
      }
    }
  }

  /** The bytes of a struct after its presence byte. */
  ghost function EncodeContents(t: Type, version: int, flexible: bool, v: Value): seq<byte>
    requires t.StructT? && v.StructV? && FieldsConform(t, v.fields)
  {
    EncodeFields(t, version, flexible, v.fields, 0)
    + (if t.fromFlexible && flexible then EncodeTags(t, version, flexible, v) else [])
  }

  lemma {:induction false} PlainBack(known: Type, full: Type, version: int, flexible: bool, v: Value, rest: seq<byte>)
    requires known.StructT? && v.StructV? && Ready(known, full, version, flexible, v)
    requires !(full.fromFlexible && flexible)
    ensures DecodeStruct(known, version, flexible, Source(EncodeContents(full, version, flexible, v) + rest, false)) ==
            Done(Project(known, full, version, flexible, v), Source(rest, false))
    decreases known, 2, 0
  {
    var ps := ProjectEach(known, full, version, flexible, v.fields);
    var fields := EncodeFields(full, version, flexible, v.fields, 0);
    assert EncodeContents(full, version, flexible, v) == fields;
    assert Mix(known, full, version, flexible, v.fields, ps, 0) ==
           Mix(known, full, version, flexible, v.fields, ps, NumTags(full));
    if known.fields == [] {
      ExtrasAbsent(known, full, version, flexible, v.fields, 0);
      EmptyUnit(rest);
    } else {
      FieldsBack(known, full, version, flexible, v.fields, ps, 0, InitialFields(known), rest);
    }
  }

  lemma {:induction false} FlexibleBack(known: Type, full: Type, version: int, v: Value, rest: seq<byte>)
    requires known.StructT? && v.StructV? && Ready(known, full, version, true, v) && full.fromFlexible
    ensures DecodeStruct(known, version, true, Source(EncodeContents(full, version, true, v) + rest, false)) ==
            Done(Project(known, full, version, true, v), Source(rest, false))
    decreases known, 2, 0
  {
    var ps := ProjectEach(known, full, version, true, v.fields);
    var fields, tags := EncodeFields(full, version, true, v.fields, 0), EncodeTags(full, version, true, v);
    Assoc(fields, tags, rest);
    FieldsBack(known, full, version, true, v.fields, ps, 0, InitialFields(known), tags + rest);
    OlderAligns(known, full);
    BodiesBack(known, full, version, v.fields, ps);
    SectionReadBack(known, full, version, v, ps, rest);
  }

  lemma {:induction false} StructBack(known: Type, full: Type, version: int, flexible: bool, v: Value, rest: seq<byte>)
    requires known.StructT? && Ready(known, full, version, flexible, v)
    ensures DecodesTo(known, full, version, flexible, v, rest)
    decreases known, 2, 1
  {
    hide Encode, Decode, DecodeStruct, Project, EncodeContents;
    if v.NilV? {
      NilBack(known, full, version, flexible, v, rest);
    } else {
      if full.fromFlexible && flexible {
        FlexibleBack(known, full, version, v, rest);
      } else {
        PlainBack(known, full, version, flexible, v, rest);
      }
      ContentsBack(known, full, version, flexible, v, rest, Project(known, full, version, flexible, v));
    }
  }

  lemma NilBack(known: Type, full: Type, version: int, flexible: bool, v: Value, rest: seq<byte>)
    requires known.StructT? && Older(known, full) && Conforms(full, v) && v.NilV?
    ensures DecodesTo(known, full, version, flexible, v, rest)
  {
    hide DecodeStruct, EncodeFields, EncodeTags;
    ReadIntBack(I8, -1, rest);
    PresenceByte(255, -1);
  }

  /** If the contents of a struct decode to `p`, then so does the struct with its presence byte. */
  lemma ContentsBack(known: Type, full: Type, version: int, flexible: bool, v: Value, rest: seq<byte>, p: Value)
    requires known.StructT? && full.StructT? && known.nullable == full.nullable && Conforms(full, v) && v.StructV?
    requires DecodeStruct(known, version, flexible, Source(EncodeContents(full, version, flexible, v) + rest, false)) ==
             Done(p, Source(rest, false))
    ensures Decode(known, version, flexible, Source(Encode(full, version, flexible, v) + rest, false)) ==
            Done(p, Source(rest, false))
  {
    hide Encode, DecodeStruct, EncodeContents;
    if known.nullable {
      var contents := EncodeContents(full, version, flexible, v);
      ReadIntBack(I8, 1, contents + rest);
      PresenceByte(1, 1);
      NullableContents(full, version, flexible, v, rest);
    } else {
      PlainContents(full, version, flexible, v);
    }
  }

  lemma NullableContents(t: Type, version: int, flexible: bool, v: Value, rest: seq<byte>)
    requires t.StructT? && t.nullable && v.StructV? && Conforms(t, v)
    ensures Encode(t, version, flexible, v) + rest == [1] + (EncodeContents(t, version, flexible, v) + rest)
  {
    var fields := EncodeFields(t, version, flexible, v.fields, 0);
    var tags := if t.fromFlexible && flexible then EncodeTags(t, version, flexible, v) else [];
    assert Encode(t, version, flexible, v) == [1] + fields + tags;
    Assoc([1], fields, tags);
    Assoc([1], fields + tags, rest);
  }

  lemma PlainContents(t: Type, version: int, flexible: bool, v: Value)
    requires t.StructT? && !t.nullable && v.StructV? && Conforms(t, v)
    ensures Encode(t, version, flexible, v) == EncodeContents(t, version, flexible, v)
  {
    EmptyUnit(EncodeFields(t, version, flexible, v.fields, 0));
  }
}
