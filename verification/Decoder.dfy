/**
 The emitted decoders as they run: a `Reader` is consumed in place, arrays and
 tag sections are loops, and an invalidated reader makes an array return early.
 */
module Decoder {
  import opened Wrappers
  import opened Varints
  import opened Kbin
  import opened KbinReader
  import opened Schema
  import opened Codec

  /** How a run of emitted code relates to its meaning: `failed` means that it returned an error. */
  ghost predicate Ran<T>(s: Step<T>, failed: bool, v: T, r: Source) {
    if s.Failed? then failed else !failed && v == s.v && r == s.r
  }

  method RunDecode(t: Type, version: int, flexible: bool, b: Reader) returns (failed: bool, v: Value)
    modifies b
    ensures Ran(Decode(t, version, flexible, old(b.State())), failed, v, b.State())
    decreases t, 3
  {
    failed := false;
    match t
    case BoolT(_) => var x := b.Bool(); v := BoolV(x);
    case IntT(kind, _) => var i := ReadNumber(kind, b); v := IntV(i);
    case UuidT => var span := b.Span(16); v := if span.Some? then BytesV(span) else Zero(UuidT);
    case ArrayT(_, _, _, _, _) => failed, v := RunArray(t, version, flexible, b);
    case StructT(nullable, _, _) =>
      if nullable {
        var present := b.Int8();
        if present == -1 || b.bad { return false, NilV; }
      }
      failed, v := RunStruct(t, version, flexible, b);
    case _ => v := RunBytes(t, version, flexible, b);
  }

  method ReadNumber(kind: IntKind, b: Reader) returns (i: int)
    modifies b
    ensures (i, b.State()) == ReadInt(kind, old(b.State()))
  {
    match kind
    case I8 => i := b.Int8();
    case I16 => i := b.Int16();
    case U16 => i := b.Uint16();
    case I32 => i := b.Int32();
    case U32 => i := b.Uint32();
    case I64 => i := b.Int64();
    case Var32 => i := b.Varint();
    case Var64 => i := b.Varlong();
  }

  method RunBytes(t: Type, version: int, flexible: bool, b: Reader) returns (v: Value)
    requires IsBytesLike(t)
    modifies b
    ensures v.BytesV? && (v.bytes, b.State()) == DecodeBytes(t, version, flexible, old(b.State()))
  {
    var k := LengthKind(t, flexible);
    match t
    case NullableStringT(_, _) =>
      if NilAllowed(t, version) {
        var s := b.NullableString(k);
        v := BytesV(s);
      } else {
        var s := b.String(k);
        v := BytesV(Some(s));
      }
    case BytesT(_) => var s := b.Bytes(k); v := BytesV(s);
    case NullableBytesT(_) => var s := b.NullableBytes(k); v := BytesV(s);
    case VarintBytesT => var s := b.NullableBytes(k); v := BytesV(s);
    case VarintStringT => var s := b.NullableBytes(k); v := BytesV(Some(OrEmpty(s)));
    case StringT(_) => var s := b.String(k); v := BytesV(Some(s));
  }

  method RunArray(t: Type, version: int, flexible: bool, b: Reader) returns (failed: bool, v: Value)
    requires t.ArrayT?
    modifies b
    ensures Ran(Decode(t, version, flexible, old(b.State())), failed, v, b.State())
    decreases t, 2
  {
    var l := b.ArrayLen(LengthKind(t, flexible));
    if b.bad { return true, ArrayV(None); }
    var a: Option<seq<Value>> := None;
    if !t.varint && t.nullable && (version < t.nullableVersion || l == 0) { a := Some([]); }
    var n: nat := if l > 0 then l else 0;
    ghost var start := b.State();
    var vs: seq<Value> := [];
    ElemsAround(t.inner, version, flexible, n, start, vs, start);
    while |vs| < n
      invariant |vs| <= n
      invariant ElemsLeft(t.inner, version, flexible, n, start, vs, b.State())
      decreases n - |vs|
    {
      NextElem(t.inner, version, flexible, n, start, vs, b.State());
      var w;
      failed, w := RunDecode(t.inner, version, flexible, b);
      if failed { return true, ArrayV(None); }
      vs := vs + [w];
    }
    ElemsAround(t.inner, version, flexible, n, start, vs, b.State());
    failed := false;
    v := ArrayV(if l > 0 || a.Some? then Some(vs) else None);
  }

  /** Having decoded `vs` and stopped at `r`, what is left completes the array. */
  ghost predicate ElemsLeft(
      inner: Type, version: int, flexible: bool, n: nat, start: Source, vs: seq<Value>, r: Source)
  {
    |vs| <= n &&
    var left := DecodeElems(inner, version, flexible, n - |vs|, r);
    DecodeElems(inner, version, flexible, n, start) == if left.Failed? then Failed else Done(vs + left.v, left.r)
  }

  lemma ElemsAround(
      inner: Type, version: int, flexible: bool, n: nat, start: Source, vs: seq<Value>, r: Source)
    ensures ElemsLeft(inner, version, flexible, n, start, [], start)
    ensures |vs| == n && ElemsLeft(inner, version, flexible, n, start, vs, r) ==>
      DecodeElems(inner, version, flexible, n, start) == Done(vs, r)
  {
    assert vs + [] == vs;
    var all := DecodeElems(inner, version, flexible, n, start);
    if all.Done? { assert [] + all.v == all.v; }
  }

  lemma NextElem(
      inner: Type, version: int, flexible: bool, n: nat, start: Source, vs: seq<Value>, r: Source)
    requires |vs| < n && ElemsLeft(inner, version, flexible, n, start, vs, r)
    ensures var d := Decode(inner, version, flexible, r);
      if d.Failed? then DecodeElems(inner, version, flexible, n, start) == Failed
      else ElemsLeft(inner, version, flexible, n, start, vs + [d.v], d.r)
  {
    var d := Decode(inner, version, flexible, r);
    if d.Done? {
      var left := DecodeElems(inner, version, flexible, n - |vs| - 1, d.r);
      if left.Done? { Regroup(vs, d.v, left.v); }
    }
  }

  lemma Regroup(vs: seq<Value>, v: Value, ws: seq<Value>)
    ensures vs + ([v] + ws) == vs + [v] + ws
  {
  }

  method RunStruct(t: Type, version: int, flexible: bool, b: Reader) returns (failed: bool, v: Value)
    requires t.StructT?
    modifies b
    ensures Ran(DecodeStruct(t, version, flexible, old(b.State())), failed, v, b.State())
    decreases t, 2
  {
    if t.fields == [] { return false, StructV([], map[]); }
    var vs := InitialFields(t);
    var i := 0;
    while i < |t.fields|
      invariant i <= |t.fields| == |vs|
      invariant DecodeFields(t, version, flexible, 0, InitialFields(t), old(b.State())) ==
                DecodeFields(t, version, flexible, i, vs, b.State())
    {
      if Present(t.fields[i], version) {
        var w;
        failed, w := RunDecode(t.fields[i].typ, version, flexible, b);
        if failed { return true, NilV; }
        vs := vs[i := w];
      }
      i := i + 1;
    }
    if t.fromFlexible && flexible {
      failed, v := RunTags(t, version, flexible, vs, b);
    } else {
      failed, v := false, StructV(vs, map[]);
    }
  }

  method RunTags(t: Type, version: int, flexible: bool, start: seq<Value>, b: Reader) returns (failed: bool, v: Value)
    requires t.StructT? && |start| == |t.fields|
    modifies b
    ensures var (n, r) := ReadUvarint(old(b.State()));
      match DecodeTags(t, version, flexible, n, start, map[], r)
      case Failed => failed
      case Done(all, end) => !failed && v == StructV(all.0, all.1) && b.State() == end
    decreases t, 1
  {
    var n: nat := b.Uvarint();
    var vs, unknown;
    failed, vs, unknown := TagLoop(t, version, flexible, n, start, b);
    v := StructV(vs, unknown);
  }

  method TagLoop(t: Type, version: int, flexible: bool, count: nat, start: seq<Value>, b: Reader)
      returns (failed: bool, vs: seq<Value>, unknown: map<nat, seq<byte>>)
    requires t.StructT? && |start| == |t.fields|
    modifies b
    ensures Ran(DecodeTags(t, version, flexible, count, start, map[], old(b.State())), failed, (vs, unknown), b.State())
    decreases t, 0, 1
  {
    vs, unknown := start, map[];
    var n := count;
    while n > 0
      invariant |vs| == |t.fields|
      invariant DecodeTags(t, version, flexible, count, start, map[], old(b.State())) ==
                DecodeTags(t, version, flexible, n, vs, unknown, b.State())
      decreases n
    {
      failed, vs, unknown := RunTag(t, version, flexible, n, vs, unknown, b);
      if failed { return; }
      n := n - 1;
    }
    failed := false;
  }

  lemma NextTag(
      t: Type, version: int, flexible: bool, n: nat, vs: seq<Value>, unknown: map<nat, seq<byte>>, r: Source)
    requires t.StructT? && |vs| == |t.fields| && n > 0
    ensures var d := DecodeTag(t, version, flexible, vs, unknown, r);
      DecodeTags(t, version, flexible, n, vs, unknown, r) ==
      if d.Failed? then Failed else DecodeTags(t, version, flexible, n - 1, d.v.0, d.v.1, d.r)
  {
  }

  /** One turn of the loop, with `n` turns to go. */
  method RunTag(
      t: Type, version: int, flexible: bool, ghost n: nat, vs0: seq<Value>, unknown0: map<nat, seq<byte>>, b: Reader)
      returns (failed: bool, vs: seq<Value>, unknown: map<nat, seq<byte>>)
    requires t.StructT? && |vs0| == |t.fields| && n > 0
    modifies b
    ensures |vs| == |t.fields|
    ensures DecodeTags(t, version, flexible, n, vs0, unknown0, old(b.State())) ==
            if failed then Failed else DecodeTags(t, version, flexible, n - 1, vs, unknown, b.State())
    decreases t, 0, 0
  {
    vs, unknown := vs0, unknown0;
    NextTag(t, version, flexible, n, vs, unknown, b.State());
    var key := b.Uvarint();
    var size := b.Uvarint();
    var body := b.Span(size);
    var i := TagIndex(t.fields, key);
    if key < NumTags(t) && i < |vs| {
      var inner := new Reader(OrEmpty(body));
      var w;
      failed, w := RunDecode(t.fields[i].typ, version, flexible, inner);
      if failed || inner.bad { return true, vs, unknown; }
      return false, vs[i := w], unknown;
    }
    return false, vs, unknown[key := OrEmpty(body)];
  }
}
