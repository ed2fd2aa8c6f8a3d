/**
 The schema tree of `generate/main.go`, the Go values of the types it
 generates, and the defaults those values start from.
 */
module Schema {
  import opened Wrappers
  import opened Varints
  import opened Kbin

  /**
   A schema type. `default` is the declared default, or the type's own (false
   or zero) when none is declared. Enumerations, timeouts and throttles are
   encoded as the number they wrap.
   */
  datatype Type =
    | BoolT(default: bool)
    | IntT(kind: IntKind, intDefault: int)
    | UuidT
    | StringT(fromFlexible: bool)
    | NullableStringT(fromFlexible: bool, nullableVersion: nat)
    | BytesT(fromFlexible: bool)
    | NullableBytesT(fromFlexible: bool)
    | VarintStringT
    | VarintBytesT
    | ArrayT(inner: Type, varint: bool, nullable: bool, nullableVersion: nat, fromFlexible: bool)
    | StructT(nullable: bool, fromFlexible: bool, fields: seq<Field>)

  /** Versions and tags are -1 when not given. */
  datatype Field = Field(minVersion: int, maxVersion: int, tag: int, typ: Type)

  /** A Go value: `None` is a nil slice or string pointer, `NilV` a nil struct pointer. */
  datatype Value =
    | BoolV(b: bool)
    | IntV(i: int)
    | BytesV(bytes: Option<seq<byte>>)
    | ArrayV(elems: Option<seq<Value>>)
    | NilV
    | StructV(fields: seq<Value>, unknown: map<nat, seq<byte>>)

  function Elems(v: Value): seq<Value>
    requires v.ArrayV?
  {
    if v.elems.Some? then v.elems.value else []
  }

  /** `v` is a Go value of the type generated for `t`. */
  ghost predicate Conforms(t: Type, v: Value)
    decreases t
  {
    match t
    case BoolT(_) => v.BoolV?
    case IntT(kind, _) => v.IntV? && InRange(kind, v.i)
    case UuidT => v.BytesV? && v.bytes.Some? && |v.bytes.value| == 16
    case StringT(_) => v.BytesV? && v.bytes.Some?
    case VarintStringT => v.BytesV? && v.bytes.Some?
    case NullableStringT(_, _) => v.BytesV?
    case BytesT(_) => v.BytesV?
    case NullableBytesT(_) => v.BytesV?
    case VarintBytesT => v.BytesV?
    case ArrayT(inner, _, _, _, _) => v.ArrayV? && forall i :: 0 <= i < |Elems(v)| ==> Conforms(inner, Elems(v)[i])
    case StructT(nullable, _, fields) =>
      (nullable && v.NilV?) ||
      (v.StructV? && |v.fields| == |fields| &&
       forall i :: 0 <= i < |fields| ==> Conforms(fields[i].typ, v.fields[i]))
  }

  /** The Go zero value. */
  function Zero(t: Type): Value
    decreases t
  {
    match t
    case BoolT(_) => BoolV(false)
    case IntT(_, _) => IntV(0)
    case UuidT => BytesV(Some(seq(16, _ => 0)))
    case StringT(_) => BytesV(Some([]))
    case VarintStringT => BytesV(Some([]))
    case NullableStringT(_, _) => BytesV(None)
    case BytesT(_) => BytesV(None)
    case NullableBytesT(_) => BytesV(None)
    case VarintBytesT => BytesV(None)
    case ArrayT(_, _, _, _, _) => ArrayV(None)
    case StructT(nullable, _, fields) =>
      if nullable then NilV else StructV(seq(|fields|, i requires 0 <= i < |fields| => Zero(fields[i].typ)), map[])
  }

  /** The zero value after `Default()` has filled in declared defaults, nested structs included. */
  function Default(t: Type): Value
    decreases t
  {
    match t
    case BoolT(d) => BoolV(d)
    case IntT(_, d) => IntV(d)
    case UuidT => Zero(t)
    case StringT(_) => Zero(t)
    case VarintStringT => Zero(t)
    case NullableStringT(_, _) => Zero(t)
    case BytesT(_) => Zero(t)
    case NullableBytesT(_) => Zero(t)
    case VarintBytesT => Zero(t)
    case ArrayT(_, _, _, _, _) => Zero(t)
    case StructT(nullable, _, fields) =>
      if nullable then NilV else StructV(seq(|fields|, i requires 0 <= i < |fields| => Default(fields[i].typ)), map[])
  }

  /**
   What the fields of a struct hold when decoding starts. `Default()` of a
   nullable struct is generated with an empty body, so its fields start at zero.
   */
  function InitialFields(t: Type): (vs: seq<Value>)
    requires t.StructT?
    ensures |vs| == |t.fields|
  {
    seq(|t.fields|, i requires 0 <= i < |t.fields| =>
      if t.nullable then Zero(t.fields[i].typ) else Default(t.fields[i].typ))
  }

  // ---------------------------------------------------------------------
  // Versions and tags
  // ---------------------------------------------------------------------

  /** Whether a field is part of the untagged section at `version`. */
  predicate Present(f: Field, version: int) {
    if f.maxVersion > -1 then f.minVersion <= version <= f.maxVersion
    else if f.minVersion > 0 then version >= f.minVersion
    else f.minVersion != -1
  }

  function TagSet(fields: seq<Field>): set<int> {
    set i | 0 <= i < |fields| && fields[i].tag >= 0 :: fields[i].tag
  }

  function NumTags(t: Type): nat
    requires t.StructT?
  {
    |TagSet(t.fields)|
  }

  /** The position of the field with tag `k`, or the number of fields. */
  function TagIndex(fields: seq<Field>, k: int): (i: nat)
    ensures i <= |fields|
    ensures i < |fields| ==> fields[i].tag == k
  {
    if fields == [] || fields[0].tag == k then 0 else 1 + TagIndex(fields[1..], k)
  }

  /** Whether the encoder can emit a tagged field of this type; it stops the generator otherwise. */
  predicate CanTag(t: Type) {
    t.BoolT? || t.IntT? || t.UuidT? || t.NullableStringT? || t.NullableBytesT? || t.ArrayT? || t.StructT?
  }

  /**
   The test the encoder makes before it emits a tagged field. A nullable struct
   is always emitted: `reflect.DeepEqual` of a typed nil pointer and an untyped
   nil is false.
   */
  predicate Written(t: Type, version: int, v: Value)
    requires t.ArrayT? ==> v.ArrayV?
  {
    match t
    case StructT(nullable, _, _) => nullable || v != Default(t)
    case ArrayT(_, _, nullable, nv, _) =>
      if nullable then (version < nv && |Elems(v)| > 0) || (version >= nv && v.elems.Some?)
      else |Elems(v)| > 0
    case _ => v != Default(t)
  }

  // ---------------------------------------------------------------------
  // Well-formed schemas
  // ---------------------------------------------------------------------

  /** The tags are 0, 1, 2, ... without gap or repetition. */
  ghost predicate TagsInOrder(fields: seq<Field>) {
    (forall k :: 0 <= k < |TagSet(fields)| ==> k in TagSet(fields)) &&
    (forall i, j :: 0 <= i < j < |fields| && fields[i].tag >= 0 ==> fields[i].tag != fields[j].tag)
  }

  predicate FieldGates(f: Field) {
    f.minVersion >= -1 && f.maxVersion >= -1 && f.tag >= -1 &&
    (f.minVersion == -1 ==> f.maxVersion == -1 && f.tag >= 0)
  }

  /** What the generator and the compiler of the generated code demand of a schema. */
  ghost predicate WellFormed(t: Type)
    decreases t
  {
    match t
    case IntT(kind, d) => InRange(kind, d) && InRange(kind, 0)
    case ArrayT(inner, _, _, _, _) => WellFormed(inner) && !(inner.StructT? && inner.nullable)
    case StructT(_, fromFlexible, fields) =>
      (forall i :: 0 <= i < |fields| ==> WellFormed(fields[i].typ) && FieldGates(fields[i])) &&
      (fromFlexible ==> TagsInOrder(fields)) &&
      (fromFlexible ==> forall i :: 0 <= i < |fields| && fields[i].tag >= 0 ==> CanTag(fields[i].typ))
    case _ => true
  }

  /**
   The condition under which encoder and decoder agree on the tag sections of a
   flexible version: every flexible struct, at any depth, has a field.
   */
  ghost predicate Sectioned(t: Type)
    decreases t
  {
    match t
    case ArrayT(inner, _, _, _, _) => Sectioned(inner)
    case StructT(_, fromFlexible, fields) =>
      (fromFlexible ==> fields != []) && forall i :: 0 <= i < |fields| ==> Sectioned(fields[i].typ)
    case _ => true
  }

  /**
   `known` is a schema that a peer with schema `full` still talks to: every struct
   of `full`, at any depth, may have more tagged fields at its end.
   */
  ghost predicate Older(known: Type, full: Type)
    decreases known
  {
    match known
    case ArrayT(inner, varint, nullable, nv, flex) =>
      full.ArrayT? && full == ArrayT(full.inner, varint, nullable, nv, flex) && Older(inner, full.inner)
    case StructT(nullable, fromFlexible, fields) =>
      full.StructT? && full.nullable == nullable && full.fromFlexible == fromFlexible && |fields| <= |full.fields| &&
      (forall i :: 0 <= i < |fields| ==>
        SameGates(fields[i], full.fields[i]) && Older(fields[i].typ, full.fields[i].typ)) &&
      (forall i :: |fields| <= i < |full.fields| ==>
        full.fields[i].minVersion == -1 && full.fields[i].maxVersion == -1 && full.fields[i].tag >= |TagSet(fields)|)
    case _ => known == full
  }

  predicate SameGates(f: Field, g: Field) {
    f.minVersion == g.minVersion && f.maxVersion == g.maxVersion && f.tag == g.tag
  }

  // ---------------------------------------------------------------------
  // Facts about tags and defaults
  // ---------------------------------------------------------------------

  lemma {:induction false} InitialSegment(n: nat) returns (s: set<int>)
    ensures |s| == n && forall k :: k in s <==> 0 <= k < n
  {
    if n == 0 {
      s := {};
    } else {
      var s' := InitialSegment(n - 1);
      s := s' + {n - 1};
    }
  }

  /** Tags in order are exactly the numbers below their count. */
  lemma TagsAreBelowCount(fields: seq<Field>)
    requires TagsInOrder(fields)
    ensures forall k :: k in TagSet(fields) <==> 0 <= k < |TagSet(fields)|
  {
    var s := InitialSegment(|TagSet(fields)|);
    forall k | k in s ensures k in TagSet(fields) {
    }
    SubsetOfSameSize(s, TagSet(fields));
  }

  lemma {:induction false} TagIndexIsFirst(fields: seq<Field>, k: int, j: nat)
    requires j < TagIndex(fields, k)
    ensures fields[j].tag != k
  {
    if j > 0 { TagIndexIsFirst(fields[1..], k, j - 1); }
  }

  lemma TagIndexOf(fields: seq<Field>, i: nat)
    requires TagsInOrder(fields) && i < |fields| && fields[i].tag >= 0
    ensures TagIndex(fields, fields[i].tag) == i && fields[i].tag < |TagSet(fields)|
  {
    TagsAreBelowCount(fields);
    var j := TagIndex(fields, fields[i].tag);
    assert fields[i].tag in TagSet(fields);
    if j < i { assert false; }
    if i < j { TagIndexIsFirst(fields, fields[i].tag, i); }
  }

  lemma TagIndexExists(fields: seq<Field>, k: nat)
    requires TagsInOrder(fields) && k < |TagSet(fields)|
    ensures TagIndex(fields, k) < |fields|
  {
    assert k in TagSet(fields);
    var i :| 0 <= i < |fields| && fields[i].tag == k;
    if TagIndex(fields, k) == |fields| { TagIndexIsFirst(fields, k, i); }
  }

  lemma {:induction false} DefaultConforms(t: Type)
    requires WellFormed(t)
    ensures Conforms(t, Default(t)) && Conforms(t, Zero(t))
    decreases t
  {
    if t.StructT? && !t.nullable {
      forall i | 0 <= i < |t.fields|
        ensures Conforms(t.fields[i].typ, Default(t).fields[i]) && Conforms(t.fields[i].typ, Zero(t).fields[i])
      {
        DefaultConforms(t.fields[i].typ);
      }
    }
  }

  lemma {:induction false} OlderReflexive(t: Type)
    ensures Older(t, t)
    decreases t
  {
    match t
    case ArrayT(inner, _, _, _, _) => OlderReflexive(inner);
    case StructT(_, _, fields) =>
      forall i | 0 <= i < |fields| ensures Older(fields[i].typ, fields[i].typ) {
        OlderReflexive(fields[i].typ);
      }
    case _ =>
  }
}
