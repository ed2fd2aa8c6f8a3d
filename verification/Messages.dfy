/**
 The generated `AppendTo` and `ReadFrom`, and what holds between them: nothing
 is lost in a round trip, an older reader keeps what it does not know, and
 exactly where the generated code falls short of that.
 */
module Messages {
  import opened Wrappers
  import opened Varints
  import opened Kbin
  import opened Schema
  import opened Codec
  import opened RoundTrip

  // ---------------------------------------------------------------------
  // Values that come back unchanged
  // ---------------------------------------------------------------------

  /**
   `v` has the form in which a decoder leaves it at this version: nil and empty
   are not mixed up where the format has only one of them, and what does not
   travel is what a decoder starts from.
   */
  ghost predicate Canonical(t: Type, version: int, flexible: bool, v: Value)
    requires Conforms(t, v)
    decreases t
  {
    match t
    case BoolT(_) => true
    case IntT(_, _) => true
    case UuidT => true
    case ArrayT(inner, varint, nullable, _, _) =>
      (if nullable && !varint then v.elems == None ==> NilAllowed(t, version) else v.elems != Some([])) &&
      forall i :: 0 <= i < |Elems(v)| ==> Canonical(inner, version, flexible, Elems(v)[i])
    case StructT(_, _, fields) =>
      v.StructV? ==>
        (forall i :: 0 <= i < |fields| ==>
          if Carried(t, version, flexible, v.fields, i) then Canonical(fields[i].typ, version, flexible, v.fields[i])
          else v.fields[i] == InitialFields(t)[i]) &&
        (v.unknown == map[] || (t.fromFlexible && flexible))
    case _ => v.bytes == None ==> NilAllowed(t, version)
  }

  lemma {:induction false} CanonicalProjects(t: Type, version: int, flexible: bool, v: Value)
    requires WellFormed(t) && Conforms(t, v) && Older(t, t) && Canonical(t, version, flexible, v)
    ensures Project(t, t, version, flexible, v) == v
    decreases t
  {
    match t
    case ArrayT(inner, _, _, _, _) =>
      forall i | 0 <= i < |Elems(v)| ensures Project(inner, inner, version, flexible, Elems(v)[i]) == Elems(v)[i] {
        CanonicalProjects(inner, version, flexible, Elems(v)[i]);
      }
      SameElems(inner, version, flexible, Elems(v));
    case StructT(_, _, _) =>
      if v.StructV? { CanonicalStruct(t, version, flexible, v); }
    case _ =>
  }

  lemma {:induction false} SameElems(inner: Type, version: int, flexible: bool, vs: seq<Value>)
    requires Older(inner, inner) && forall i :: 0 <= i < |vs| ==> Conforms(inner, vs[i])
    requires forall i :: 0 <= i < |vs| ==> Project(inner, inner, version, flexible, vs[i]) == vs[i]
    ensures ProjectAll(inner, inner, version, flexible, vs) == vs
    decreases |vs|
  {
    hide Project, Conforms, Older;
    if vs != [] { SameElems(inner, version, flexible, vs[1..]); }
  }

  lemma {:induction false} CanonicalStruct(t: Type, version: int, flexible: bool, v: Value)
    requires t.StructT? && v.StructV? && WellFormed(t) && Conforms(t, v) && Older(t, t)
    requires Canonical(t, version, flexible, v)
    ensures Project(t, t, version, flexible, v) == v
    decreases t, 0
  {
    var ps := ProjectEach(t, t, version, flexible, v.fields);
    var ms := Mix(t, t, version, flexible, v.fields, ps, NumTags(t));
    forall i | 0 <= i < |t.fields| ensures ms[i] == v.fields[i] {
      if Carried(t, version, flexible, v.fields, i) {
        CanonicalProjects(t.fields[i].typ, version, flexible, v.fields[i]);
        if !Present(t.fields[i], version) { TagIndexOf(t.fields, i); }
      }
    }
    assert ms == v.fields;
    assert KnownEntries(t, version, flexible, v.fields, NumTags(t)) == [];
    assert map[] + v.unknown == v.unknown;
  }

  /** A value in canonical form is what decoding its encoding returns, and the bytes after it are left alone. */
  lemma ExactRoundTrip(t: Type, version: int, flexible: bool, v: Value, rest: seq<byte>)
    requires WellFormed(t) && (flexible ==> Sectioned(t)) && version >= 0 && Conforms(t, v)
    requires Encodable(t, version, flexible, v) && Canonical(t, version, flexible, v)
    ensures Decode(t, version, flexible, Source(Encode(t, version, flexible, v) + rest, false)) ==
            Done(v, Source(rest, false))
  {
    OlderReflexive(t);
    DecodeBack(t, t, version, flexible, v, rest);
    CanonicalProjects(t, version, flexible, v);
  }

  /** No encoding is the beginning of another: the bytes determine the value and where it ends. */
  lemma Unambiguous(
      t: Type, version: int, flexible: bool, v: Value, rest: seq<byte>, w: Value, rest': seq<byte>)
    requires WellFormed(t) && (flexible ==> Sectioned(t)) && version >= 0
    requires Conforms(t, v) && Encodable(t, version, flexible, v) && Canonical(t, version, flexible, v)
    requires Conforms(t, w) && Encodable(t, version, flexible, w) && Canonical(t, version, flexible, w)
    requires Encode(t, version, flexible, v) + rest == Encode(t, version, flexible, w) + rest'
    ensures v == w && rest == rest'
  {
    ExactRoundTrip(t, version, flexible, v, rest);
    ExactRoundTrip(t, version, flexible, w, rest');
  }

  // ---------------------------------------------------------------------
  // Fields that do not travel
  // ---------------------------------------------------------------------

  ghost function Decoded(t: Type, version: int, flexible: bool, v: Value): Value
    requires Conforms(t, v)
  {
    var d := Decode(t, version, flexible, Source(Encode(t, version, flexible, v), false));
    if d.Done? then d.v else NilV
  }

  lemma DecodedIsProjected(t: Type, version: int, flexible: bool, v: Value)
    requires WellFormed(t) && (flexible ==> Sectioned(t)) && version >= 0
    requires Conforms(t, v) && Encodable(t, version, flexible, v)
    ensures Older(t, t) && Decoded(t, version, flexible, v) == Project(t, t, version, flexible, v)
  {
    OlderReflexive(t);
    DecodeBack(t, t, version, flexible, v, []);
    EmptyUnit(Encode(t, version, flexible, v));
  }

  /**
   A field that does not travel at this version decodes to its default if and
   only if the struct is not nullable or that default is the zero value: the
   `Default()` of a nullable struct is generated empty.
   */
  lemma AbsentField(t: Type, version: int, flexible: bool, v: Value, i: nat)
    requires t.StructT? && v.StructV? && WellFormed(t) && (flexible ==> Sectioned(t)) && version >= 0
    requires Conforms(t, v) && Encodable(t, version, flexible, v)
    requires FieldsConform(t, v.fields) && i < |t.fields| && !Carried(t, version, flexible, v.fields, i)
    ensures var w := Decoded(t, version, flexible, v);
      w.StructV? && |w.fields| == |t.fields| &&
      (w.fields[i] == Default(t.fields[i].typ) <==> !t.nullable || Default(t.fields[i].typ) == Zero(t.fields[i].typ))
  {
    DecodedIsProjected(t, version, flexible, v);
  }

  /**
   A tagged field is left out exactly when it is its default, which for an
   array that cannot be nil at this version means that it is empty; a nullable
   struct is never left out.
   */
  lemma LeftOut(t: Type, version: int, v: Value)
    requires Conforms(t, v) && CanTag(t)
    ensures t.ArrayT? ==>
      (!Written(t, version, v) <==> if t.nullable && version >= t.nullableVersion then v == Default(t) else Elems(v) == [])
    ensures t.StructT? && t.nullable ==> Written(t, version, v)
    ensures !t.ArrayT? && !(t.StructT? && t.nullable) ==> (!Written(t, version, v) <==> v == Default(t))
  {
  }

  /** The smallest instance: a nullable struct with one tagged number of default -1 gives -1 back as 0. */
  lemma NullableLosesDefault()
    ensures var t, v := StructT(true, true, [Field(-1, -1, 0, IntT(I64, -1))]), StructV([IntV(-1)], map[]);
      WellFormed(t) && Conforms(t, v) && Encodable(t, 0, true, v) &&
      Decoded(t, 0, true, v) != v
  {
    var t, v := StructT(true, true, [Field(-1, -1, 0, IntT(I64, -1))]), StructV([IntV(-1)], map[]);
    OneTag(t);
    assert FieldsConform(t, v.fields) && !Carried(t, 0, true, v.fields, 0);
    AbsentField(t, 0, true, v, 0);
  }

  lemma OneTag(t: Type)
    requires t == StructT(true, true, [Field(-1, -1, 0, IntT(I64, -1))])
    ensures WellFormed(t) && Sectioned(t) && NumTags(t) == 1
  {
    assert t.fields[0].tag in TagSet(t.fields);
    assert TagSet(t.fields) == {0};
    assert forall k :: 0 <= k < |TagSet(t.fields)| ==> k in TagSet(t.fields);
  }

  // ---------------------------------------------------------------------
  // Older readers
  // ---------------------------------------------------------------------

  /**
   `w` is what a reader with schema `known` should get from a value `v` of schema `full` that a reader with the full
   schema gets as `x`: the fields it has, the exact bytes of every tag it lacks, and the tags that nobody knows.
   */
  ghost predicate Understands(known: Type, full: Type, version: int, v: Value, w: Value, x: Value)
    requires known.StructT? && full.StructT? && v.StructV? && FieldsConform(full, v.fields)
    requires |known.fields| <= |full.fields|
  {
    w.StructV? && |w.fields| == |known.fields| && x.StructV? && |x.fields| == |full.fields| &&
    (forall i :: 0 <= i < |known.fields| && known.fields[i].typ == full.fields[i].typ ==> w.fields[i] == x.fields[i]) &&
    (forall i :: |known.fields| <= i < |full.fields| && Written(full.fields[i].typ, version, v.fields[i]) ==>
      HoldsTag(w.unknown, full.fields[i].tag, Encode(full.fields[i].typ, version, true, v.fields[i]))) &&
    (forall k :: k in v.unknown ==> HoldsTag(w.unknown, k, v.unknown[k])) &&
    HoldsNoMore(known, full, version, v, w.unknown)
  }

  /** Among the tags kept as bytes are none but the ones nobody knows and the new ones that were written. */
  ghost predicate HoldsNoMore(known: Type, full: Type, version: int, v: Value, unknown: map<nat, seq<byte>>)
    requires known.StructT? && full.StructT? && v.StructV? && FieldsConform(full, v.fields)
  {
    (forall i :: |known.fields| <= i < |full.fields| && !Written(full.fields[i].typ, version, v.fields[i]) ==>
      full.fields[i].tag !in unknown) &&
    (forall k :: k in unknown ==> k in v.unknown || NumTags(known) <= k < NumTags(full))
  }

  predicate HoldsTag(unknown: map<nat, seq<byte>>, k: int, body: seq<byte>) {
    k >= 0 && k in unknown && unknown[k] == body
  }

  lemma ProjectUnderstands(known: Type, full: Type, version: int, v: Value)
    requires known.StructT? && v.StructV? && known.fromFlexible && Older(known, full) && Older(full, full)
    requires WellFormed(known) && WellFormed(full) && Conforms(full, v) && TagsFit(full, v)
    ensures FieldsConform(full, v.fields)
    ensures Understands(known, full, version, v, Project(known, full, version, true, v), Project(full, full, version, true, v))
  {
    var w, x := Project(known, full, version, true, v), Project(full, full, version, true, v);
    SameField(known, full, version, v);
    ExtrasHeld(known, full, version, v);
    UnknownHeld(known, full, version, v);
    NothingElse(known, full, version, v);
    assert Understands(known, full, version, v, w, x);
  }

  lemma UnknownHeld(known: Type, full: Type, version: int, v: Value)
    requires known.StructT? && v.StructV? && known.fromFlexible && Older(known, full) && Conforms(full, v)
    ensures forall k :: k in v.unknown ==> HoldsTag(Project(known, full, version, true, v).unknown, k, v.unknown[k])
  {
  }

  lemma NothingElse(known: Type, full: Type, version: int, v: Value)
    requires known.StructT? && v.StructV? && known.fromFlexible && Older(known, full)
    requires WellFormed(known) && WellFormed(full) && Conforms(full, v) && TagsFit(full, v)
    requires FieldsConform(full, v.fields)
    ensures full.StructT? && HoldsNoMore(known, full, version, v, Project(known, full, version, true, v).unknown)
  {
    var extras := EntryMap(KnownEntries(full, version, true, v.fields, NumTags(known)));
    KeysWritten(full, version, v.fields, NumTags(known));
    assert Project(known, full, version, true, v).unknown == extras + v.unknown;
    forall i | |known.fields| <= i < |full.fields| && !Written(full.fields[i].typ, version, v.fields[i])
      ensures full.fields[i].tag !in extras && full.fields[i].tag !in v.unknown
    {
      UnwrittenAbsent(full, version, v, NumTags(known), i);
    }
  }

  lemma UnwrittenAbsent(t: Type, version: int, v: Value, k: nat, i: nat)
    requires t.StructT? && v.StructV? && FieldsConform(t, v.fields) && TagsInOrder(t.fields) && TagsFit(t, v)
    requires i < |t.fields| && t.fields[i].tag >= 0 && !Written(t.fields[i].typ, version, v.fields[i])
    ensures t.fields[i].tag !in EntryMap(KnownEntries(t, version, true, v.fields, k)) && t.fields[i].tag !in v.unknown
  {
    KeysWritten(t, version, v.fields, k);
    TagIndexOf(t.fields, i);
  }

  lemma {:induction false} KeysWritten(t: Type, version: int, vs: seq<Value>, k: nat)
    requires t.StructT? && FieldsConform(t, vs) && TagsInOrder(t.fields)
    ensures forall x :: x in EntryMap(KnownEntries(t, version, true, vs, k)) ==> k <= x && IsWritten(t, version, vs, x)
    decreases NumTags(t) - k
  {
    if k < NumTags(t) {
      KeysWritten(t, version, vs, k + 1);
      KeysStep(t, version, vs, k);
      KeysMore(KnownEntries(t, version, true, vs, k), KnownEntries(t, version, true, vs, k + 1), k);
      WrittenMore(t, version, vs, k, EntryMap(KnownEntries(t, version, true, vs, k)).Keys,
                  EntryMap(KnownEntries(t, version, true, vs, k + 1)).Keys);
    }
  }

  lemma WrittenMore(t: Type, version: int, vs: seq<Value>, k: nat, keys: set<nat>, rest: set<nat>)
    requires t.StructT? && FieldsConform(t, vs) && keys <= rest + {k}
    requires forall x :: x in rest ==> k + 1 <= x && IsWritten(t, version, vs, x)
    requires keys == rest || IsWritten(t, version, vs, k)
    ensures forall x :: x in keys ==> k <= x && IsWritten(t, version, vs, x)
  {
  }

  /** `x` is the tag of a field that is written. */
  ghost predicate IsWritten(t: Type, version: int, vs: seq<Value>, x: int)
    requires t.StructT? && FieldsConform(t, vs)
  {
    0 <= x < NumTags(t) && TagIndex(t.fields, x) < |vs| &&
    Written(t.fields[TagIndex(t.fields, x)].typ, version, vs[TagIndex(t.fields, x)])
  }

  lemma KeysStep(t: Type, version: int, vs: seq<Value>, k: nat)
    requires t.StructT? && FieldsConform(t, vs) && TagsInOrder(t.fields) && k < NumTags(t)
    ensures var es, rest := KnownEntries(t, version, true, vs, k), KnownEntries(t, version, true, vs, k + 1);
      es == rest || (es != [] && es[0].tag == k && es[1..] == rest && IsWritten(t, version, vs, k))
  {
    TagIndexExists(t.fields, k);
    KnownUnfold(t, version, true, vs, k, TagIndex(t.fields, k));
  }

  lemma KeysMore(es: seq<Entry>, rest: seq<Entry>, k: nat)
    requires es == rest || (es != [] && es[0].tag == k && es[1..] == rest)
    ensures EntryMap(es).Keys <= EntryMap(rest).Keys + {k}
  {
  }

  lemma ExtrasHeld(known: Type, full: Type, version: int, v: Value)
    requires known.StructT? && v.StructV? && known.fromFlexible && Older(known, full)
    requires WellFormed(known) && WellFormed(full) && Conforms(full, v) && TagsFit(full, v)
    requires FieldsConform(full, v.fields)
    ensures forall i :: |known.fields| <= i < |full.fields| && Written(full.fields[i].typ, version, v.fields[i]) ==>
      HoldsTag(Project(known, full, version, true, v).unknown, full.fields[i].tag,
               Encode(full.fields[i].typ, version, true, v.fields[i]))
  {
    forall i | |known.fields| <= i < |full.fields| && Written(full.fields[i].typ, version, v.fields[i])
      ensures HoldsTag(Project(known, full, version, true, v).unknown, full.fields[i].tag,
                       Encode(full.fields[i].typ, version, true, v.fields[i]))
    {
      ExtraHeld(known, full, version, v, i);
    }
  }

  lemma ExtraHeld(known: Type, full: Type, version: int, v: Value, i: nat)
    requires known.StructT? && v.StructV? && known.fromFlexible && Older(known, full)
    requires WellFormed(known) && WellFormed(full) && Conforms(full, v) && TagsFit(full, v)
    requires FieldsConform(full, v.fields)
    requires |known.fields| <= i < |full.fields| && Written(full.fields[i].typ, version, v.fields[i])
    ensures HoldsTag(Project(known, full, version, true, v).unknown, full.fields[i].tag,
                     Encode(full.fields[i].typ, version, true, v.fields[i]))
  {
    TagIndexOf(full.fields, i);
    ExtraKept(full, version, v.fields, NumTags(known), i);
  }

  /**
   A reader whose schema lacks the newest tags, at any depth, understands what
   a writer with the full schema sends, and leaves what follows.
   */
  lemma ForwardCompatible(known: Type, full: Type, version: int, v: Value, rest: seq<byte>)
    requires known.StructT? && v.StructV? && known.fromFlexible && Ready(known, full, version, true, v)
    requires Sectioned(full)
    requires FieldsConform(full, v.fields)
    ensures var d := Decode(known, version, true, Source(Encode(full, version, true, v) + rest, false));
      d.Done? && d.r == Source(rest, false) &&
      Understands(known, full, version, v, d.v, Decoded(full, version, true, v))
  {
    DecodeBack(known, full, version, true, v, rest);
    OlderReflexive(full);
    DecodedIsProjected(full, version, true, v);
    ProjectUnderstands(known, full, version, v);
  }

  lemma SameField(known: Type, full: Type, version: int, v: Value)
    requires known.StructT? && v.StructV? && known.fromFlexible && Older(known, full) && Older(full, full)
    requires WellFormed(known) && WellFormed(full) && Conforms(full, v)
    ensures forall i :: 0 <= i < |known.fields| && known.fields[i].typ == full.fields[i].typ ==>
      Project(known, full, version, true, v).fields[i] == Project(full, full, version, true, v).fields[i]
  {
  }

  /** The entries from tag `k` on hold every written field whose tag is at least `k`. */
  lemma {:induction false} ExtraKept(t: Type, version: int, vs: seq<Value>, k: nat, i: nat)
    requires t.StructT? && FieldsConform(t, vs) && i < |vs| && TagsInOrder(t.fields)
    requires k <= t.fields[i].tag && Written(t.fields[i].typ, version, vs[i])
    ensures var extras := EntryMap(KnownEntries(t, version, true, vs, k));
      t.fields[i].tag in extras && extras[t.fields[i].tag] == Encode(t.fields[i].typ, version, true, vs[i])
    decreases t.fields[i].tag - k
  {
    TagIndexOf(t.fields, i);
    TagIndexExists(t.fields, k);
    var body := Encode(t.fields[i].typ, version, true, vs[i]);
    if k < t.fields[i].tag {
      ExtraKept(t, version, vs, k + 1, i);
      StillKept(t, version, vs, k, TagIndex(t.fields, k), t.fields[i].tag, body);
    } else {
      KnownUnfold(t, version, true, vs, k, i);
      LaterTags(t, version, vs, k);
      EntryMapFirst(KnownEntries(t, version, true, vs, k), k, body);
    }
  }

  lemma StillKept(t: Type, version: int, vs: seq<Value>, k: nat, j: nat, tag: nat, body: seq<byte>)
    requires t.StructT? && FieldsConform(t, vs) && k < NumTags(t) && j == TagIndex(t.fields, k) < |vs|
    requires var later := EntryMap(KnownEntries(t, version, true, vs, k + 1)); tag in later && later[tag] == body
    ensures var extras := EntryMap(KnownEntries(t, version, true, vs, k)); tag in extras && extras[tag] == body
  {
    KnownUnfold(t, version, true, vs, k, j);
    if Written(t.fields[j].typ, version, vs[j]) { EntryMapFirst(KnownEntries(t, version, true, vs, k), tag, body); }
  }

  lemma LaterTags(t: Type, version: int, vs: seq<Value>, k: nat)
    requires t.StructT? && FieldsConform(t, vs) && TagsInOrder(t.fields)
    ensures k !in EntryMap(KnownEntries(t, version, true, vs, k + 1))
  {
    KeysWritten(t, version, vs, k + 1);
  }

  lemma EntryMapFirst(es: seq<Entry>, k: nat, body: seq<byte>)
    requires es != []
    ensures k in EntryMap(es[1..]) && EntryMap(es[1..])[k] == body ==> k in EntryMap(es) && EntryMap(es)[k] == body
    ensures es[0] == Entry(k, body) && k !in EntryMap(es[1..]) ==> k in EntryMap(es) && EntryMap(es)[k] == body
  {
  }

  // ---------------------------------------------------------------------
  // Arrays
  // ---------------------------------------------------------------------

  /** At this version every value of the type takes at least one byte. */
  predicate Occupies(t: Type, version: int, flexible: bool)
    decreases t
  {
    t.StructT? && !t.nullable && !(t.fromFlexible && flexible) ==>
      exists i :: 0 <= i < |t.fields| && Present(t.fields[i], version) && Occupies(t.fields[i].typ, version, flexible)
  }

  lemma {:induction false} OccupiesAByte(t: Type, version: int, flexible: bool, v: Value)
    requires Conforms(t, v) && Occupies(t, version, flexible)
    ensures |Encode(t, version, flexible, v)| >= 1
    decreases t
  {
    match t
    case IntT(kind, _) => ReadIntBack(kind, v.i, []);
    case ArrayT(_, _, _, _, _) => LenOccupies(LengthKind(t, flexible), |Elems(v)|);
    case StructT(nullable, fromFlexible, fields) =>
      if !nullable && !(fromFlexible && flexible) {
        var i :| 0 <= i < |fields| && Present(fields[i], version) && Occupies(fields[i].typ, version, flexible);
        OccupiesAByte(fields[i].typ, version, flexible, v.fields[i]);
        FieldOccupies(t, version, flexible, v.fields, 0, i);
      }
    case UuidT =>
    case BoolT(_) =>
    case _ => LenOccupies(LengthKind(t, flexible), |OrEmpty(v.bytes)|);
  }

  lemma LenOccupies(k: LenKind, l: int)
    requires l >= -1
    ensures |EncodeLen(k, l)| >= 1 && |EncodeLen(k, -1)| >= 1
  {
  }

  lemma {:induction false} FieldOccupies(t: Type, version: int, flexible: bool, vs: seq<Value>, j: nat, i: nat)
    requires t.StructT? && FieldsConform(t, vs) && j <= i < |vs| && Present(t.fields[i], version)
    ensures |EncodeFields(t, version, flexible, vs, j)| >= |Encode(t.fields[i].typ, version, flexible, vs[i])|
    decreases i - j
  {
    if j < i { FieldOccupies(t, version, flexible, vs, j + 1, i); }
  }

  /** If every element takes a byte, no array is too long for the decoder's sanity check. */
  lemma {:induction false} ElementsOccupy(inner: Type, version: int, flexible: bool, vs: seq<Value>)
    requires Occupies(inner, version, flexible) && forall i :: 0 <= i < |vs| ==> Conforms(inner, vs[i])
    ensures |vs| <= |EncodeElems(inner, version, flexible, vs)|
    decreases |vs|
  {
    if vs != [] {
      OccupiesAByte(inner, version, flexible, vs[0]);
      ElementsOccupy(inner, version, flexible, vs[1..]);
    }
  }

  /**
   An array whose elements can be decoded is decoded if and only if it has no
   more elements than there are bytes after its length.
   */
  lemma ArrayDecodes(t: Type, version: int, flexible: bool, v: Value, rest: seq<byte>)
    requires t.ArrayT? && WellFormed(t) && (flexible ==> Sectioned(t)) && version >= 0
    requires Conforms(t, v) && |Elems(v)| < 0x8000_0000
    requires forall i :: 0 <= i < |Elems(v)| ==> Encodable(t.inner, version, flexible, Elems(v)[i])
    ensures Older(t, t)
    ensures if |Elems(v)| <= |EncodeElems(t.inner, version, flexible, Elems(v)) + rest|
      then DecodesTo(t, t, version, flexible, v, rest)
      else Decode(t, version, flexible, Source(Encode(t, version, flexible, v) + rest, false)) == Failed
  {
    OlderReflexive(t);
    var vs := Elems(v);
    var l := if v.elems == None && NilAllowed(t, version) then -1 else |vs|;
    var k := LengthKind(t, flexible);
    var body := EncodeElems(t.inner, version, flexible, vs);
    Assoc(EncodeLen(k, l), body, rest);
    ReadArrayLenBack(k, l, body + rest);
    OlderReflexive(t.inner);
    ElemsBack(t.inner, t.inner, version, flexible, vs, rest);
  }

  // ---------------------------------------------------------------------
  // Structs without fields
  // ---------------------------------------------------------------------

  /**
   A flexible struct without fields is encoded with a tag section that its
   decoder does not read: the condition that a flexible struct has a field
   cannot be dropped for any such struct, version or value, unless the value is nil.
   */
  lemma EmptyStructLeavesTags(nullable: bool, version: int, v: Value, rest: seq<byte>)
    requires Conforms(StructT(nullable, true, []), v)
    ensures var t := StructT(nullable, true, []);
      Older(t, t) && (DecodesTo(t, t, version, true, v, rest) <==> v.NilV?)
  {
    var t := StructT(nullable, true, []);
    OlderReflexive(t);
    if v.NilV? {
      ReadIntBack(I8, -1, rest);
      PresenceByte(255, -1);
    } else {
      EmptyLeaves(nullable, version, v, rest);
      assert |EncodeTags(t, version, true, v) + rest| > |rest|;
    }
  }

  /** What its decoder does read: nothing after the presence byte, and no unknown tags. */
  lemma EmptyLeaves(nullable: bool, version: int, v: Value, rest: seq<byte>)
    requires Conforms(StructT(nullable, true, []), v) && v.StructV?
    ensures var t := StructT(nullable, true, []);
      Decode(t, version, true, Source(Encode(t, version, true, v) + rest, false)) ==
      Done(StructV([], map[]), Source(EncodeTags(t, version, true, v) + rest, false)) &&
      |EncodeTags(t, version, true, v)| > 0
  {
    var t := StructT(nullable, true, []);
    assert EncodeContents(t, version, true, v) == EncodeTags(t, version, true, v) by {
      EmptyUnit(EncodeTags(t, version, true, v));
    }
    if nullable {
      NullableContents(t, version, true, v, rest);
      PresenceByte(1, 1);
      ReadIntBack(I8, 1, EncodeTags(t, version, true, v) + rest);
    } else {
      PlainContents(t, version, true, v);
    }
  }

  /** A struct without fields. */
  const Blank := StructT(false, true, [])

  lemma {:induction false} BlanksReadNothing(version: int, n: nat, r: Source) returns (vs: seq<Value>)
    ensures DecodeElems(Blank, version, true, n, r) == Done(vs, r) && |vs| == n
  {
    if n == 0 {
      vs := [];
    } else {
      var vs' := BlanksReadNothing(version, n - 1, r);
      vs := [StructV([], map[])] + vs';
    }
  }

  /** An array of them is left behind with all its elements, and so round-trips if and only if it is empty. */
  lemma BlankElements(t: Type, version: int, v: Value, rest: seq<byte>)
    requires t.ArrayT? && t.inner == Blank && version >= 0 && Conforms(t, v) && |Elems(v)| < 0x8000_0000
    ensures Older(t, t) && (DecodesTo(t, t, version, true, v, rest) <==> Elems(v) == [])
    ensures Elems(v) != [] ==>
      var d := Decode(t, version, true, Source(Encode(t, version, true, v) + rest, false));
      d.Done? && d.r == Source(EncodeElems(Blank, version, true, Elems(v)) + rest, false)
  {
    OlderReflexive(t);
    var vs, k := Elems(v), LengthKind(t, true);
    var l := if v.elems == None && NilAllowed(t, version) then -1 else |vs|;
    var body := EncodeElems(Blank, version, true, vs);
    ElementsOccupy(Blank, version, true, vs);
    Assoc(EncodeLen(k, l), body, rest);
    ReadArrayLenBack(k, l, body + rest);
    var ws := BlanksReadNothing(version, |vs|, Source(body + rest, false));
    assert vs == [] ==> body + rest == rest;
    assert vs != [] ==> |body + rest| > |rest|;
  }

  /**
   As a field it hands its tags to the struct around it: that one takes the
   field's tag section for its own, and leaves its own unread.
   */
  lemma BlankField(version: int, e: Value, unknown: map<nat, seq<byte>>, rest: seq<byte>)
    requires Conforms(Blank, e) && TagsFit(Blank, e)
    ensures
      var t, v := StructT(false, true, [Field(0, -1, -1, Blank)]), StructV([e], unknown);
      Conforms(t, v) &&
      Decode(t, version, true, Source(Encode(t, version, true, v) + rest, false)) ==
      Done(StructV([StructV([], map[])], e.unknown), Source(EncodeTags(t, version, true, v) + rest, false)) &&
      |EncodeTags(t, version, true, v)| > 0
  {
    var t, v := StructT(false, true, [Field(0, -1, -1, Blank)]), StructV([e], unknown);
    var tags := EncodeTags(t, version, true, v) + rest;
    var vs := [StructV([], map[])];
    PlainContents(t, version, true, v);
    assert EncodeFields(t, version, true, v.fields, 0) == Encode(Blank, version, true, e);
    Assoc(Encode(Blank, version, true, e), EncodeTags(t, version, true, v), rest);
    EmptyLeaves(false, version, e, tags);
    FieldReads(t, version, e, tags);
    ForeignTags(t, version, e, vs, tags);
  }

  lemma FieldReads(t: Type, version: int, e: Value, tags: seq<byte>)
    requires t == StructT(false, true, [Field(0, -1, -1, Blank)]) && Conforms(Blank, e)
    requires Decode(Blank, version, true, Source(Encode(Blank, version, true, e) + tags, false)) ==
             Done(StructV([], map[]), Source(EncodeTags(Blank, version, true, e) + tags, false))
    ensures DecodeFields(t, version, true, 0, InitialFields(t), Source(Encode(Blank, version, true, e) + tags, false)) ==
            Done([StructV([], map[])], Source(EncodeTags(Blank, version, true, e) + tags, false))
  {
    assert InitialFields(t)[0 := StructV([], map[])] == [StructV([], map[])];
  }

  /** The tag section of a value without fields, read as that of a struct that has no tags either. */
  lemma ForeignTags(t: Type, version: int, e: Value, vs: seq<Value>, rest: seq<byte>)
    requires t.StructT? && TagSet(t.fields) == {} && |vs| == |t.fields| && Conforms(Blank, e) && TagsFit(Blank, e)
    ensures
      var (n, r) := ReadUvarint(Source(EncodeTags(Blank, version, true, e) + rest, false));
      DecodeTags(t, version, true, n, vs, map[], r) == Done((vs, e.unknown), Source(rest, false))
  {
    var es := UnknownEntries(e.unknown);
    KnownNone(Blank, version, true, e.fields, 0);
    assert KnownEntries(Blank, version, true, e.fields, 0) + es == es;
    UnknownCount(e.unknown);
    CountBack(|es|, EncodeEntries(es), rest);
    ApplyUnknown(t, version, true, vs, vs, map[], e.unknown);
    EmptyPlus(e.unknown);
    EntriesBack(t, version, true, vs, es, vs, map[], rest);
  }

  // ---------------------------------------------------------------------
  // AppendTo and ReadFrom
  // ---------------------------------------------------------------------

  /**
   A type with generated `AppendTo` and `ReadFrom`. `flexibleAt` is the first
   flexible version, or -1. With a version field, the version is the first
   field of the struct and travels with it; otherwise the caller sets it.
   */
  datatype Message = Message(body: Type, flexibleAt: int, withVersionField: bool)

  predicate IsFlexible(m: Message, version: int) { m.flexibleAt >= 0 && version >= m.flexibleAt }

  ghost predicate ValidMessage(m: Message) {
    m.body.StructT? && !m.body.nullable && WellFormed(m.body) &&
    (m.withVersionField ==> m.body.fields != [] && m.body.fields[0] == Field(0, -1, -1, IntT(I16, 0)))
  }

  ghost predicate ValidValue(m: Message, version: int, v: Value)
    requires ValidMessage(m)
  {
    v.StructV? && version >= 0 && Conforms(m.body, v) && Encodable(m.body, version, IsFlexible(m, version), v) &&
    (m.withVersionField ==> v.fields[0] == IntV(version))
  }

  function Complete(s: Step<Value>): Result<Value, ()> {
    if s.Failed? || s.r.bad then Err(()) else Ok(s.v)
  }

  /** `version` is the `Version` of the receiver, which a message with a version field overwrites. */
  function ReadFrom(m: Message, version: int, src: seq<byte>): Result<Value, ()>
    requires m.body.StructT?
    requires m.withVersionField ==> m.body.fields != []
  {
    if m.withVersionField then
      var (ver, r) := ReadInt(I16, Source(src, false));
      var start := InitialFields(m.body)[0 := IntV(ver)];
      match DecodeFields(m.body, ver, IsFlexible(m, ver), 1, start, r)
      case Failed => Err(())
      case Done(vs, r1) => Complete(DecodeRest(m.body, ver, IsFlexible(m, ver), vs, r1))
    else Complete(Decode(m.body, version, IsFlexible(m, version), Source(src, false)))
  }

  /** What every decoder does after the untagged fields. */
  function DecodeRest(t: Type, version: int, flexible: bool, vs: seq<Value>, r: Source): Step<Value>
    requires t.StructT? && |vs| == |t.fields|
  {
    if !(t.fromFlexible && flexible) then Done(StructV(vs, map[]), r) else
    var (n, r2) := ReadUvarint(r);
    match DecodeTags(t, version, flexible, n, vs, map[], r2)
    case Failed => Failed
    case Done(all, r3) => Done(StructV(all.0, all.1), r3)
  }

  /** With the version in the message, reading is decoding at the version that was read. */
  lemma ReadsOwnVersion(m: Message, version: int, v: Value, other: int, tail: seq<byte>)
    requires ValidMessage(m) && m.withVersionField && ValidValue(m, version, v)
    ensures ReadFrom(m, other, Encode(m.body, version, IsFlexible(m, version), v) + tail) ==
            Complete(Decode(m.body, version, IsFlexible(m, version),
                            Source(Encode(m.body, version, IsFlexible(m, version), v) + tail, false)))
  {
    var flexible := IsFlexible(m, version);
    var after := EncodeFields(m.body, version, flexible, v.fields, 1)
      + (if m.body.fromFlexible && flexible then EncodeTags(m.body, version, flexible, v) else []) + tail;
    VersionFirst(m, version, v, tail, after);
    ReadIntBack(I16, version, after);
    var start := InitialFields(m.body);
    assert Decode(m.body.fields[0].typ, version, flexible, Source(EncodeInt(I16, version) + after, false)) ==
           Done(IntV(version), Source(after, false));
    assert DecodeFields(m.body, version, flexible, 0, start, Source(EncodeInt(I16, version) + after, false)) ==
           DecodeFields(m.body, version, flexible, 1, start[0 := IntV(version)], Source(after, false));
  }

  lemma VersionFirst(m: Message, version: int, v: Value, tail: seq<byte>, after: seq<byte>)
    requires ValidMessage(m) && m.withVersionField && ValidValue(m, version, v)
    requires var flexible := IsFlexible(m, version);
      after == EncodeFields(m.body, version, flexible, v.fields, 1)
        + (if m.body.fromFlexible && flexible then EncodeTags(m.body, version, flexible, v) else []) + tail
    ensures InRange(I16, version)
    ensures Encode(m.body, version, IsFlexible(m, version), v) + tail == EncodeInt(I16, version) + after
  {
    var flexible := IsFlexible(m, version);
    var fields := EncodeFields(m.body, version, flexible, v.fields, 1);
    var tags := if m.body.fromFlexible && flexible then EncodeTags(m.body, version, flexible, v) else [];
    PlainContents(m.body, version, flexible, v);
    assert EncodeFields(m.body, version, flexible, v.fields, 0) == EncodeInt(I16, version) + fields;
    Assoc(EncodeInt(I16, version), fields, tags);
    Assoc(EncodeInt(I16, version), fields + tags, tail);
  }

  /** Unknown tags of a flexible message without fields. */
  predicate LosesTags(m: Message, version: int, v: Value)
    requires m.body.StructT? && v.StructV?
  {
    m.body.fields == [] && m.body.fromFlexible && IsFlexible(m, version) && v.unknown != map[]
  }

  /**
   What a message's `AppendTo` appends, its `ReadFrom` returns, whatever trails
   it. Only a flexible message without fields loses something: its unknown tags.
   */
  lemma MessageRoundTrip(m: Message, version: int, v: Value, other: int, tail: seq<byte>)
    requires ValidMessage(m) && ValidValue(m, version, v) && Canonical(m.body, version, IsFlexible(m, version), v)
    requires !m.withVersionField ==> other == version
    requires IsFlexible(m, version) ==> Sectioned(m.body) || m.body.fields == []
    ensures ReadFrom(m, other, Encode(m.body, version, IsFlexible(m, version), v) + tail) == Ok(v) <==>
      !LosesTags(m, version, v)
  {
    if m.body.fields == [] && m.body.fromFlexible && IsFlexible(m, version) {
      EmptyLeaves(false, version, v, tail);
    } else {
      ExactRoundTrip(m.body, version, IsFlexible(m, version), v, tail);
      if m.withVersionField { ReadsOwnVersion(m, version, v, other, tail); }
    }
  }
}
