/**
 The `Reader` object of `pkg/kbin/primitives.go`: each method consumes from
 `src` in place, and on failure drops all remaining bytes and sets `bad`.
 */
module KbinReader {
  import opened Wrappers
  import opened Varints
  import opened Kbin

  class Reader {
    var src: seq<byte>
    var bad: bool

    constructor (src: seq<byte>)
      ensures State() == Source(src, false)
    {
      this.src, bad := src, false;
    }

    function State(): Source
      reads this
    {
      Source(src, bad)
    }

    method Fail()
      modifies this
      ensures State() == Invalid
    {
      bad := true;
      src := [];
    }

    method Bool() returns (v: bool)
      modifies this
      ensures var (u, r) := ReadFixed(old(State()), 1); v == (u != 0) && State() == r
    {
      if |src| < 1 { Fail(); return false; }
      assert src[..1] == [src[0]] && BigEndianValue([src[0]]) == 256 * BigEndianValue([]) + src[0] as int;
      v := src[0] != 0;
      src := src[1..];
    }

    method Int8() returns (v: int)
      modifies this
      ensures (v, State()) == ReadInt(I8, old(State()))
    {
      if |src| < 1 { Fail(); return 0; }
      assert src[..1] == [src[0]] && BigEndianValue([src[0]]) == 256 * BigEndianValue([]) + src[0] as int;
      v := Signed(src[0], 0x80);
      src := src[1..];
    }

    method Int16() returns (v: int)
      modifies this
      ensures (v, State()) == ReadInt(I16, old(State()))
    {
      if |src| < 2 { Fail(); return 0; }
      v := Signed(BigEndianValue(src[..2]), 0x8000);
      src := src[2..];
    }

    method Uint16() returns (v: int)
      modifies this
      ensures (v, State()) == ReadInt(U16, old(State()))
    {
      if |src| < 2 { Fail(); return 0; }
      v := BigEndianValue(src[..2]);
      src := src[2..];
    }

    method Int32() returns (v: int)
      modifies this
      ensures (v, State()) == ReadInt(I32, old(State()))
    {
      if |src| < 4 { Fail(); return 0; }
      v := Signed(BigEndianValue(src[..4]), 0x8000_0000);
      src := src[4..];
    }

    method Uint32() returns (v: int)
      modifies this
      ensures (v, State()) == ReadInt(U32, old(State()))
    {
      if |src| < 4 { Fail(); return 0; }
      v := BigEndianValue(src[..4]);
      src := src[4..];
    }

    method Int64() returns (v: int)
      modifies this
      ensures (v, State()) == ReadInt(I64, old(State()))
    {
      if |src| < 8 { Fail(); return 0; }
      v := Signed(BigEndianValue(src[..8]), 0x8000_0000_0000_0000);
      src := src[8..];
    }

    method Uvarint() returns (v: uint32)
      modifies this
      ensures (v, State()) == ReadUvarint(old(State()))
    {
      var n;
      v, n := Varints.Uvarint(src);
      if n <= 0 { Fail(); return 0; }
      src := src[n..];
    }

    method Varint() returns (v: int)
      modifies this
      ensures (v, State()) == ReadInt(Var32, old(State()))
    {
      var x, n := Varints.Uvarint(src);
      if n <= 0 { Fail(); return 0; }
      v := UnZigZag32(x);
      src := src[n..];
    }

    method Varlong() returns (v: int)
      modifies this
      ensures (v, State()) == ReadInt(Var64, old(State()))
    {
      var x, n := Varints.Uvarlong(src);
      if n <= 0 { Fail(); return 0; }
      v := UnZigZag64(x);
      src := src[n..];
    }

    method Span(l: int) returns (v: Option<seq<byte>>)
      modifies this
      ensures (v, State()) == ReadSpan(old(State()), l)
    {
      if |src| < l || l < 0 { Fail(); return None; }
      v := if bad && src == [] then None else Some(src[..l]);
      src := src[l..];
    }

    /** The length in front of a string or of bytes. */
    method Len(k: LenKind) returns (l: int)
      modifies this
      ensures (l, State()) == ReadLen(k, old(State()))
    {
      match k
      case Len16 => l := Int16();
      case Len32 => l := Int32();
      case LenCompact => var u: int := Uvarint(); l := u - 1;
      case LenVarint => l := Varint();
    }

    method String(k: LenKind) returns (v: seq<byte>)
      modifies this
      ensures (v, State()) == ReadString(k, old(State()))
    {
      var l := Len(k);
      var b := Span(l);
      v := OrEmpty(b);
    }

    method NullableString(k: LenKind) returns (v: Option<seq<byte>>)
      modifies this
      ensures (v, State()) == ReadNullableString(k, old(State()))
    {
      var l := Len(k);
      if l < 0 { return None; }
      var b := Span(l);
      v := Some(OrEmpty(b));
    }

    method Bytes(k: LenKind) returns (v: Option<seq<byte>>)
      modifies this
      ensures (v, State()) == ReadBytes(k, old(State()))
    {
      var l := Len(k);
      if l == -1 { return Some([]); }
      v := Span(l);
    }

    method NullableBytes(k: LenKind) returns (v: Option<seq<byte>>)
      modifies this
      ensures (v, State()) == ReadNullableBytes(k, old(State()))
    {
      var l := Len(k);
      if l < 0 { return None; }
      v := Span(l);
    }

    method ArrayLen(k: LenKind) returns (l: int)
      modifies this
      ensures (l, State()) == ReadArrayLen(k, old(State()))
    {
      if k == LenCompact {
        var u := Uvarint();
        l := if u == 0x8000_0000 then 0x7fff_ffff else Signed(u, 0x8000_0000) - 1;
      } else {
        l := Len(k);
      }
      if |src| < l { Fail(); return 0; }
    }
  }
}
