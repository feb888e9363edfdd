/** Fixed-width integers, little-endian fields and byte buffers. */
module Bytes {

  type byte = x: int | 0 <= x < 0x100
  type uint16 = x: int | 0 <= x < 0x1_0000
  type uint32 = x: int | 0 <= x < 0x1_0000_0000
  type uint64 = x: int | 0 <= x < 0x1_0000_0000_0000_0000
  type int16 = x: int | -0x8000 <= x < 0x8000

  const UINT32_MAX: uint32 := 0xffff_ffff

  datatype Option<+T> = None | Some(value: T)

  datatype Result<+T> = Ok(value: T) | Err(error: WireError)

  /** The negative codes of `wlh_wire_result_t`. */
  datatype WireError =
    | InvalidArgument
    | BufferTooSmall
    | Truncated
    | InvalidMagic
    | UnsupportedVersion
    | InvalidHeaderSize
    | InvalidFlags
    | InvalidLength
    | ChecksumMismatch
    | InvalidRpc

  /** Unsigned 32-bit arithmetic wraps. */
  function Wrap32(x: int): uint32 {
    x % 0x1_0000_0000
  }

  /** The saturating addition used for credit counters. */
  function SaturatingAdd(a: uint32, b: uint32): uint32 {
    if UINT32_MAX - a < b then UINT32_MAX else a + b
  }

  function Min(a: nat, b: nat): nat {
    if a <= b then a else b
  }

  function GetU16(s: seq<byte>, at: nat): uint16
    requires at + 2 <= |s|
  {
    s[at] as int + s[at + 1] as int * 0x100
  }

  function GetU32(s: seq<byte>, at: nat): uint32
    requires at + 4 <= |s|
  {
    s[at] as int + s[at + 1] as int * 0x100 + s[at + 2] as int * 0x1_0000 +
    s[at + 3] as int * 0x100_0000
  }

  function GetU64(s: seq<byte>, at: nat): uint64
    requires at + 8 <= |s|
  {
    GetU32(s, at) as int + GetU32(s, at + 4) as int * 0x1_0000_0000
  }

  function PutU16(v: uint16): (s: seq<byte>)
    ensures |s| == 2
  {
    [v % 0x100, v / 0x100]
  }

  function PutU32(v: uint32): (s: seq<byte>)
    ensures |s| == 4
  {
    var v8 := v / 0x100;
    var v16 := v8 / 0x100;
    [v % 0x100, v8 % 0x100, v16 % 0x100, v16 / 0x100]
  }

  function PutU64(v: uint64): (s: seq<byte>)
    ensures |s| == 8
  {
    PutU32(v % 0x1_0000_0000) + PutU32(v / 0x1_0000_0000)
  }

  /** Signed 16-bit values travel in two's complement. */
  function ToSigned(v: uint16): int16 {
    if v < 0x8000 then v else v - 0x1_0000
  }

  function ToUnsigned(v: int16): uint16 {
    if v >= 0 then v else v + 0x1_0000
  }

  /** Whether the bytes of `field` stand at `at`. */
  ghost predicate Holds(s: seq<byte>, at: nat, field: seq<byte>)
    requires at + |field| <= |s|
  {
    forall k :: 0 <= k < |field| ==> s[at + k] == field[k]
  }

  lemma TwoParts<T>(s: seq<T>, n: nat)
    requires n <= |s|
    ensures s == s[0..n] + s[n..|s|]
  {
  }

  lemma SliceOfSlice<T>(s: seq<T>, from: nat, to: nat, a: nat, b: nat)
    requires from <= to <= |s| && a <= b <= to - from
    ensures s[from..to][a..b] == s[from + a..from + b]
  {
    var t := s[from..to];
    forall k | 0 <= k < b - a
      ensures t[a..b][k] == s[from + a..from + b][k]
    {
      assert t[a..b][k] == t[a + k] == s[from + (a + k)];
      assert s[from + a..from + b][k] == s[from + a + k];
    }
  }

  lemma U16Exact(s: seq<byte>, at: nat, v: uint16)
    requires at + 2 <= |s|
    ensures GetU16(s, at) == v <==> Holds(s, at, PutU16(v))
  {
    var f := PutU16(v);
    assert Holds(s, at, f) <==> s[at] == f[0] && s[at + 1] == f[1];
  }

  lemma Digits32(v: uint32, a: byte, b: byte, c: byte, d: byte)
    ensures v == a as int + b as int * 0x100 + c as int * 0x1_0000 + d as int * 0x100_0000 <==>
            PutU32(v) == [a, b, c, d]
  {
    var v8 := v / 0x100;
    var v16 := v8 / 0x100;
    if v == a as int + b as int * 0x100 + c as int * 0x1_0000 + d as int * 0x100_0000 {
      assert v8 == b as int + c as int * 0x100 + d as int * 0x1_0000;
      assert v16 == c as int + d as int * 0x100;
    }
  }

  lemma U32Exact(s: seq<byte>, at: nat, v: uint32)
    requires at + 4 <= |s|
    ensures GetU32(s, at) == v <==> Holds(s, at, PutU32(v))
  {
    var f := PutU32(v);
    Digits32(v, s[at], s[at + 1], s[at + 2], s[at + 3]);
    hide PutU32;
    assert Holds(s, at, f) <==>
      s[at] == f[0] && s[at + 1] == f[1] && s[at + 2] == f[2] && s[at + 3] == f[3];
  }

  lemma U64Exact(s: seq<byte>, at: nat, v: uint64)
    requires at + 8 <= |s|
    ensures GetU64(s, at) == v <==> Holds(s, at, PutU64(v))
  {
    hide PutU32, GetU32;
    var low, high := v % 0x1_0000_0000, v / 0x1_0000_0000;
    U32Exact(s, at, low);
    U32Exact(s, at + 4, high);
    var f := PutU64(v);
    if Holds(s, at, f) {
      assert forall k :: 0 <= k < 4 ==> f[k] == PutU32(low)[k];
      assert Holds(s, at, PutU32(low));
      forall k | 0 <= k < 4
        ensures s[at + 4 + k] == PutU32(high)[k]
      {
        assert f[4 + k] == PutU32(high)[k];
      }
    }
    if Holds(s, at, PutU32(low)) && Holds(s, at + 4, PutU32(high)) {
      forall k | 0 <= k < 8
        ensures s[at + k] == f[k]
      {
        assert k < 4 || s[at + 4 + (k - 4)] == PutU32(high)[k - 4];
      }
    }
  }

  method WriteU16(a: array<byte>, at: nat, v: uint16)
    requires at + 2 <= a.Length
    modifies a
    ensures forall k :: 0 <= k < a.Length ==>
                        a[k] == if at <= k < at + 2 then PutU16(v)[k - at] else old(a[k])
  {
    a[at] := v % 0x100;
    a[at + 1] := v / 0x100;
  }

  method WriteU32(a: array<byte>, at: nat, v: uint32)
    requires at + 4 <= a.Length
    modifies a
    ensures forall k :: 0 <= k < a.Length ==>
                        a[k] == if at <= k < at + 4 then PutU32(v)[k - at] else old(a[k])
  {
    var v8 := v / 0x100;
    var v16 := v8 / 0x100;
    a[at] := v % 0x100;
    a[at + 1] := v8 % 0x100;
    a[at + 2] := v16 % 0x100;
    a[at + 3] := v16 / 0x100;
  }

  /** `memmove`: the source bytes are those present before the call, whether or not the two
      regions overlap. */
  method MoveBytes(dst: array<byte>, to: nat, src: array<byte>, from: nat, n: nat)
    requires to + n <= dst.Length && from + n <= src.Length
    modifies dst
    ensures dst[to..to + n] == old(src[from..from + n])
    ensures forall k :: 0 <= k < dst.Length && !(to <= k < to + n) ==> dst[k] == old(dst[k])
  {
    forall k | 0 <= k < n {
      dst[to + k] := src[from + k];
    }
    assert dst[to..to + n] == old(src[from..from + n]);
  }
}
