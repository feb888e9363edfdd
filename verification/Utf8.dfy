/** The UTF-8 check on key-value keys (coproc-core/src/coproc_kv.c) against the encoding of
    RFC 3629 sections 3 and 4. */
module Utf8 {
  import opened Bytes

  // ---------------------------------------------------------------------------------------
  // The encoding
  // ---------------------------------------------------------------------------------------

  predicate Scalar(c: nat) {
    c <= 0x10ffff && !(0xd800 <= c <= 0xdfff)
  }

  function EncodeScalar(c: nat): (s: seq<byte>)
    requires Scalar(c)
    ensures 1 <= |s| <= 4
  {
    var c6 := c / 64;
    var c12 := c6 / 64;
    if c < 0x80 then [c]
    else if c < 0x800 then [0xc0 + c6, 0x80 + c % 64]
    else if c < 0x1_0000 then [0xe0 + c12, 0x80 + c6 % 64, 0x80 + c % 64]
    else [0xf0 + c12 / 64, 0x80 + c12 % 64, 0x80 + c6 % 64, 0x80 + c % 64]
  }

  ghost predicate Scalars(cs: seq<nat>) {
    forall i :: 0 <= i < |cs| ==> Scalar(cs[i])
  }

  ghost function EncodeText(cs: seq<nat>): seq<byte>
    requires Scalars(cs)
  {
    if |cs| == 0 then [] else EncodeScalar(cs[0]) + EncodeText(cs[1..])
  }

  ghost predicate WellFormed(s: seq<byte>) {
    exists cs :: Scalars(cs) && EncodeText(cs) == s
  }

  // ---------------------------------------------------------------------------------------
  // One unit, as the loop body reads it
  // ---------------------------------------------------------------------------------------

  predicate Continuation(b: byte) {
    0x80 <= b < 0xc0
  }

  /** Continuation bytes announced by a lead byte, and the code point bits it carries. */
  function Lead(b: byte): Option<(nat, nat)> {
    if 0xc2 <= b <= 0xdf then Some((1, b % 0x20))
    else if 0xe0 <= b <= 0xef then Some((2, b % 0x10))
    else if 0xf0 <= b <= 0xf4 then Some((3, b % 0x08))
    else None
  }

  function Gather(s: seq<byte>, at: nat, n: nat, bits: nat): Option<nat>
    requires at + n <= |s|
    decreases n, at
  {
    if n == 0 then Some(bits)
    else if !Continuation(s[at]) then None
    else Gather(s, at + 1, n - 1, bits * 64 + s[at] % 64)
  }

  /** The code point of the unit at the front of `s`, if that unit is well formed. */
  function Unit(s: seq<byte>): Option<nat>
    requires |s| > 0
  {
    if s[0] < 0x80 then Some(s[0]) else
    match Lead(s[0])
    case None => None
    case Some((extra, bits)) =>
      if |s| <= extra then None else
      match Gather(s, 1, extra, bits)
      case None => None
      case Some(c) =>
        if extra == 2 && c < 0x800 then None
        else if extra == 3 && c < 0x1_0000 then None
        else if Scalar(c) then Some(c) else None
  }

  lemma GatherOnce(s: seq<byte>, at: nat, n: nat, bits: nat)
    requires at + n <= |s| && n > 0
    ensures Gather(s, at, n, bits) ==
            if Continuation(s[at]) then Gather(s, at + 1, n - 1, bits * 64 + s[at] % 64) else None
  {
  }

  lemma GatherDone(s: seq<byte>, at: nat, bits: nat)
    requires at <= |s|
    ensures Gather(s, at, 0, bits) == Some(bits)
  {
  }

  lemma Trail(c: nat)
    ensures var b: byte := 0x80 + c % 64; Continuation(b) && c / 64 * 64 + b % 64 == c
  {
  }

  lemma LeadOfEncoded(c: nat)
    requires Scalar(c) && c >= 0x80
    ensures var e := EncodeScalar(c);
            Lead(e[0]) == Some((|e| - 1, if |e| == 2 then c / 64 else if |e| == 3 then c / 64 / 64
                                         else c / 64 / 64 / 64))
  {
  }

  /** Every scalar value's encoding is read back. */
  lemma UnitOfEncoded(s: seq<byte>, c: nat)
    requires Scalar(c) && EncodeScalar(c) <= s
    ensures Unit(s) == Some(c)
  {
    var e := EncodeScalar(c);
    assert forall k :: 0 <= k < |e| ==> s[k] == e[k];
    if c >= 0x80 {
      LeadOfEncoded(c);
      GatherOfEncoded(s, c);
    }
  }

  lemma GatherOfEncoded(s: seq<byte>, c: nat)
    requires Scalar(c) && c >= 0x80 && |s| >= |EncodeScalar(c)|
    requires forall k :: 0 <= k < |EncodeScalar(c)| ==> s[k] == EncodeScalar(c)[k]
    ensures var n := |EncodeScalar(c)|;
            Gather(s, 1, n - 1, if n == 2 then c / 64 else if n == 3 then c / 64 / 64
                                else c / 64 / 64 / 64) == Some(c)
  {
    hide Gather, Continuation;
    var n, c6 := |EncodeScalar(c)|, c / 64;
    var c12 := c6 / 64;
    Trail(c);
    Trail(c6);
    Trail(c12);
    GatherDone(s, n, c);
    GatherOnce(s, n - 1, 1, c6);
    if n >= 3 {
      GatherOnce(s, n - 2, 2, c12);
    }
    if n == 4 {
      GatherOnce(s, 1, 3, c12 / 64);
    }
  }

  lemma GatherDigits(s: seq<byte>, at: nat, n: nat, bits: nat)
    requires at + n <= |s| && n > 0 && Gather(s, at, n, bits).Some?
    ensures var c := Gather(s, at, n, bits).value;
            && Gather(s, at, n - 1, bits) == Some(c / 64)
            && s[at + n - 1] == 0x80 + c % 64
    decreases n
  {
    if n > 1 {
      GatherDigits(s, at + 1, n - 1, bits * 64 + s[at] % 64);
    }
  }

  /** And only encodings of scalar values are read: no overlong form, no surrogate. */
  lemma UnitIsEncoded(s: seq<byte>)
    requires |s| > 0 && Unit(s).Some?
    ensures Scalar(Unit(s).value) && EncodeScalar(Unit(s).value) <= s
  {
    if s[0] >= 0x80 {
      var (extra, bits) := Lead(s[0]).value;
      UnitBytes(s, extra, bits);
    }
  }

  lemma UnitBytes(s: seq<byte>, extra: nat, bits: nat)
    requires |s| > 0 && Unit(s).Some? && Lead(s[0]) == Some((extra, bits)) && s[0] >= 0x80
    ensures EncodeScalar(Unit(s).value) == s[..extra + 1]
  {
    hide Gather;
    var c := Unit(s).value;
    GatherDigits(s, 1, extra, bits);
    if extra == 1 {
      GatherDone(s, 1, bits);
    } else {
      GatherDigits(s, 1, extra - 1, bits);
      if extra == 2 {
        GatherDone(s, 1, bits);
      } else {
        GatherDigits(s, 1, 1, bits);
        GatherDone(s, 1, bits);
      }
    }
    assert |EncodeScalar(c)| == extra + 1;
    assert forall k :: 0 <= k < extra + 1 ==> EncodeScalar(c)[k] == s[k];
  }

  // ---------------------------------------------------------------------------------------
  // Texts
  // ---------------------------------------------------------------------------------------

  /** Taking off a first unit does not change whether the rest is well formed. */
  lemma WellFormedStep(s: seq<byte>)
    requires |s| > 0
    ensures WellFormed(s) <==>
            Unit(s).Some? && (UnitIsEncoded(s); WellFormed(s[|EncodeScalar(Unit(s).value)|..]))
  {
    hide EncodeScalar, Unit;
    if WellFormed(s) {
      var cs :| Scalars(cs) && EncodeText(cs) == s;
      var e := EncodeScalar(cs[0]);
      assert e <= s;
      UnitOfEncoded(s, cs[0]);
      assert s[|e|..] == EncodeText(cs[1..]);
    }
    if Unit(s).Some? {
      UnitIsEncoded(s);
      var c := Unit(s).value;
      var rest := s[|EncodeScalar(c)|..];
      if WellFormed(rest) {
        var cs :| Scalars(cs) && EncodeText(cs) == rest;
        assert ([c] + cs)[1..] == cs;
        assert EncodeText([c] + cs) == s;
      }
    }
  }

  lemma EmptyWellFormed()
    ensures WellFormed([])
  {
    assert EncodeText([]) == [];
  }

  /** A text is the encoding of at most one sequence of scalar values. */
  lemma {:induction false} EncodeTextInjective(a: seq<nat>, b: seq<nat>)
    requires Scalars(a) && Scalars(b) && EncodeText(a) == EncodeText(b)
    ensures a == b
    decreases |a|
  {
    hide EncodeScalar, Unit;
    var s := EncodeText(a);
    if |a| > 0 && |b| > 0 {
      UnitOfEncoded(s, a[0]);
      UnitOfEncoded(s, b[0]);
      var e := EncodeScalar(a[0]);
      assert s[|e|..] == EncodeText(a[1..]) && s[|e|..] == EncodeText(b[1..]);
      EncodeTextInjective(a[1..], b[1..]);
      assert a == [a[0]] + a[1..] && b == [b[0]] + b[1..];
    }
  }

  /** `utf8_valid`. */
  method Valid(text: array<byte>, size: nat) returns (valid: bool)
    requires size <= text.Length
    ensures valid <==> WellFormed(text[..size])
  {
    hide EncodeScalar, WellFormed, Gather;
    var i := 0;
    ghost var s := text[..size];
    while i < size
      invariant i <= size
      invariant WellFormed(s) <==> WellFormed(s[i..])
    {
      ghost var u := s[i..];
      WellFormedStep(u);
      var lead := text[i];
      assert u[0] == lead;
      if lead < 0x80 {
        UnitSize(u);
        assert u[1..] == s[i + 1..];
        i := i + 1;
        continue;
      }
      var extra: nat, codePoint: nat;
      if 0xc2 <= lead <= 0xdf {
        extra, codePoint := 1, lead % 0x20;
      } else if 0xe0 <= lead <= 0xef {
        extra, codePoint := 2, lead % 0x10;
      } else if 0xf0 <= lead <= 0xf4 {
        extra, codePoint := 3, lead % 0x08;
      } else {
        return false;
      }
      if size - i <= extra {
        return false;
      }
      ghost var bits := codePoint;
      for j := 1 to extra + 1
        invariant Gather(u, 1, extra, bits) == Gather(u, j, extra + 1 - j, codePoint)
      {
        var continuation := text[i + j];
        assert u[j] == continuation;
        GatherOnce(u, j, extra + 1 - j, codePoint);
        if !Continuation(continuation) {
          return false;
        }
        codePoint := codePoint * 64 + continuation % 64;
      }
      GatherDone(u, extra + 1, codePoint);
      if extra == 2 && codePoint < 0x800 {
        return false;
      }
      if extra == 3 && codePoint < 0x1_0000 {
        return false;
      }
      if codePoint > 0x10ffff {
        return false;
      }
      if 0xd800 <= codePoint <= 0xdfff {
        return false;
      }
      UnitSize(u);
      assert u[extra + 1..] == s[i + (extra + 1)..];
      i := i + (extra + 1);
    }
    EmptyWellFormed();
    assert s[i..] == [];
    return true;
  }

  /** The loop advances by the length of the unit it has just read. */
  lemma UnitSize(s: seq<byte>)
    requires |s| > 0 && Unit(s).Some?
    ensures Scalar(Unit(s).value)
    ensures |EncodeScalar(Unit(s).value)| ==
            if s[0] < 0x80 then 1 else Lead(s[0]).value.0 + 1
  {
    UnitIsEncoded(s);
  }
}
