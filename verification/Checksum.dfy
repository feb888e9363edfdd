/** The two frame checksums of protocol/src/wire.c: a wrapping sum of little-endian words, and
    CRC-32C (RFC 3720 section 12.1) computed one bit at a time over a 32-bit register. */
module Checksum {
  import opened Bytes

  // ---------------------------------------------------------------------------------------
  // SUM32
  // ---------------------------------------------------------------------------------------

  /** The little-endian value of at most four bytes. */
  function Word(s: seq<byte>): (w: uint32)
    requires |s| <= 4
  {
    if |s| == 0 then 0
    else if |s| == 1 then s[0]
    else if |s| == 2 then GetU16(s, 0)
    else if |s| == 3 then GetU16(s, 0) as int + s[2] as int * 0x1_0000
    else GetU32(s, 0)
  }

  function SumFrom(s: seq<byte>, i: nat): uint32
    requires i <= |s|
    decreases |s| - i
  {
    if |s| - i <= 4 then Word(s[i..]) else Wrap32(Word(s[i..i + 4]) + SumFrom(s, i + 4))
  }

  function Sum32(s: seq<byte>): uint32 {
    SumFrom(s, 0)
  }

  lemma WordGrows(s: seq<byte>, b: byte)
    requires |s| < 4
    ensures Word(s + [b]) ==
            Word(s) as int + b as int * (if |s| == 0 then 1 else if |s| == 1 then 0x100
                                         else if |s| == 2 then 0x1_0000 else 0x100_0000)
  {
    var t := s + [b];
    assert forall k :: 0 <= k < |s| ==> t[k] == s[k];
  }

  lemma WrapAssociative(a: int, b: int, c: int)
    ensures Wrap32(Wrap32(a + b) + c) == Wrap32(a + Wrap32(b + c)) == Wrap32(a + b + c)
  {
  }

  lemma WrapInjective(w: uint32, x: uint32, y: uint32)
    requires Wrap32(w + x) == Wrap32(w + y)
    ensures x == y
  {
  }

  method TailWord(a: array<byte>, from: nat, size: nat) returns (tail: uint32)
    requires from + size <= a.Length && size < 4
    ensures tail == Word(a[from..from + size])
  {
    tail := 0;
    var unit := 1;
    for i := 0 to size
      invariant tail == Word(a[from..from + i])
      invariant unit == (if i == 0 then 1 else if i == 1 then 0x100
                         else if i == 2 then 0x1_0000 else 0x100_0000)
    {
      assert a[from..from + (i + 1)] == a[from..from + i] + [a[from + i]];
      WordGrows(a[from..from + i], a[from + i]);
      tail := tail + a[from + i] as int * unit;
      unit := unit * 0x100;
    }
  }

  lemma SumNext(s: seq<byte>, i: nat)
    requires i + 4 <= |s|
    ensures SumFrom(s, i) == Wrap32(Word(s[i..i + 4]) + SumFrom(s, i + 4))
  {
    if |s| - i == 4 {
      assert s[i..i + 4] == s[i..];
    }
  }

  lemma SumStep(sum: uint32, s: seq<byte>, i: nat)
    requires i + 4 <= |s|
    ensures Wrap32(sum + SumFrom(s, i)) == Wrap32(Wrap32(sum + Word(s[i..i + 4])) + SumFrom(s, i + 4))
  {
    hide Word, SumFrom;
    SumNext(s, i);
    WrapAssociative(sum, Word(s[i..i + 4]), SumFrom(s, i + 4));
  }

  lemma Tail(s: seq<byte>, i: nat)
    requires i <= |s| < i + 4
    ensures SumFrom(s, i) == Word(s[i..]) && (i == |s| ==> Word(s[i..]) == 0)
  {
  }

  method ReadWord(a: array<byte>, at: nat) returns (w: uint32)
    requires at + 4 <= a.Length
    ensures w == Word(a[at..at + 4])
  {
    w := a[at] as int + a[at + 1] as int * 0x100 + a[at + 2] as int * 0x1_0000 +
      a[at + 3] as int * 0x100_0000;
  }

  method ComputeSum32(a: array<byte>, from: nat, size: nat) returns (sum: uint32)
    requires from + size <= a.Length
    ensures sum == Sum32(a[from..from + size])
  {
    hide Word, SumFrom;
    sum := 0;
    var i := 0;
    ghost var s := a[from..from + size];
    while size - i >= 4
      invariant 0 <= i <= size
      invariant Wrap32(sum + SumFrom(s, i)) == Sum32(s)
    {
      var word := ReadWord(a, from + i);
      assert s[i..i + 4] == a[from + i..from + i + 4];
      SumStep(sum, s, i);
      sum := Wrap32(sum + word);
      i := i + 4;
    }
    Tail(s, i);
    if i < size {
      var tail := TailWord(a, from + i, size - i);
      assert s[i..] == a[from + i..from + i + (size - i)];
      sum := Wrap32(sum + tail);
    }
  }

  lemma WordDetectsOneByte(s: seq<byte>, t: seq<byte>, i: nat)
    requires |s| == |t| <= 4 && i < |s| && s[i] != t[i]
    requires forall k :: 0 <= k < |s| && k != i ==> s[k] == t[k]
    ensures Word(s) != Word(t)
  {
    if |s| == 4 {
      if i == 0 {} else if i == 1 {} else if i == 2 {} else {}
    }
  }

  lemma {:induction false} SumFromDetectsOneByte(s: seq<byte>, t: seq<byte>, from: nat, i: nat)
    requires |s| == |t| && from <= i < |s| && s[i] != t[i]
    requires forall k :: 0 <= k < |s| && k != i ==> s[k] == t[k]
    ensures SumFrom(s, from) != SumFrom(t, from)
    decreases |s| - from
  {
    if |s| - from <= 4 {
      WordDetectsOneByte(s[from..], t[from..], i - from);
    } else if i < from + 4 {
      WordDetectsOneByte(s[from..from + 4], t[from..from + 4], i - from);
      SumFromSame(s, t, from + 4);
      if SumFrom(s, from) == SumFrom(t, from) {
        WrapInjective(SumFrom(s, from + 4), Word(s[from..from + 4]), Word(t[from..from + 4]));
      }
    } else {
      assert s[from..from + 4] == t[from..from + 4];
      SumFromDetectsOneByte(s, t, from + 4, i);
      if SumFrom(s, from) == SumFrom(t, from) {
        WrapInjective(Word(s[from..from + 4]), SumFrom(s, from + 4), SumFrom(t, from + 4));
      }
    }
  }

  lemma {:induction false} SumFromSame(s: seq<byte>, t: seq<byte>, from: nat)
    requires |s| == |t| && from <= |s|
    requires forall k :: from <= k < |s| ==> s[k] == t[k]
    ensures SumFrom(s, from) == SumFrom(t, from)
    decreases |s| - from
  {
    if |s| - from <= 4 {
      assert s[from..] == t[from..];
    } else {
      assert s[from..from + 4] == t[from..from + 4];
      SumFromSame(s, t, from + 4);
    }
  }

  /** Changing one byte changes the sum, wherever the byte stands. */
  lemma Sum32DetectsOneByte(s: seq<byte>, t: seq<byte>, i: nat)
    requires |s| == |t| && i < |s| && s[i] != t[i]
    requires forall k :: 0 <= k < |s| && k != i ==> s[k] == t[k]
    ensures Sum32(s) != Sum32(t)
  {
    SumFromDetectsOneByte(s, t, 0, i);
  }

  // ---------------------------------------------------------------------------------------
  // CRC-32C
  // ---------------------------------------------------------------------------------------

  /** A register, least significant bit first. */
  type Bits = seq<bool>

  function Pow2(n: nat): (p: nat)
    ensures p > 0
  {
    if n == 0 then 1 else 2 * Pow2(n - 1)
  }

  lemma Pow2Values()
    ensures Pow2(8) == 0x100 && Pow2(31) == 0x8000_0000 && Pow2(32) == 0x1_0000_0000
  {
    assert Pow2(8) == 0x100;
    assert Pow2(12) == 0x1000;
    assert Pow2(16) == 0x1_0000;
    assert Pow2(20) == 0x10_0000;
    assert Pow2(24) == 0x100_0000;
    assert Pow2(28) == 0x1000_0000;
  }

  function BitsOf(v: nat, n: nat): (b: Bits)
    ensures |b| == n
  {
    if n == 0 then [] else [v % 2 == 1] + BitsOf(v / 2, n - 1)
  }

  function ValueFrom(b: Bits, i: nat): (v: nat)
    requires i <= |b|
    ensures v < Pow2(|b| - i)
    decreases |b| - i
  {
    if i == |b| then 0 else (if b[i] then 1 else 0) + 2 * ValueFrom(b, i + 1)
  }

  function Value(b: Bits): (v: nat)
    ensures v < Pow2(|b|)
  {
    ValueFrom(b, 0)
  }

  function Xor(a: Bits, b: Bits): (c: Bits)
    requires |a| == |b|
    ensures |c| == |a|
  {
    seq(|a|, i requires 0 <= i < |a| => a[i] != b[i])
  }

  function Not(a: Bits): (c: Bits)
    ensures |c| == |a|
  {
    Xor(a, seq(|a|, _ => true))
  }

  function Zeros(n: nat): (b: Bits)
    ensures |b| == n
  {
    seq(n, _ => false)
  }

  const POLYNOMIAL: nat := 0x82f6_3b78

  function Polynomial(): (p: Bits)
    ensures |p| == 32
  {
    BitsOf(POLYNOMIAL, 32)
  }

  /** One shift of the reflected register; the polynomial is folded in when a one falls out. */
  function Shift(x: Bits): (y: Bits)
    requires |x| == 32
    ensures |y| == 32
  {
    var half := x[1..] + [false];
    Xor(half, if x[0] then Polynomial() else Zeros(32))
  }

  function Shifts(x: Bits, n: nat): (y: Bits)
    requires |x| == 32
    ensures |y| == 32
    decreases |x|, n
  {
    if n == 0 then x else Shifts(Shift(x), n - 1)
  }

  function CrcByte(crc: Bits, b: byte): (c: Bits)
    requires |crc| == 32
    ensures |c| == 32
  {
    Shifts(Xor(crc, BitsOf(b, 8) + Zeros(24)), 8)
  }

  function CrcFold(crc: Bits, s: seq<byte>): (c: Bits)
    requires |crc| == 32
    ensures |c| == 32
    decreases |s|
  {
    if |s| == 0 then crc else CrcFold(CrcByte(crc, s[0]), s[1..])
  }

  function Crc32c(s: seq<byte>): uint32 {
    var c := Not(CrcFold(Not(Zeros(32)), s));
    Pow2Values();
    Value(c)
  }

  lemma FoldNext(reg: Bits, s: seq<byte>, i: nat)
    requires |reg| == 32 && i < |s|
    ensures CrcFold(reg, s[i..]) == CrcFold(CrcByte(reg, s[i]), s[i + 1..])
  {
    assert s[i..][1..] == s[i + 1..];
  }

  lemma ShiftsNext(reg: Bits, n: nat)
    requires |reg| == 32
    ensures Shifts(reg, n) ==
            if n == 0 then reg
            else Shifts(Xor(reg[1..] + [false], if reg[0] then Polynomial() else Zeros(32)), n - 1)
  {
  }

  method ComputeCrc32c(a: array<byte>, from: nat, size: nat) returns (crc: uint32)
    requires from + size <= a.Length
    ensures crc == Crc32c(a[from..from + size])
  {
    hide Shifts, Shift, Xor, Not, Zeros, BitsOf, Polynomial, Value, Pow2;
    var reg := Not(Zeros(32));
    ghost var s := a[from..from + size];
    for i := 0 to size
      invariant |reg| == 32
      invariant CrcFold(reg, s[i..]) == CrcFold(Not(Zeros(32)), s)
    {
      FoldNext(reg, s, i);
      ghost var next := CrcByte(reg, a[from + i]);
      reg := Xor(reg, BitsOf(a[from + i], 8) + Zeros(24));
      for bit := 0 to 8
        invariant |reg| == 32
        invariant Shifts(reg, 8 - bit) == next
      {
        ShiftsNext(reg, 8 - bit);
        var mask := if reg[0] then Polynomial() else Zeros(32);
        reg := Xor(reg[1..] + [false], mask);
      }
      ShiftsNext(reg, 0);
    }
    assert s[size..] == [];
    Pow2Values();
    crc := Value(Not(reg));
  }

  lemma {:induction false} ValueFromInjective(a: Bits, b: Bits, i: nat)
    requires |a| == |b| && i <= |a| && ValueFrom(a, i) == ValueFrom(b, i)
    ensures a[i..] == b[i..]
    decreases |a| - i
  {
    if i < |a| {
      ValueFromInjective(a, b, i + 1);
      assert a[i..] == [a[i]] + a[i + 1..] && b[i..] == [b[i]] + b[i + 1..];
    }
  }

  lemma {:induction false} BitsOfInjective(v: nat, w: nat, n: nat)
    requires v < Pow2(n) && w < Pow2(n) && BitsOf(v, n) == BitsOf(w, n)
    ensures v == w
  {
    if n > 0 {
      var a, b := BitsOf(v, n), BitsOf(w, n);
      assert a[0] == b[0];
      assert a[1..] == BitsOf(v / 2, n - 1) && b[1..] == BitsOf(w / 2, n - 1);
      BitsOfInjective(v / 2, w / 2, n - 1);
    }
  }

  lemma FourBits(b: Bits, at: nat, v: nat)
    requires at + 4 <= |b| && b[at..] == BitsOf(v, |b| - at)
    ensures (b[at] <==> v % 2 == 1) && (b[at + 1] <==> v / 2 % 2 == 1)
    ensures (b[at + 2] <==> v / 4 % 2 == 1) && (b[at + 3] <==> v / 8 % 2 == 1)
    ensures b[at + 4..] == BitsOf(v / 16, |b| - at - 4)
  {
    assert v / 2 / 2 == v / 4 && v / 4 / 2 == v / 8 && v / 8 / 2 == v / 16;
    var n := |b| - at;
    assert b[at..][1..] == BitsOf(v / 2, n - 1);
    assert b[at..][1..][1..] == BitsOf(v / 4, n - 2);
    assert b[at..][1..][1..][1..] == BitsOf(v / 8, n - 3);
    assert b[at..][1..][1..][1..][1..] == BitsOf(v / 16, n - 4);
    assert b[at + 4..] == b[at..][1..][1..][1..][1..];
  }

  /** The constant bit by bit, lowest first. */
  lemma PolynomialBits()
    ensures var p := Polynomial(); !p[0] && !p[1] && !p[2] && p[3] && p[4] && p[5] && p[6] && !p[7]
    ensures var p := Polynomial(); p[8] && p[9] && !p[10] && p[11] && p[12] && p[13] && !p[14] && !p[15]
    ensures var p := Polynomial(); !p[16] && p[17] && p[18] && !p[19] && p[20] && p[21] && p[22] && p[23]
    ensures var p := Polynomial(); !p[24] && p[25] && !p[26] && !p[27] && !p[28] && !p[29] && !p[30] && p[31]
  {
    hide BitsOf;
    var p := Polynomial();
    assert p[0..] == p;
    FourBits(p, 0, 0x82f63b78);
    FourBits(p, 4, 0x82f63b7);
    FourBits(p, 8, 0x82f63b);
    FourBits(p, 12, 0x82f63);
    FourBits(p, 16, 0x82f6);
    FourBits(p, 20, 0x82f);
    FourBits(p, 24, 0x82);
    FourBits(p, 28, 0x8);
  }

  lemma PolynomialTopBit()
    ensures Polynomial()[31]
  {
    PolynomialBits();
  }

  lemma XorInjective(x: Bits, y: Bits, m: Bits)
    requires |x| == |y| == |m|
    requires Xor(x, m) == Xor(y, m)
    ensures x == y
  {
    forall i | 0 <= i < |x|
      ensures x[i] == y[i]
    {
      assert Xor(x, m)[i] == Xor(y, m)[i];
    }
  }

  /** The polynomial has its top bit set, so a shift loses nothing. */
  lemma ShiftInjective(x: Bits, y: Bits)
    requires |x| == |y| == 32 && Shift(x) == Shift(y)
    ensures x == y
  {
    PolynomialTopBit();
    hide Polynomial;
    assert Shift(x)[31] == x[0] && Shift(y)[31] == y[0];
    forall i | 0 < i < 32
      ensures x[i] == y[i]
    {
      assert Shift(x)[i - 1] == Shift(y)[i - 1];
    }
  }

  lemma {:induction false} ShiftsInjective(x: Bits, y: Bits, n: nat)
    requires |x| == |y| == 32 && Shifts(x, n) == Shifts(y, n)
    ensures x == y
    decreases n
  {
    if n > 0 {
      ShiftsInjective(Shift(x), Shift(y), n - 1);
      ShiftInjective(x, y);
    }
  }

  /** Shifting is linear over exclusive or. */
  lemma {:induction false} ShiftsLinear(x: Bits, y: Bits, n: nat)
    requires |x| == |y| == 32
    ensures Shifts(Xor(x, y), n) == Xor(Shifts(x, n), Shifts(y, n))
    decreases n
  {
    if n > 0 {
      assert Shift(Xor(x, y)) == Xor(Shift(x), Shift(y));
      ShiftsLinear(Shift(x), Shift(y), n - 1);
    }
  }

  lemma {:induction false} ShiftsSplit(x: Bits, m: nat, n: nat)
    requires |x| == 32
    ensures Shifts(x, m + n) == Shifts(Shifts(x, m), n)
    decreases m
  {
    if m > 0 {
      ShiftsSplit(Shift(x), m - 1, n);
    }
  }

  /** Bits above the ones that fall out just move down. */
  lemma {:induction false} ShiftsDown(y: Bits, n: nat)
    requires |y| + n <= 32
    ensures Shifts(Zeros(n) + y + Zeros(32 - n - |y|), n) == y + Zeros(32 - |y|)
  {
    if n > 0 {
      var x := Zeros(n) + y + Zeros(32 - n - |y|);
      assert !x[0];
      assert Shift(x) == Zeros(n - 1) + y + Zeros(32 - (n - 1) - |y|);
      ShiftsDown(y, n - 1);
    } else {
      assert Zeros(0) + y + Zeros(32 - |y|) == y + Zeros(32 - |y|);
    }
  }

  /** The bits of a run of bytes, in the order the register consumes them. */
  function WindowBits(w: seq<byte>): (b: Bits)
    ensures |b| == 8 * |w|
  {
    if |w| == 0 then [] else BitsOf(w[0], 8) + WindowBits(w[1..])
  }

  lemma {:induction false} WindowBitsInjective(v: seq<byte>, w: seq<byte>)
    requires |v| == |w| && WindowBits(v) == WindowBits(w)
    ensures v == w
  {
    if |v| > 0 {
      var a, b := WindowBits(v), WindowBits(w);
      assert BitsOf(v[0], 8) == a[..8] && BitsOf(w[0], 8) == b[..8];
      assert WindowBits(v[1..]) == a[8..] && WindowBits(w[1..]) == b[8..];
      Pow2Values();
      BitsOfInjective(v[0], w[0], 8);
      WindowBitsInjective(v[1..], w[1..]);
      assert v == [v[0]] + v[1..] && w == [w[0]] + w[1..];
    }
  }

  /** The first byte of a window and the bytes above it together are the window. */
  lemma FirstThenRest(crc: Bits, w: seq<byte>)
    requires |crc| == 32 && 1 <= |w| <= 4
    ensures var rest := WindowBits(w[1..]);
            Xor(Xor(crc, BitsOf(w[0], 8) + Zeros(24)), Zeros(8) + rest + Zeros(24 - |rest|)) ==
            Xor(crc, WindowBits(w) + Zeros(32 - 8 * |w|))
  {
    var rest := WindowBits(w[1..]);
    var first, above := BitsOf(w[0], 8) + Zeros(24), Zeros(8) + rest + Zeros(24 - |rest|);
    var window := WindowBits(w) + Zeros(32 - 8 * |w|);
    assert WindowBits(w) == BitsOf(w[0], 8) + rest;
    hide WindowBits, BitsOf;
    assert Xor(first, above) == window;
    assert Xor(Xor(crc, first), above) == Xor(crc, Xor(first, above));
  }

  /** Up to four bytes act on the register as one 32-bit exclusive or followed by shifts. */
  lemma {:induction false} FoldOfWindow(crc: Bits, w: seq<byte>)
    requires |crc| == 32 && |w| <= 4
    ensures CrcFold(crc, w) ==
            Shifts(Xor(crc, WindowBits(w) + Zeros(32 - 8 * |w|)), 8 * |w|)
    decreases |w|
  {
    if |w| == 0 {
      assert Xor(crc, WindowBits(w) + Zeros(32)) == crc;
    } else {
      var n := 8 * (|w| - 1);
      var rest := WindowBits(w[1..]);
      var first := BitsOf(w[0], 8) + Zeros(24);
      var above := Zeros(8) + rest + Zeros(32 - 8 - |rest|);
      FoldOfWindow(CrcByte(crc, w[0]), w[1..]);
      ShiftsDown(rest, 8);
      ShiftsLinear(Xor(crc, first), above, 8);
      FirstThenRest(crc, w);
      hide Xor, WindowBits, Zeros, BitsOf, Shifts;
      ShiftsSplit(Xor(Xor(crc, first), above), 8, n);
    }
  }

  lemma {:induction false} FoldConcat(crc: Bits, s: seq<byte>, t: seq<byte>)
    requires |crc| == 32
    ensures CrcFold(crc, s + t) == CrcFold(CrcFold(crc, s), t)
    decreases |s|
  {
    if |s| == 0 {
      assert s + t == t;
    } else {
      assert (s + t)[1..] == s[1..] + t;
      FoldConcat(CrcByte(crc, s[0]), s[1..], t);
    }
  }

  lemma {:induction false} FoldInjective(c: Bits, d: Bits, s: seq<byte>)
    requires |c| == |d| == 32 && CrcFold(c, s) == CrcFold(d, s)
    ensures c == d
    decreases |s|
  {
    if |s| > 0 {
      var mark := BitsOf(s[0], 8) + Zeros(24);
      FoldInjective(CrcByte(c, s[0]), CrcByte(d, s[0]), s[1..]);
      ShiftsInjective(Xor(c, mark), Xor(d, mark), 8);
      XorInjective(c, d, mark);
    }
  }

  /** The complement and the value lose nothing of the register. */
  lemma Crc32cOfFold(s: seq<byte>, t: seq<byte>)
    requires Crc32c(s) == Crc32c(t)
    ensures CrcFold(Not(Zeros(32)), s) == CrcFold(Not(Zeros(32)), t)
  {
    hide CrcFold, Zeros;
    var f, g := CrcFold(Not(Zeros(32)), s), CrcFold(Not(Zeros(32)), t);
    ValueFromInjective(Not(f), Not(g), 0);
    assert Not(f)[0..] == Not(f) && Not(g)[0..] == Not(g);
    XorInjective(f, g, seq(32, _ => true));
  }

  /** Replacing up to four consecutive bytes by different ones changes the CRC. */
  lemma Crc32cDetectsBurst(pre: seq<byte>, v: seq<byte>, w: seq<byte>, post: seq<byte>)
    requires |v| == |w| <= 4 && v != w
    ensures Crc32c(pre + v + post) != Crc32c(pre + w + post)
  {
    hide CrcFold, Shifts, WindowBits, Not, Value, Crc32c;
    var ones := Not(Zeros(32));
    var mid := CrcFold(ones, pre);
    var n := 32 - 8 * |v|;
    FoldConcat(ones, pre + v, post);
    FoldConcat(ones, pre + w, post);
    FoldConcat(ones, pre, v);
    FoldConcat(ones, pre, w);
    FoldOfWindow(mid, v);
    FoldOfWindow(mid, w);
    if Crc32c(pre + v + post) == Crc32c(pre + w + post) {
      Crc32cOfFold(pre + v + post, pre + w + post);
      FoldInjective(CrcFold(mid, v), CrcFold(mid, w), post);
      var x, y := WindowBits(v) + Zeros(n), WindowBits(w) + Zeros(n);
      ShiftsInjective(Xor(mid, x), Xor(mid, y), 8 * |v|);
      assert Xor(mid, x) == Xor(x, mid) && Xor(mid, y) == Xor(y, mid);
      XorInjective(x, y, mid);
      assert x[..8 * |v|] == WindowBits(v) && y[..8 * |v|] == WindowBits(w);
      WindowBitsInjective(v, w);
    }
  }
}
