/** What CRC-32C is: the complemented remainder of the message, its first 32 bits complemented, on
    division by the Castagnoli polynomial over the field of two elements (RFC 3720 section 12.1). */
module CrcPolynomial {
  import opened Bytes
  import opened Checksum

  // ---------------------------------------------------------------------------------------
  // Polynomials
  // ---------------------------------------------------------------------------------------

  /** A polynomial over the field of two elements, as the exponents of its terms. */
  type Poly = set<nat>

  const CASTAGNOLI: Poly := {32, 28, 27, 26, 25, 23, 22, 20, 19, 18, 14, 13, 11, 10, 9, 8, 6, 0}

  function Plus(a: Poly, b: Poly): (c: Poly)
    ensures forall e :: e in c <==> (e in a) != (e in b)
  {
    (a - b) + (b - a)
  }

  /** `p` times x^k. */
  function Times(p: Poly, k: nat): Poly {
    set e | e in p :: e + k
  }

  /** The sum of x^k times the divisor over the `k` in `q`. */
  function Multiple(q: seq<nat>): Poly {
    if |q| == 0 then {} else Plus(Times(CASTAGNOLI, q[0]), Multiple(q[1..]))
  }

  /** The two leave the same remainder: they differ by a multiple of the divisor. */
  ghost predicate Congruent(a: Poly, b: Poly) {
    exists q :: Plus(a, b) == Multiple(q)
  }

  lemma {:induction false} MultipleConcat(q: seq<nat>, r: seq<nat>)
    ensures Multiple(q + r) == Plus(Multiple(q), Multiple(r))
    decreases |q|
  {
    if |q| == 0 {
      assert q + r == r;
    } else {
      assert (q + r)[1..] == q[1..] + r;
      MultipleConcat(q[1..], r);
    }
  }

  function Raised(q: seq<nat>, k: nat): (r: seq<nat>)
    ensures |r| == |q|
  {
    seq(|q|, i requires 0 <= i < |q| => q[i] + k)
  }

  lemma TimesMember(p: Poly, k: nat, e: nat)
    ensures e in Times(p, k) <==> e >= k && e - k in p
  {
    if e >= k && e - k in p {
      assert (e - k) + k in Times(p, k);
    }
  }

  lemma TimesTimes(p: Poly, j: nat, k: nat)
    ensures Times(Times(p, j), k) == Times(p, j + k)
  {
    hide Times;
    forall e: nat
      ensures e in Times(Times(p, j), k) <==> e in Times(p, j + k)
    {
      TimesMember(Times(p, j), k, e);
      TimesMember(p, j + k, e);
      if e >= k {
        TimesMember(p, j, e - k);
      }
    }
  }

  lemma TimesPlus(a: Poly, b: Poly, k: nat)
    ensures Times(Plus(a, b), k) == Plus(Times(a, k), Times(b, k))
  {
    hide Times;
    forall e: nat
      ensures e in Times(Plus(a, b), k) <==> e in Plus(Times(a, k), Times(b, k))
    {
      TimesMember(Plus(a, b), k, e);
      TimesMember(a, k, e);
      TimesMember(b, k, e);
    }
  }

  lemma {:induction false} MultipleRaised(q: seq<nat>, k: nat)
    ensures Multiple(Raised(q, k)) == Times(Multiple(q), k)
    decreases |q|
  {
    hide Times;
    if |q| == 0 {
      forall e: nat
        ensures e !in Times({}, k)
      {
        TimesMember({}, k, e);
      }
    } else {
      assert Raised(q, k)[1..] == Raised(q[1..], k);
      MultipleRaised(q[1..], k);
      TimesTimes(CASTAGNOLI, q[0], k);
      TimesPlus(Times(CASTAGNOLI, q[0]), Multiple(q[1..]), k);
    }
  }

  lemma Same(a: Poly)
    ensures Congruent(a, a)
  {
    assert Plus(a, a) == Multiple([]);
  }

  lemma Through(a: Poly, b: Poly, c: Poly)
    requires Congruent(a, b) && Congruent(b, c)
    ensures Congruent(a, c)
  {
    var q :| Plus(a, b) == Multiple(q);
    var r :| Plus(b, c) == Multiple(r);
    MultipleConcat(q, r);
    assert Plus(a, c) == Plus(Plus(a, b), Plus(b, c));
    assert Plus(a, c) == Multiple(q + r);
  }

  lemma BothPlus(a: Poly, b: Poly, c: Poly)
    requires Congruent(a, b)
    ensures Congruent(Plus(a, c), Plus(b, c))
  {
    var q :| Plus(a, b) == Multiple(q);
    assert Plus(Plus(a, c), Plus(b, c)) == Multiple(q);
  }

  lemma BothTimes(a: Poly, b: Poly, k: nat)
    requires Congruent(a, b)
    ensures Congruent(Times(a, k), Times(b, k))
  {
    var q :| Plus(a, b) == Multiple(q);
    MultipleRaised(q, k);
    TimesPlus(a, b, k);
    assert Plus(Times(a, k), Times(b, k)) == Multiple(Raised(q, k));
  }

  lemma PlusDivisor(a: Poly)
    ensures Congruent(a, Plus(a, CASTAGNOLI))
  {
    assert [0][1..] == [];
    assert Multiple([0]) == Plus(Times(CASTAGNOLI, 0), Multiple([]));
    assert Plus(a, Plus(a, CASTAGNOLI)) == Multiple([0]);
  }

  // ---------------------------------------------------------------------------------------
  // The register
  // ---------------------------------------------------------------------------------------

  predicate Term(reg: Bits, e: nat)
    requires |reg| == 32
  {
    e < 32 && reg[31 - e]
  }

  /** The register read as a polynomial: its lowest bit is the term in x^31. */
  function Register(reg: Bits): (p: Poly)
    requires |reg| == 32
    ensures forall e :: e in p <==> Term(reg, e)
  {
    set e | 0 <= e < 32 && Term(reg, e)
  }

  /** The constant of the code is the divisor without its leading term. */
  lemma PolynomialTerms(e: nat)
    requires e < 32
    ensures Polynomial()[31 - e] <==> e in CASTAGNOLI
  {
    PolynomialBits();
    hide Polynomial;
    if e < 8 {
      assert e == 0 || e == 1 || e == 2 || e == 3 || e == 4 || e == 5 || e == 6 || e == 7;
    } else if e < 16 {
      assert e == 8 || e == 9 || e == 10 || e == 11 || e == 12 || e == 13 || e == 14 || e == 15;
    } else if e < 24 {
      assert e == 16 || e == 17 || e == 18 || e == 19 || e == 20 || e == 21 || e == 22 || e == 23;
    } else {
      assert e == 24 || e == 25 || e == 26 || e == 27 || e == 28 || e == 29 || e == 30 || e == 31;
    }
  }

  lemma Swapped(a: Poly, b: Poly)
    requires Congruent(a, b)
    ensures Congruent(b, a)
  {
    assert Plus(b, a) == Plus(a, b);
  }

  /** A shift is a multiplication by x, reduced. */
  lemma ShiftMultiplies(reg: Bits)
    requires |reg| == 32
    ensures Congruent(Register(Shift(reg)), Times(Register(reg), 1))
  {
    hide Shift, Register, Times;
    var raised, shifted := Times(Register(reg), 1), Register(Shift(reg));
    ShiftedTerms(reg);
    if reg[0] {
      PlusDivisor(raised);
      Swapped(raised, shifted);
    } else {
      Same(raised);
    }
  }

  lemma ShiftedTerms(reg: Bits)
    requires |reg| == 32
    ensures Register(Shift(reg)) ==
            if reg[0] then Plus(Times(Register(reg), 1), CASTAGNOLI) else Times(Register(reg), 1)
  {
    forall e: nat
      ensures Term(Shift(reg), e) <==> (e in Times(Register(reg), 1)) != (reg[0] && e in CASTAGNOLI)
    {
      TermShifted(reg, e);
    }
    hide Shift, Times, Term;
    assert forall e :: e in Register(Shift(reg)) <==> Term(Shift(reg), e);
  }

  lemma ShiftAt(reg: Bits, j: nat)
    requires |reg| == 32 && j < 32
    ensures Shift(reg)[j] == ((j < 31 && reg[j + 1]) != (reg[0] && Polynomial()[j]))
  {
    hide Polynomial;
  }

  lemma TermShifted(reg: Bits, e: nat)
    requires |reg| == 32
    ensures Term(Shift(reg), e) <==> (e in Times(Register(reg), 1)) != (reg[0] && e in CASTAGNOLI)
  {
    TimesMember(Register(reg), 1, e);
    if e < 32 {
      PolynomialTerms(e);
      ShiftAt(reg, 31 - e);
    }
    hide Polynomial, Times, Shift;
  }

  lemma {:induction false} ShiftsMultiply(reg: Bits, n: nat)
    requires |reg| == 32
    ensures Congruent(Register(Shifts(reg, n)), Times(Register(reg), n))
    decreases n
  {
    hide Times, Register, Shift, Congruent;
    if n == 0 {
      TimesNone(Register(reg));
      Same(Register(reg));
    } else {
      ShiftsMultiply(Shift(reg), n - 1);
      ShiftMultiplies(reg);
      BothTimes(Register(Shift(reg)), Times(Register(reg), 1), n - 1);
      TimesTimes(Register(reg), 1, n - 1);
      Through(Register(Shifts(reg, n)), Times(Register(Shift(reg)), n - 1), Times(Register(reg), n));
    }
  }

  lemma TimesNone(p: Poly)
    ensures Times(p, 0) == p
  {
    forall e: nat
      ensures e in Times(p, 0) <==> e in p
    {
      TimesMember(p, 0, e);
    }
  }

  lemma XorAdds(a: Bits, b: Bits)
    requires |a| == |b| == 32
    ensures Register(Xor(a, b)) == Plus(Register(a), Register(b))
  {
  }

  // ---------------------------------------------------------------------------------------
  // The message
  // ---------------------------------------------------------------------------------------

  predicate Bit(v: nat, i: nat) {
    v / Pow2(i) % 2 == 1
  }

  predicate MessageTerm(s: seq<byte>, e: nat) {
    e < 8 * |s| && Bit(s[|s| - 1 - e / 8], 7 - e % 8)
  }

  /** The first byte holds the highest terms, and of each byte the lowest bit does. */
  function Message(s: seq<byte>): (p: Poly)
    ensures forall e :: e in p <==> MessageTerm(s, e)
  {
    set e | 0 <= e < 8 * |s| && MessageTerm(s, e)
  }

  lemma DivideTwice(v: nat, p: nat)
    requires p > 0
    ensures v / 2 / p == v / (2 * p)
  {
    var q, r := v / 2 / p, v / 2 % p;
    assert v / 2 == p * q + r;
    assert v == 2 * p * q + (2 * r + v % 2);
    assert 2 * r + v % 2 < 2 * p;
    Quotient(v, 2 * p, q, 2 * r + v % 2);
  }

  lemma Quotient(v: nat, d: nat, q: nat, r: nat)
    requires d > 0 && v == d * q + r && r < d
    ensures v / d == q
  {
    var k := v / d;
    assert d * (k - q) == r - v % d;
    Multiples(d, k - q);
  }

  lemma Multiples(d: nat, m: int)
    ensures (m >= 1 ==> d * m >= d) && (m <= -1 ==> d * m + d <= 0)
  {
    assert d * m == d * (m - 1) + d && d * m + d == d * (m + 1);
    if m >= 1 {
      assert d * (m - 1) >= 0;
    }
    if m <= -1 {
      assert d * (-m - 1) >= 0;
    }
  }

  lemma {:induction false} BitsAt(v: nat, n: nat, i: nat)
    requires i < n
    ensures BitsOf(v, n)[i] <==> Bit(v, i)
    decreases n
  {
    if i > 0 {
      BitsAt(v / 2, n - 1, i - 1);
      DivideTwice(v, Pow2(i - 1));
    }
  }

  /** A byte joins the register at its top eight terms. */
  lemma ByteTerms(b: byte)
    ensures Register(BitsOf(b, 8) + Zeros(24)) == Times(Message([b]), 24)
  {
    forall e: nat
      ensures Term(BitsOf(b, 8) + Zeros(24), e) <==> e in Times(Message([b]), 24)
    {
      TimesMember(Message([b]), 24, e);
      if 24 <= e < 32 {
        BitsAt(b, 8, 31 - e);
        assert (e - 24) / 8 == 0;
      }
      hide BitsOf, Bit, Times;
    }
  }

  lemma MessageSplits(s: seq<byte>)
    requires |s| > 0
    ensures Message(s) == Plus(Times(Message([s[0]]), 8 * |s[1..]|), Message(s[1..]))
  {
    var n := |s[1..]|;
    forall e: nat
      ensures MessageTerm(s, e) <==> (e in Times(Message([s[0]]), 8 * n)) != MessageTerm(s[1..], e)
    {
      TimesMember(Message([s[0]]), 8 * n, e);
      hide Bit, Times;
      if e >= 8 * n {
        assert e / 8 == n + (e - 8 * n) / 8 && e % 8 == (e - 8 * n) % 8;
      }
    }
  }

  lemma ByteStep(reg: Bits, b: byte)
    requires |reg| == 32
    ensures Congruent(Register(CrcByte(reg, b)), Plus(Times(Register(reg), 8), Times(Message([b]), 32)))
  {
    var mark := BitsOf(b, 8) + Zeros(24);
    ShiftsMultiply(Xor(reg, mark), 8);
    XorAdds(reg, mark);
    ByteTerms(b);
    hide Times, Register, Message;
    TimesPlus(Register(reg), Times(Message([b]), 24), 8);
    TimesTimes(Message([b]), 24, 8);
  }

  /** The register after a message: its first value times x^8n, and the message times x^32. */
  lemma {:induction false} FoldDivides(reg: Bits, s: seq<byte>)
    requires |reg| == 32
    ensures Congruent(Register(CrcFold(reg, s)), Plus(Times(Register(reg), 8 * |s|), Times(Message(s), 32)))
    decreases |s|
  {
    hide Times, Register, CrcByte, Congruent, Message;
    if |s| == 0 {
      NoMessage(s, Register(reg));
      Same(Register(reg));
    } else {
      var t, b := s[1..], s[0];
      var k := 8 * |t|;
      var next := Register(CrcByte(reg, b));
      FoldDivides(CrcByte(reg, b), t);
      ByteStep(reg, b);
      var sum := Plus(Times(Register(reg), 8), Times(Message([b]), 32));
      BothTimes(next, sum, k);
      BothPlus(Times(next, k), Times(sum, k), Times(Message(t), 32));
      Regroup(Register(reg), s);
      Through(Register(CrcFold(reg, s)), Plus(Times(next, k), Times(Message(t), 32)),
              Plus(Times(Register(reg), 8 * |s|), Times(Message(s), 32)));
    }
  }

  lemma NoMessage(s: seq<byte>, p: Poly)
    requires |s| == 0
    ensures Plus(Times(p, 8 * |s|), Times(Message(s), 32)) == p
  {
    TimesNone(p);
    forall e: nat
      ensures e !in Times(Message(s), 32)
    {
      TimesMember(Message(s), 32, e);
    }
  }

  lemma Regroup(p: Poly, s: seq<byte>)
    requires |s| > 0
    ensures var k, head, tail := 8 * |s[1..]|, Message([s[0]]), Message(s[1..]);
            Plus(Times(Plus(Times(p, 8), Times(head, 32)), k), Times(tail, 32)) ==
            Plus(Times(p, 8 * |s|), Times(Message(s), 32))
  {
    hide Times, Message;
    var k, head, tail := 8 * |s[1..]|, Message([s[0]]), Message(s[1..]);
    TimesPlus(Times(p, 8), Times(head, 32), k);
    TimesTimes(p, 8, k);
    TimesTimes(head, 32, k);
    MessageSplits(s);
    TimesPlus(Times(head, k), tail, 32);
    TimesTimes(head, k, 32);
  }

  // ---------------------------------------------------------------------------------------
  // The remainder
  // ---------------------------------------------------------------------------------------

  predicate RemainderTerm(crc: nat, e: nat) {
    e < 32 && !Bit(crc, 31 - e)
  }

  /** The remainder a checksum stands for: its complement, lowest bit highest. */
  function Remainder(crc: uint32): (p: Poly)
    ensures forall e :: e in p <==> RemainderTerm(crc, e)
  {
    set e | 0 <= e < 32 && RemainderTerm(crc, e)
  }

  const FIRST_32: Poly := {31, 30, 29, 28, 27, 26, 25, 24, 23, 22, 21, 20, 19, 18, 17, 16,
                           15, 14, 13, 12, 11, 10, 9, 8, 7, 6, 5, 4, 3, 2, 1, 0}

  /** The message as it is divided: followed by 32 zero bits, its first 32 bits complemented. */
  function Dividend(s: seq<byte>): Poly {
    Plus(Times(Message(s), 32), Times(FIRST_32, 8 * |s|))
  }

  lemma {:induction false} ValueBits(b: Bits, from: nat, i: nat)
    requires from + i < |b|
    ensures Bit(ValueFrom(b, from), i) <==> b[from + i]
    decreases i
  {
    if i > 0 {
      ValueBits(b, from + 1, i - 1);
      DivideTwice(ValueFrom(b, from), Pow2(i - 1));
      assert ValueFrom(b, from) / 2 == ValueFrom(b, from + 1);
    }
  }

  /** CRC-32C is the remainder: it differs from the message by a multiple of
      x^32 + x^28 + x^27 + x^26 + x^25 + x^23 + x^22 + x^20 + x^19 + x^18 + x^14 + x^13 + x^11 + x^10 +
      x^9 + x^8 + x^6 + 1, and all its terms are below x^32. */
  lemma CrcIsRemainder(s: seq<byte>)
    ensures Congruent(Remainder(Crc32c(s)), Dividend(s))
  {
    var ones := Not(Zeros(32));
    var reg := CrcFold(ones, s);
    AllOnes();
    Complemented(s);
    hide Not, Register, Remainder, Crc32c;
    FoldDivides(ones, s);
    var a, b := Times(Register(ones), 8 * |s|), Times(Message(s), 32);
    assert Plus(a, b) == Plus(b, a);
  }

  lemma AllOnes()
    ensures Register(Not(Zeros(32))) == FIRST_32
  {
  }

  lemma Complemented(s: seq<byte>)
    ensures Remainder(Crc32c(s)) == Register(CrcFold(Not(Zeros(32)), s))
  {
    hide CrcFold;
    var reg := CrcFold(Not(Zeros(32)), s);
    forall e: nat
      ensures RemainderTerm(Crc32c(s), e) <==> Term(reg, e)
    {
      if e < 32 {
        ValueBits(Not(reg), 0, 31 - e);
      }
    }
  }

  // ---------------------------------------------------------------------------------------
  // There is only one
  // ---------------------------------------------------------------------------------------

  /** Whether `m` occurs an odd number of times. */
  predicate Odd(q: seq<nat>, m: nat)
    decreases |q|
  {
    |q| > 0 && ((q[0] == m) != Odd(q[1..], m))
  }

  predicate Below(q: seq<nat>, m: nat)
    decreases |q|
  {
    |q| > 0 ==> q[0] < m && Below(q[1..], m)
  }

  function Without(q: seq<nat>, m: nat): (r: seq<nat>)
    ensures Below(q, m + 1) ==> Below(r, m)
    decreases |q|
  {
    if |q| == 0 then []
    else if q[0] == m then Without(q[1..], m)
    else
      var rest := Without(q[1..], m);
      assert ([q[0]] + rest)[1..] == rest;
      [q[0]] + rest
  }

  lemma {:induction false} MultipleWithout(q: seq<nat>, m: nat)
    ensures Multiple(q) ==
            Plus(if Odd(q, m) then Times(CASTAGNOLI, m) else {}, Multiple(Without(q, m)))
    decreases |q|
  {
    hide Times;
    if |q| > 0 {
      MultipleWithout(q[1..], m);
      if q[0] != m {
        assert Without(q, m)[0] == q[0] && Without(q, m)[1..] == Without(q[1..], m);
      }
    }
  }

  lemma {:induction false} BelowTop(q: seq<nat>, m: nat, e: nat)
    requires Below(q, m) && e in Multiple(q)
    ensures e < m + 32
    decreases |q|
  {
    if e in Times(CASTAGNOLI, q[0]) {
      TimesMember(CASTAGNOLI, q[0], e);
    } else {
      BelowTop(q[1..], m, e);
    }
  }

  lemma TopStays(rest: seq<nat>, m: nat)
    requires Below(rest, m)
    ensures m + 32 in Plus(Times(CASTAGNOLI, m), Multiple(rest))
  {
    hide Multiple, Times;
    TimesMember(CASTAGNOLI, m, m + 32);
    if m + 32 in Multiple(rest) {
      BelowTop(rest, m, m + 32);
    }
  }

  /** A multiple of the divisor other than zero has a term at x^32 or above. */
  lemma {:induction false} MultipleReaches(q: seq<nat>, m: nat)
    requires Below(q, m)
    ensures Multiple(q) == {} || exists e :: e >= 32 && e in Multiple(q)
    decreases m
  {
    if m > 0 {
      hide Multiple, Times, Odd, Without;
      var rest := Without(q, m - 1);
      MultipleWithout(q, m - 1);
      if Odd(q, m - 1) {
        TopStays(rest, m - 1);
        assert m + 31 in Multiple(q);
      } else {
        assert Multiple(q) == Multiple(rest);
        MultipleReaches(rest, m - 1);
      }
    }
  }

  lemma {:induction false} BelowMore(q: seq<nat>, m: nat, n: nat)
    requires Below(q, m) && m <= n
    ensures Below(q, n)
    decreases |q|
  {
    if |q| > 0 {
      BelowMore(q[1..], m, n);
    }
  }

  lemma {:induction false} Bounded(q: seq<nat>) returns (m: nat)
    ensures Below(q, m)
    decreases |q|
  {
    if |q| == 0 {
      m := 0;
    } else {
      var n := Bounded(q[1..]);
      m := n + q[0] + 1;
      BelowMore(q[1..], n, m);
    }
  }

  lemma OneRemainder(a: Poly, b: Poly)
    requires Congruent(a, b) && (forall e :: e in a ==> e < 32) && (forall e :: e in b ==> e < 32)
    ensures a == b
  {
    var q :| Plus(a, b) == Multiple(q);
    var m := Bounded(q);
    MultipleReaches(q, m);
    assert Plus(a, b) == {};
    forall e: nat
      ensures e in a <==> e in b
    {
      assert e !in Plus(a, b);
    }
  }

  lemma SameChecksum(c: uint32, d: uint32)
    requires Remainder(c) == Remainder(d)
    ensures c == d
  {
    forall i | 0 <= i < 32
      ensures Bit(c, i) <==> Bit(d, i)
    {
      assert RemainderTerm(c, 31 - i) <==> 31 - i in Remainder(c);
      assert RemainderTerm(d, 31 - i) <==> 31 - i in Remainder(d);
    }
    Pow2Values();
    SameBits(c, d, 32);
  }

  lemma {:induction false} SameBits(c: nat, d: nat, n: nat)
    requires c < Pow2(n) && d < Pow2(n) && forall i :: 0 <= i < n ==> (Bit(c, i) <==> Bit(d, i))
    ensures c == d
    decreases n
  {
    if n > 0 {
      forall i | 0 <= i < n - 1
        ensures Bit(c / 2, i) <==> Bit(d / 2, i)
      {
        DivideTwice(c, Pow2(i));
        DivideTwice(d, Pow2(i));
        assert Bit(c, i + 1) <==> Bit(d, i + 1);
      }
      assert Bit(c, 0) <==> Bit(d, 0);
      assert Pow2(0) == 1;
      SameBits(c / 2, d / 2, n - 1);
    }
  }

  /** A checksum is the CRC-32C of the message exactly when its complement is the remainder. */
  lemma CrcExactly(s: seq<byte>, crc: uint32)
    ensures crc == Crc32c(s) <==> Congruent(Remainder(crc), Dividend(s))
  {
    hide Crc32c, Dividend, Congruent;
    CrcIsRemainder(s);
    if Congruent(Remainder(crc), Dividend(s)) {
      Swapped(Remainder(Crc32c(s)), Dividend(s));
      Through(Remainder(crc), Dividend(s), Remainder(Crc32c(s)));
      OneRemainder(Remainder(crc), Remainder(Crc32c(s)));
      SameChecksum(crc, Crc32c(s));
    }
  }
}
