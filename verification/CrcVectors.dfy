/** The two published check values of CRC-32C: 32 zero bytes (RFC 3720 section B.4) and the nine
    ASCII digits "123456789". */
module CrcVectors {
  import opened Bytes
  import opened Checksum
  import CrcPolynomial

  // ---------------------------------------------------------------------------------------
  // The register in a machine word
  // ---------------------------------------------------------------------------------------

  function Mask(i: nat): bv32 {
    if i == 0 then 1 else Mask(i - 1) << 1
  }

  predicate Meets(v: bv32, m: bv32) {
    v & m != 0
  }

  predicate Test(v: bv32, i: nat) {
    Meets(v, Mask(i))
  }

  function Word32(v: bv32): (b: Bits)
    ensures |b| == 32
  {
    seq(32, i requires 0 <= i => Test(v, i))
  }

  function Turn(v: bv32): bv32 {
    if v & 1 != 0 then (v >> 1) ^ 0x82f6_3b78 else v >> 1
  }

  function Turns(v: bv32): bv32 {
    Turn(Turn(Turn(Turn(Turn(Turn(Turn(Turn(v))))))))
  }

  lemma Masks()
    ensures Mask(0) == 0x1 && Mask(1) == 0x2 && Mask(2) == 0x4 && Mask(3) == 0x8
    ensures Mask(4) == 0x10 && Mask(5) == 0x20 && Mask(6) == 0x40 && Mask(7) == 0x80
    ensures Mask(8) == 0x100 && Mask(9) == 0x200 && Mask(10) == 0x400 && Mask(11) == 0x800
    ensures Mask(12) == 0x1000 && Mask(13) == 0x2000 && Mask(14) == 0x4000 && Mask(15) == 0x8000
    ensures Mask(16) == 0x1_0000 && Mask(17) == 0x2_0000 && Mask(18) == 0x4_0000 && Mask(19) == 0x8_0000
    ensures Mask(20) == 0x10_0000 && Mask(21) == 0x20_0000 && Mask(22) == 0x40_0000 && Mask(23) == 0x80_0000
    ensures Mask(24) == 0x100_0000 && Mask(25) == 0x200_0000 && Mask(26) == 0x400_0000 && Mask(27) == 0x800_0000
    ensures Mask(28) == 0x1000_0000 && Mask(29) == 0x2000_0000 && Mask(30) == 0x4000_0000 && Mask(31) == 0x8000_0000
  {
    assert Mask(4) == 0x10;
    assert Mask(8) == 0x100;
    assert Mask(12) == 0x1000;
    assert Mask(16) == 0x1_0000;
    assert Mask(20) == 0x10_0000;
    assert Mask(24) == 0x100_0000;
    assert Mask(28) == 0x1000_0000;
  }

  predicate OneBit(m: bv32) {
    m & (m - 1) == 0
  }

  lemma {:induction false} MaskOneBit(i: nat)
    ensures OneBit(Mask(i))
  {
    if i > 0 {
      MaskOneBit(i - 1);
    }
  }

  lemma XorMasked(v: bv32, u: bv32, m: bv32)
    requires OneBit(m)
    ensures Meets(v ^ u, m) == (Meets(v, m) != Meets(u, m))
  {
  }

  lemma ShiftMasked(v: bv32, m: bv32)
    requires OneBit(m)
    ensures Meets(v >> 1, m) == Meets(v, m << 1)
  {
  }

  /** The constant as a word. */
  lemma PolynomialWord(j: nat)
    requires j < 32
    ensures Polynomial()[j] == Test(0x82f6_3b78, j)
  {
    PolynomialBits();
    Masks();
    hide Polynomial, Mask;
    if j < 8 {
      assert j == 0 || j == 1 || j == 2 || j == 3 || j == 4 || j == 5 || j == 6 || j == 7;
    } else if j < 16 {
      assert j == 8 || j == 9 || j == 10 || j == 11 || j == 12 || j == 13 || j == 14 || j == 15;
    } else if j < 24 {
      assert j == 16 || j == 17 || j == 18 || j == 19 || j == 20 || j == 21 || j == 22 || j == 23;
    } else {
      assert j == 24 || j == 25 || j == 26 || j == 27 || j == 28 || j == 29 || j == 30 || j == 31;
    }
  }

  lemma TurnMasked(v: bv32, m: bv32)
    requires OneBit(m)
    ensures Meets(Turn(v), m) == (Meets(v, m << 1) != (Meets(v, 1) && Meets(0x82f6_3b78, m)))
  {
    ShiftMasked(v, m);
    if v & 1 != 0 {
      hide OneBit;
      XorMasked(v >> 1, 0x82f6_3b78, m);
    }
  }

  lemma NextMask(j: nat)
    ensures Mask(j + 1) == Mask(j) << 1
  {
  }

  lemma NoMask(v: bv32)
    ensures !Meets(v, Mask(32)) && Mask(0) == 1
  {
    Masks();
  }

  lemma TurnTest(v: bv32, j: nat)
    requires j < 32
    ensures Test(Turn(v), j) == ((j < 31 && Test(v, j + 1)) != (Test(v, 0) && Polynomial()[j]))
  {
    hide Polynomial, OneBit, Turn, Meets, Mask;
    PolynomialWord(j);
    MaskOneBit(j);
    NextMask(j);
    NoMask(v);
    TurnMasked(v, Mask(j));
  }

  /** One shift of the register is one turn of the word. */
  lemma TurnShifts(v: bv32)
    ensures Shift(Word32(v)) == Word32(Turn(v))
  {
    hide Turn, Shift, Test, Polynomial;
    forall j | 0 <= j < 32
      ensures Shift(Word32(v))[j] == Test(Turn(v), j)
    {
      CrcPolynomial.ShiftAt(Word32(v), j);
      TurnTest(v, j);
    }
  }

  lemma Eight(x: Bits)
    requires |x| == 32
    ensures Shifts(x, 8) == Shift(Shift(Shift(Shift(Shift(Shift(Shift(Shift(x))))))))
  {
    hide Shift;
    var a := Shift(x);
    var b := Shift(a);
    var c := Shift(b);
    var d := Shift(c);
    assert Shifts(x, 8) == Shifts(a, 7) == Shifts(b, 6) == Shifts(c, 5) == Shifts(d, 4);
    var e := Shift(d);
    var f := Shift(e);
    var g := Shift(f);
    assert Shifts(d, 4) == Shifts(e, 3) == Shifts(f, 2) == Shifts(g, 1) == Shifts(Shift(g), 0);
  }

  lemma TurnsShift(v: bv32)
    ensures Shifts(Word32(v), 8) == Word32(Turns(v))
  {
    hide Word32, Turn, Shift;
    var a := Turn(v);
    var b := Turn(a);
    var c := Turn(b);
    var d := Turn(c);
    var e := Turn(d);
    var f := Turn(e);
    var g := Turn(f);
    TurnShifts(v);
    TurnShifts(a);
    TurnShifts(b);
    TurnShifts(c);
    TurnShifts(d);
    TurnShifts(e);
    TurnShifts(f);
    TurnShifts(g);
    Eight(Word32(v));
  }

  lemma WordXor(v: bv32, u: bv32)
    ensures Xor(Word32(v), Word32(u)) == Word32(v ^ u)
  {
    hide Mask, OneBit;
    forall i | 0 <= i < 32
      ensures Test(v ^ u, i) == (Test(v, i) != Test(u, i))
    {
      MaskOneBit(i);
      XorMasked(v, u, Mask(i));
    }
    hide Test;
  }

  /** The word that a byte of the message joins to the register. */
  predicate Joins(b: byte, u: bv32) {
    BitsOf(b, 8) + Zeros(24) == Word32(u)
  }

  lemma ByteTurns(v: bv32, b: byte, u: bv32)
    requires Joins(b, u)
    ensures CrcByte(Word32(v), b) == Word32(Turns(v ^ u))
  {
    hide Word32, Turns;
    WordXor(v, u);
    TurnsShift(v ^ u);
  }

  lemma FirstWord()
    ensures Not(Zeros(32)) == Word32(0xffff_ffff)
  {
    Masks();
    hide Mask;
  }

  // ---------------------------------------------------------------------------------------
  // The values
  // ---------------------------------------------------------------------------------------

  /** One byte of the message in both readings. */
  predicate Same(b: byte, u: bv32) {
    var high := b / 16;
    && !Meets(u, 0xffff_ff00)
    && (b % 2 == 1) == Meets(u, 1) && (b / 2 % 2 == 1) == Meets(u, 2)
    && (b / 4 % 2 == 1) == Meets(u, 4) && (b / 8 % 2 == 1) == Meets(u, 8)
    && (high % 2 == 1) == Meets(u, 0x10) && (high / 2 % 2 == 1) == Meets(u, 0x20)
    && (high / 4 % 2 == 1) == Meets(u, 0x40) && (high / 8 % 2 == 1) == Meets(u, 0x80)
  }

  lemma SameJoins(b: byte, u: bv32)
    requires Same(b, u)
    ensures Joins(b, u)
  {
    var p := BitsOf(b, 8);
    assert p[0..] == p;
    FourBits(p, 0, b);
    FourBits(p, 4, b / 16);
    Masks();
    hide Mask, BitsOf, Meets;
    forall i | 0 <= i < 32
      ensures (p + Zeros(24))[i] == Test(u, i)
    {
      if i < 8 {
        assert i == 0 || i == 1 || i == 2 || i == 3 || i == 4 || i == 5 || i == 6 || i == 7;
      } else {
        HighBits(u, i);
      }
    }
  }

  lemma HighBits(u: bv32, i: nat)
    requires 8 <= i < 32 && !Meets(u, 0xffff_ff00)
    ensures !Test(u, i)
  {
    Masks();
    hide Mask;
  }

  /** From the register `v` the byte `b` leads to `w`. */
  predicate Leads(v: bv32, b: byte, u: bv32, w: bv32) {
    Same(b, u) && Turns(v ^ u) == w
  }

  lemma NextByte(s: seq<byte>, i: nat, v: bv32, b: byte, u: bv32, w: bv32)
    requires i < |s| && s[i] == b && Leads(v, b, u, w)
    ensures CrcFold(Word32(v), s[i..]) == CrcFold(Word32(w), s[i + 1..])
  {
    hide Word32, Turns, CrcByte, Joins, Same;
    SameJoins(s[i], u);
    ByteTurns(v, s[i], u);
    FoldNext(Word32(v), s, i);
  }

  /** The checksum, given the register after the last byte. */
  lemma Finished(s: seq<byte>, w: bv32)
    requires CrcFold(Word32(0xffff_ffff), s[0..]) == CrcFold(Word32(w), s[|s|..])
    ensures Crc32c(s) == Value(Not(Word32(w)))
  {
    assert s[0..] == s && s[|s|..] == [];
    FirstWord();
  }

  lemma FourValues(b: Bits, i: nat)
    requires i + 4 <= |b|
    ensures ValueFrom(b, i) ==
            (if b[i] then 1 else 0) + (if b[i + 1] then 2 else 0) + (if b[i + 2] then 4 else 0) +
            (if b[i + 3] then 8 else 0) + 16 * ValueFrom(b, i + 4)
  {
    assert ValueFrom(b, i + 2) == (if b[i + 2] then 1 else 0) + 2 * ValueFrom(b, i + 3);
    assert ValueFrom(b, i) == (if b[i] then 1 else 0) + 2 * ValueFrom(b, i + 1);
  }

  // ---------------------------------------------------------------------------------------
  // "123456789"
  // ---------------------------------------------------------------------------------------

  lemma Digits()
    ensures Same(0x31, 0x31)
    ensures Same(0x32, 0x32)
    ensures Same(0x33, 0x33)
    ensures Same(0x34, 0x34)
    ensures Same(0x35, 0x35)
    ensures Same(0x36, 0x36)
    ensures Same(0x37, 0x37)
    ensures Same(0x38, 0x38)
    ensures Same(0x39, 0x39)
  {
  }

  lemma DigitTurns()
    ensures Turns(0xffff_ffff ^ 0x31) == 0x6f0a_661c
    ensures Turns(0x6f0a_661c ^ 0x32) == 0x8caa_3b9f
    ensures Turns(0x8caa_3b9f ^ 0x33) == 0xef84_d04d
    ensures Turns(0xef84_d04d ^ 0x34) == 0x9c5_0b11
    ensures Turns(0x9c5_0b11 ^ 0x35) == 0xe72e_dcca
    ensures Turns(0xe72e_dcca ^ 0x36) == 0xbeca_8e79
    ensures Turns(0xbeca_8e79 ^ 0x37) == 0xedbd_6815
    ensures Turns(0xedbd_6815 ^ 0x38) == 0x9f78_7f65
    ensures Turns(0x9f78_7f65 ^ 0x39) == 0x1cf9_6d7c
  {
  }

  lemma DigitsLead()
    ensures Leads(0xffff_ffff, 0x31, 0x31, 0x6f0a_661c)
    ensures Leads(0x6f0a_661c, 0x32, 0x32, 0x8caa_3b9f)
    ensures Leads(0x8caa_3b9f, 0x33, 0x33, 0xef84_d04d)
    ensures Leads(0xef84_d04d, 0x34, 0x34, 0x9c5_0b11)
    ensures Leads(0x9c5_0b11, 0x35, 0x35, 0xe72e_dcca)
    ensures Leads(0xe72e_dcca, 0x36, 0x36, 0xbeca_8e79)
    ensures Leads(0xbeca_8e79, 0x37, 0x37, 0xedbd_6815)
    ensures Leads(0xedbd_6815, 0x38, 0x38, 0x9f78_7f65)
    ensures Leads(0x9f78_7f65, 0x39, 0x39, 0x1cf9_6d7c)
  {
    hide Same, Turns;
    Digits();
    DigitTurns();
  }

  lemma DigitsFold(s: seq<byte>)
    requires s == [0x31, 0x32, 0x33, 0x34, 0x35, 0x36, 0x37, 0x38, 0x39]
    ensures CrcFold(Word32(0xffff_ffff), s[0..]) == CrcFold(Word32(0x1cf9_6d7c), s[9..])
  {
    hide Word32, Leads, CrcFold;
    DigitsLead();
    NextByte(s, 0, 0xffff_ffff, 0x31, 0x31, 0x6f0a_661c);
    NextByte(s, 1, 0x6f0a_661c, 0x32, 0x32, 0x8caa_3b9f);
    NextByte(s, 2, 0x8caa_3b9f, 0x33, 0x33, 0xef84_d04d);
    NextByte(s, 3, 0xef84_d04d, 0x34, 0x34, 0x9c5_0b11);
    NextByte(s, 4, 0x9c5_0b11, 0x35, 0x35, 0xe72e_dcca);
    NextByte(s, 5, 0xe72e_dcca, 0x36, 0x36, 0xbeca_8e79);
    NextByte(s, 6, 0xbeca_8e79, 0x37, 0x37, 0xedbd_6815);
    NextByte(s, 7, 0xedbd_6815, 0x38, 0x38, 0x9f78_7f65);
    NextByte(s, 8, 0x9f78_7f65, 0x39, 0x39, 0x1cf9_6d7c);
  }

  // ---------------------------------------------------------------------------------------
  // 32 zero bytes
  // ---------------------------------------------------------------------------------------

  lemma ZerosLead0()
    ensures Leads(0xffff_ffff, 0, 0, 0xad82_acae)
    ensures Leads(0xad82_acae, 0, 0, 0xe9e_882d)
    ensures Leads(0xe9e_882d, 0, 0, 0x9f9b_5c85)
    ensures Leads(0x9f9b_5c85, 0, 0, 0xb798_b438)
    ensures Leads(0xb798_b438, 0, 0, 0xba8d_89ca)
    ensures Leads(0xba8d_89ca, 0, 0, 0xa8d5_8375)
    ensures Leads(0xa8d5_8375, 0, 0, 0x44c1_9592)
    ensures Leads(0x44c1_9592, 0, 0, 0x73d7_4d75)
  {
  }

  lemma ZerosFold0(s: seq<byte>)
    requires |s| == 32 && forall i :: 0 <= i < 32 ==> s[i] == 0
    ensures CrcFold(Word32(0xffff_ffff), s[0..]) == CrcFold(Word32(0x73d7_4d75), s[8..])
  {
    hide Word32, Leads, CrcFold;
    ZerosLead0();
    NextByte(s, 0, 0xffff_ffff, 0, 0, 0xad82_acae);
    NextByte(s, 1, 0xad82_acae, 0, 0, 0xe9e_882d);
    NextByte(s, 2, 0xe9e_882d, 0, 0, 0x9f9b_5c85);
    NextByte(s, 3, 0x9f9b_5c85, 0, 0, 0xb798_b438);
    NextByte(s, 4, 0xb798_b438, 0, 0, 0xba8d_89ca);
    NextByte(s, 5, 0xba8d_89ca, 0, 0, 0xa8d5_8375);
    NextByte(s, 6, 0xa8d5_8375, 0, 0, 0x44c1_9592);
    NextByte(s, 7, 0x44c1_9592, 0, 0, 0x73d7_4d75);
  }

  lemma ZerosLead1()
    ensures Leads(0x73d7_4d75, 0, 0, 0x441a_975c)
    ensures Leads(0x441a_975c, 0, 0, 0x1c22_0f94)
    ensures Leads(0x1c22_0f94, 0, 0, 0x552e_4907)
    ensures Leads(0x552e_4907, 0, 0, 0xd49f_4aa2)
    ensures Leads(0xd49f_4aa2, 0, 0, 0x43a4_5a1b)
    ensures Leads(0x43a4_5a1b, 0, 0, 0x8994_c80e)
    ensures Leads(0x8994_c80e, 0, 0, 0xacf1_2bef)
    ensures Leads(0xacf1_2bef, 0, 0, 0xbd8f_6515)
  {
  }

  lemma ZerosFold1(s: seq<byte>)
    requires |s| == 32 && forall i :: 0 <= i < 32 ==> s[i] == 0
    ensures CrcFold(Word32(0x73d7_4d75), s[8..]) == CrcFold(Word32(0xbd8f_6515), s[16..])
  {
    hide Word32, Leads, CrcFold;
    ZerosLead1();
    NextByte(s, 8, 0x73d7_4d75, 0, 0, 0x441a_975c);
    NextByte(s, 9, 0x441a_975c, 0, 0, 0x1c22_0f94);
    NextByte(s, 10, 0x1c22_0f94, 0, 0, 0x552e_4907);
    NextByte(s, 11, 0x552e_4907, 0, 0, 0xd49f_4aa2);
    NextByte(s, 12, 0xd49f_4aa2, 0, 0, 0x43a4_5a1b);
    NextByte(s, 13, 0x43a4_5a1b, 0, 0, 0x8994_c80e);
    NextByte(s, 14, 0x8994_c80e, 0, 0, 0xacf1_2bef);
    NextByte(s, 15, 0xacf1_2bef, 0, 0, 0xbd8f_6515);
  }

  lemma ZerosLead2()
    ensures Leads(0xbd8f_6515, 0, 0, 0x2512_5c16)
    ensures Leads(0x2512_5c16, 0, 0, 0x36da_32db)
    ensures Leads(0x36da_32db, 0, 0, 0x4a6c_90a2)
    ensures Leads(0x4a6c_90a2, 0, 0, 0x433a_a9c1)
    ensures Leads(0x433a_a9c1, 0, 0, 0x31a5_9f6e)
    ensures Leads(0x31a5_9f6e, 0, 0, 0xcd8f_89da)
    ensures Leads(0xcd8f_89da, 0, 0, 0xb8fc_461a)
    ensures Leads(0xb8fc_461a, 0, 0, 0x7b04_1311)
  {
  }

  lemma ZerosFold2(s: seq<byte>)
    requires |s| == 32 && forall i :: 0 <= i < 32 ==> s[i] == 0
    ensures CrcFold(Word32(0xbd8f_6515), s[16..]) == CrcFold(Word32(0x7b04_1311), s[24..])
  {
    hide Word32, Leads, CrcFold;
    ZerosLead2();
    NextByte(s, 16, 0xbd8f_6515, 0, 0, 0x2512_5c16);
    NextByte(s, 17, 0x2512_5c16, 0, 0, 0x36da_32db);
    NextByte(s, 18, 0x36da_32db, 0, 0, 0x4a6c_90a2);
    NextByte(s, 19, 0x4a6c_90a2, 0, 0, 0x433a_a9c1);
    NextByte(s, 20, 0x433a_a9c1, 0, 0, 0x31a5_9f6e);
    NextByte(s, 21, 0x31a5_9f6e, 0, 0, 0xcd8f_89da);
    NextByte(s, 22, 0xcd8f_89da, 0, 0, 0xb8fc_461a);
    NextByte(s, 23, 0xb8fc_461a, 0, 0, 0x7b04_1311);
  }

  lemma ZerosLead3()
    ensures Leads(0x7b04_1311, 0, 0, 0xe24e_407f)
    ensures Leads(0xe24e_407f, 0, 0, 0x2f69_2669)
    ensures Leads(0x2f69_2669, 0, 0, 0x195b_2188)
    ensures Leads(0x195b_2188, 0, 0, 0x836_3896)
    ensures Leads(0x836_3896, 0, 0, 0xb401_2dc7)
    ensures Leads(0xb401_2dc7, 0, 0, 0x17f3_4302)
    ensures Leads(0x17f3_4302, 0, 0, 0xe12c_83b4)
    ensures Leads(0xe12c_83b4, 0, 0, 0x756e_c955)
  {
  }

  lemma ZerosFold3(s: seq<byte>)
    requires |s| == 32 && forall i :: 0 <= i < 32 ==> s[i] == 0
    ensures CrcFold(Word32(0x7b04_1311), s[24..]) == CrcFold(Word32(0x756e_c955), s[32..])
  {
    hide Word32, Leads, CrcFold;
    ZerosLead3();
    NextByte(s, 24, 0x7b04_1311, 0, 0, 0xe24e_407f);
    NextByte(s, 25, 0xe24e_407f, 0, 0, 0x2f69_2669);
    NextByte(s, 26, 0x2f69_2669, 0, 0, 0x195b_2188);
    NextByte(s, 27, 0x195b_2188, 0, 0, 0x836_3896);
    NextByte(s, 28, 0x836_3896, 0, 0, 0xb401_2dc7);
    NextByte(s, 29, 0xb401_2dc7, 0, 0, 0x17f3_4302);
    NextByte(s, 30, 0x17f3_4302, 0, 0, 0xe12c_83b4);
    NextByte(s, 31, 0xe12c_83b4, 0, 0, 0x756e_c955);
  }

  // ---------------------------------------------------------------------------------------
  // The check values
  // ---------------------------------------------------------------------------------------

  lemma NotWord(v: bv32)
    ensures var b := Not(Word32(v));
            ValueFrom(b, 32) == 0 && forall i :: 0 <= i < 32 ==> b[i] == !Test(v, i)
  {
    hide Test;
  }

  lemma DigitsTests()
    ensures !Test(0x1cf9_6d7c, 0) && !Test(0x1cf9_6d7c, 1) && Test(0x1cf9_6d7c, 2) && Test(0x1cf9_6d7c, 3)
    ensures Test(0x1cf9_6d7c, 4) && Test(0x1cf9_6d7c, 5) && Test(0x1cf9_6d7c, 6) && !Test(0x1cf9_6d7c, 7)
    ensures Test(0x1cf9_6d7c, 8) && !Test(0x1cf9_6d7c, 9) && Test(0x1cf9_6d7c, 10) && Test(0x1cf9_6d7c, 11)
    ensures !Test(0x1cf9_6d7c, 12) && Test(0x1cf9_6d7c, 13) && Test(0x1cf9_6d7c, 14) && !Test(0x1cf9_6d7c, 15)
    ensures Test(0x1cf9_6d7c, 16) && !Test(0x1cf9_6d7c, 17) && !Test(0x1cf9_6d7c, 18) && Test(0x1cf9_6d7c, 19)
    ensures Test(0x1cf9_6d7c, 20) && Test(0x1cf9_6d7c, 21) && Test(0x1cf9_6d7c, 22) && Test(0x1cf9_6d7c, 23)
    ensures !Test(0x1cf9_6d7c, 24) && !Test(0x1cf9_6d7c, 25) && Test(0x1cf9_6d7c, 26) && Test(0x1cf9_6d7c, 27)
    ensures Test(0x1cf9_6d7c, 28) && !Test(0x1cf9_6d7c, 29) && !Test(0x1cf9_6d7c, 30) && !Test(0x1cf9_6d7c, 31)
  {
    Masks();
    hide Mask;
  }

  lemma DigitsValue()
    ensures Value(Not(Word32(0x1cf9_6d7c))) == 0xe306_9283
  {
    hide Test;
    DigitsTests();
    var b := Not(Word32(0x1cf9_6d7c));
    NotWord(0x1cf9_6d7c);
    hide Word32, Not, ValueFrom;
    FourValues(b, 28);
    assert ValueFrom(b, 28) == 0xe;
    FourValues(b, 24);
    assert ValueFrom(b, 24) == 0xe3;
    FourValues(b, 20);
    assert ValueFrom(b, 20) == 0xe30;
    FourValues(b, 16);
    assert ValueFrom(b, 16) == 0xe306;
    FourValues(b, 12);
    assert ValueFrom(b, 12) == 0xe3069;
    FourValues(b, 8);
    assert ValueFrom(b, 8) == 0xe30692;
    FourValues(b, 4);
    assert ValueFrom(b, 4) == 0xe306928;
    FourValues(b, 0);
    assert ValueFrom(b, 0) == 0xe3069283;
  }

  lemma ZerosTests()
    ensures Test(0x756e_c955, 0) && !Test(0x756e_c955, 1) && Test(0x756e_c955, 2) && !Test(0x756e_c955, 3)
    ensures Test(0x756e_c955, 4) && !Test(0x756e_c955, 5) && Test(0x756e_c955, 6) && !Test(0x756e_c955, 7)
    ensures Test(0x756e_c955, 8) && !Test(0x756e_c955, 9) && !Test(0x756e_c955, 10) && Test(0x756e_c955, 11)
    ensures !Test(0x756e_c955, 12) && !Test(0x756e_c955, 13) && Test(0x756e_c955, 14) && Test(0x756e_c955, 15)
    ensures !Test(0x756e_c955, 16) && Test(0x756e_c955, 17) && Test(0x756e_c955, 18) && Test(0x756e_c955, 19)
    ensures !Test(0x756e_c955, 20) && Test(0x756e_c955, 21) && Test(0x756e_c955, 22) && !Test(0x756e_c955, 23)
    ensures Test(0x756e_c955, 24) && !Test(0x756e_c955, 25) && Test(0x756e_c955, 26) && !Test(0x756e_c955, 27)
    ensures Test(0x756e_c955, 28) && Test(0x756e_c955, 29) && Test(0x756e_c955, 30) && !Test(0x756e_c955, 31)
  {
    Masks();
    hide Mask;
  }

  lemma ZerosValue()
    ensures Value(Not(Word32(0x756e_c955))) == 0x8a91_36aa
  {
    hide Test;
    ZerosTests();
    var b := Not(Word32(0x756e_c955));
    NotWord(0x756e_c955);
    hide Word32, Not, ValueFrom;
    FourValues(b, 28);
    assert ValueFrom(b, 28) == 0x8;
    FourValues(b, 24);
    assert ValueFrom(b, 24) == 0x8a;
    FourValues(b, 20);
    assert ValueFrom(b, 20) == 0x8a9;
    FourValues(b, 16);
    assert ValueFrom(b, 16) == 0x8a91;
    FourValues(b, 12);
    assert ValueFrom(b, 12) == 0x8a913;
    FourValues(b, 8);
    assert ValueFrom(b, 8) == 0x8a9136;
    FourValues(b, 4);
    assert ValueFrom(b, 4) == 0x8a9136a;
    FourValues(b, 0);
    assert ValueFrom(b, 0) == 0x8a9136aa;
  }

  lemma CheckValue()
    ensures Crc32c([0x31, 0x32, 0x33, 0x34, 0x35, 0x36, 0x37, 0x38, 0x39]) == 0xe306_9283
  {
    hide Crc32c, CrcFold, Word32, Value, Not;
    var s: seq<byte> := [0x31, 0x32, 0x33, 0x34, 0x35, 0x36, 0x37, 0x38, 0x39];
    DigitsFold(s);
    Finished(s, 0x1cf9_6d7c);
    DigitsValue();
  }

  lemma ZerosCheckValue()
    ensures Crc32c(seq(32, _ => 0)) == 0x8a91_36aa
  {
    hide Crc32c, CrcFold, Word32, Value, Not;
    var s: seq<byte> := seq(32, _ => 0);
    ZerosFold0(s);
    ZerosFold1(s);
    ZerosFold2(s);
    ZerosFold3(s);
    Finished(s, 0x756e_c955);
    ZerosValue();
  }
}
