// Arithmetic in GF(2^8) for the S-box and the table generation of
// misc/mbedtls/library/aes.c: the product, the powers of 3 and the inverses.
module AesField {
  import opened Words
  import opened SBoxes
  import opened AesColumns
  import opened AesTables

  // ---- the product

  function Gate(c: bool, a: bv8): bv8 { if c then a else 0 }

  // The product in GF(2^8): the multiples of a selected by the bits of b.
  function Product(a: bv8, b: bv8): bv8
    decreases b
  {
    if b == 0 then 0 else Xor8(Gate(b & 1 != 0, a), Product(Xtime(a), b >> 1))
  }

  lemma {:induction false} Xor8Zero(a: bv8)
    ensures Xor8(a, 0) == a && Xor8(0, a) == a && Xor8(a, a) == 0
  {
  }

  lemma {:induction false} GateXor(c: bool, d: bool, a: bv8, b: bv8)
    ensures Gate(c, Xor8(a, b)) == Xor8(Gate(c, a), Gate(c, b))
    ensures Gate(c != d, a) == Xor8(Gate(c, a), Gate(d, a))
  {
    hide Xor8;
    Xor8Zero(a);
    Xor8Zero(0);
  }

  lemma {:induction false} HalfOfXor(a: bv8, b: bv8)
    ensures Xor8(a, b) >> 1 == Xor8(a >> 1, b >> 1)
    ensures (Xor8(a, b) & 1 != 0) == ((a & 1 != 0) != (b & 1 != 0))
  {
  }

  // One step of the product, also for 0.
  lemma {:induction false} ProductStep(a: bv8, b: bv8)
    ensures Product(a, b) == Xor8(Gate(b & 1 != 0, a), Product(Xtime(a), b >> 1))
  {
    hide Xor8;
    hide Xtime;
    if b == 0 {
      assert b >> 1 == 0;
      Xor8Zero(0);
    }
  }

  lemma {:induction false} ProductLeft(a: bv8, c: bv8, b: bv8)
    ensures Product(Xor8(a, c), b) == Xor8(Product(a, b), Product(c, b))
    decreases b
  {
    hide Xor8;
    hide Xtime;
    hide Gate;
    if b == 0 {
      Xor8Zero(0);
    } else {
      var g := b & 1 != 0;
      XtimeXor(a, c);
      ProductLeft(Xtime(a), Xtime(c), b >> 1);
      GateXor(g, g, a, c);
      Xor8Swap(Gate(g, a), Gate(g, c), Product(Xtime(a), b >> 1), Product(Xtime(c), b >> 1));
    }
  }

  lemma {:induction false} ProductRight(a: bv8, b: bv8, c: bv8)
    ensures Product(a, Xor8(b, c)) == Xor8(Product(a, b), Product(a, c))
    decreases b, c
  {
    hide Xor8;
    hide Xtime;
    hide Gate;
    if b == 0 {
      Xor8Zero(c);
      Xor8Zero(Product(a, c));
    } else {
      ProductRight(Xtime(a), b >> 1, c >> 1);
      HalfOfXor(b, c);
      ProductStep(a, b);
      ProductStep(a, c);
      ProductStep(a, Xor8(b, c));
      GateXor(b & 1 != 0, c & 1 != 0, a, a);
      Xor8Swap(Gate(b & 1 != 0, a), Gate(c & 1 != 0, a), Product(Xtime(a), b >> 1), Product(Xtime(a), c >> 1));
    }
  }

  lemma {:induction false} ProductOne(a: bv8)
    ensures Product(a, 1) == a
  {
    hide Xor8;
    hide Xtime;
    ProductStep(a, 1);
    assert Product(Xtime(a), 0) == 0;
    Xor8Zero(a);
  }

  lemma {:induction false} ProductDouble(a: bv8, b: bv8)
    requires b & 0x80 == 0
    ensures Product(a, b << 1) == Product(Xtime(a), b)
  {
    hide Xor8;
    hide Xtime;
    hide Product;
    ProductStep(a, b << 1);
    assert (b << 1) & 1 == 0 && (b << 1) >> 1 == b;
    Xor8Zero(Product(Xtime(a), b));
  }

  // x^8 = x^4 + x^3 + x + 1
  lemma {:induction false} Eighth(a: bv8)
    ensures Times8(Times8(Times4(a))) == Low4(a)
  {
    hide Times4;
    hide Times8;
    hide Low4;
    hide Xor8;
    var l, h := a & 0x0F, a & 0xF0;
    Nibbles(a);
    EighthLow(l);
    EighthHigh(h);
    Times4Xor(l, h);
    Times8Xor(Times4(l), Times4(h));
    Times8Xor(Times8(Times4(l)), Times8(Times4(h)));
    Low4Xor(l, h);
  }

  // a (x^4 + x^3 + x + 1)
  function Low4(a: bv8): bv8 { Xor8(a, Xor8(Xtime(a), Xor8(Times8(a), Xtime(Times8(a))))) }

  lemma {:induction false} Nibbles(a: bv8)
    ensures Xor8(a & 0x0F, a & 0xF0) == a && (a & 0x0F) & 0xF0 == 0 && (a & 0xF0) & 0x0F == 0
  {
  }

  lemma {:induction false} EighthLow(a: bv8)
    requires a & 0xF0 == 0
    ensures Times8(Times8(Times4(a))) == Low4(a)
  {
  }

  lemma {:induction false} EighthHigh(a: bv8)
    requires a & 0x0F == 0
    ensures Times8(Times8(Times4(a))) == Low4(a)
  {
    hide Times8;
    hide Xtime;
    hide Low4;
    var l := a >> 4;
    ShiftedNibble(a);
    EighthLow(l);
    EighthNext(l);
    EighthNext(Xtime(l));
    EighthNext(Times4(l));
    EighthNext(Xtime(Times4(l)));
  }

  lemma {:induction false} ShiftedNibble(a: bv8)
    requires a & 0x0F == 0
    ensures (a >> 4) & 0xF0 == 0 && a == Xtime(Xtime(Times4(a >> 4)))
  {
  }

  lemma {:induction false} EighthNext(a: bv8)
    requires Times8(Times8(Times4(a))) == Low4(a)
    ensures Times8(Times8(Times4(Xtime(a)))) == Low4(Xtime(a))
  {
    hide Xtime;
    hide Xor8;
    var c := Times8(a);
    XtimeXor(c, Xtime(c));
    XtimeXor(Xtime(a), Xor8(c, Xtime(c)));
    XtimeXor(a, Xor8(Xtime(a), Xor8(c, Xtime(c))));
  }

  lemma {:induction false} Times4Xor(a: bv8, b: bv8)
    ensures Times4(Xor8(a, b)) == Xor8(Times4(a), Times4(b))
  {
    hide Xtime;
    hide Xor8;
    XtimeXor(a, b);
    XtimeXor(Xtime(a), Xtime(b));
  }

  lemma {:induction false} Times8Xor(a: bv8, b: bv8)
    ensures Times8(Xor8(a, b)) == Xor8(Times8(a), Times8(b))
  {
    hide Times4;
    hide Xtime;
    hide Xor8;
    Times4Xor(a, b);
    XtimeXor(Times4(a), Times4(b));
  }

  lemma {:induction false} Low4Xor(a: bv8, b: bv8)
    ensures Low4(Xor8(a, b)) == Xor8(Low4(a), Low4(b))
  {
    hide Times8;
    hide Xtime;
    hide Xor8;
    var c, d := Times8(a), Times8(b);
    XtimeXor(a, b);
    Times8Xor(a, b);
    XtimeXor(c, d);
    Xor8Swap(c, d, Xtime(c), Xtime(d));
    var e, f := Xor8(c, Xtime(c)), Xor8(d, Xtime(d));
    Xor8Swap(Xtime(a), Xtime(b), e, f);
    Xor8Swap(a, b, Xor8(Xtime(a), e), Xor8(Xtime(b), f));
  }

  lemma {:induction false} ProductTop(a: bv8)
    ensures Product(a, 0x80) == Times8(Times8(Xtime(a)))
  {
    hide Xtime;
    hide Product;
    ProductDouble(a, 0x40);
    var b := Xtime(a);
    ProductDouble(b, 0x20);
    ProductDouble(Xtime(b), 0x10);
    ProductDouble(Times4(b), 0x08);
    var c := Times8(b);
    ProductDouble(c, 0x04);
    ProductDouble(Xtime(c), 0x02);
    ProductDouble(Times4(c), 0x01);
    ProductOne(Times8(c));
  }

  lemma {:induction false} ProductCarry(a: bv8)
    ensures Product(a, 0x1B) == Xor8(a, Xor8(Xtime(a), Xor8(Times8(a), Xtime(Times8(a)))))
  {
    hide Xtime;
    hide Xor8;
    hide Product;
    ProductStep(a, 0x1B);
    ProductStep(Xtime(a), 0x0D);
    ProductStep(Times4(a), 0x06);
    ProductStep(Times8(a), 0x03);
    ProductOne(Xtime(Times8(a)));
    Xor8Zero(Product(Times8(a), 0x03));
  }

  // Multiplication by x, and by 3, moves from one factor to the other.
  lemma {:induction false} XtimeMoves(a: bv8, b: bv8)
    ensures Product(Xtime(a), b) == Product(a, Xtime(b))
  {
    hide Product;
    hide Xor8;
    var l, h := b & 0x7F, b & 0x80;
    Halves(b);
    ProductRight(Xtime(a), l, h);
    ProductDouble(a, l);
    ProductRight(a, Doubled(l), Carry(b));
    XtimeOfZero(a);
    if h == 0x80 {
      ProductTop(Xtime(a));
      ProductCarry(a);
      Eighth(a);
    }
  }

  lemma {:induction false} Halves(b: bv8)
    ensures Xor8(b & 0x7F, b & 0x80) == b && (b & 0x7F) & 0x80 == 0
    ensures b & 0x80 == 0 || b & 0x80 == 0x80
    ensures Xtime(b) == Xor8(Doubled(b & 0x7F), Carry(b))
  {
  }

  lemma {:induction false} XtimeOfZero(a: bv8)
    ensures Product(Xtime(a), 0) == 0 && Product(a, 0) == 0
  {
  }

  // x ^ XTIME(x), multiplication by 3.
  function Triple(x: bv8): bv8 { Xor8(x, Xtime(x)) }

  lemma {:induction false} TripleMoves(a: bv8, b: bv8)
    ensures Product(Triple(a), b) == Product(a, Triple(b))
  {
    hide Product;
    hide Xor8;
    hide Xtime;
    ProductLeft(a, Xtime(a), b);
    ProductRight(a, b, Xtime(b));
    XtimeMoves(a, b);
  }

  // ---- the powers of 3

  // 3^k
  function Power(k: nat): bv8 {
    if k == 0 then 1 else Triple(Power(k - 1))
  }

  lemma {:induction false} PowerProduct(a: nat, b: nat)
    ensures Product(Power(a), Power(b)) == Power(a + b)
    decreases b
  {
    hide Product;
    hide Triple;
    if b == 0 {
      ProductOne(Power(a));
    } else {
      TripleMoves(Power(a), Power(b - 1));
      PowerProduct(a + 1, b - 1);
    }
  }

  lemma {:induction false} TripleInjective(x: bv8, y: bv8)
    requires Triple(x) == Triple(y)
    ensures x == y
  {
  }

  // The inverse in the field, read from the S-box; 0 for 0.
  function Inverse(x: bv8): bv8 { Unaffine(Sb1(x)) }

  // The linear map and the constant of the second S-box of ARIA.
  function Linear2(y: bv8): bv8 {
    0xE2 ^ Gate(y & 0x01 != 0, 0xAC) ^ Gate(y & 0x02 != 0, 0xFD) ^ Gate(y & 0x04 != 0, 0xC6) ^ Gate(y & 0x08 != 0, 0x83)
         ^ Gate(y & 0x10 != 0, 0x26) ^ Gate(y & 0x20 != 0, 0xA7) ^ Gate(y & 0x40 != 0, 0xFB) ^ Gate(y & 0x80 != 0, 0x5F)
  }

  // y = 3 x, and the S-box entries fit that.
  predicate Step(x: bv8, y: bv8) {
    Triple(x) == y && Triple(Inverse(y)) == Inverse(x) && Sb2(x) == Linear2(Inverse(x))
  }

  // x is a power of 3, and the step from it fits.
  ghost predicate Found(x: bv8) {
    (exists k: nat :: k < 255 && Power(k) == x) && Step(x, Triple(x))
  }

  lemma {:induction false} Next(k: nat, x: bv8, y: bv8)
    requires k < 255 && Power(k) == x && Step(x, y)
    ensures Found(x) && Power(k + 1) == y
  {
    hide Triple;
    hide Inverse;
  }

  // The 255 powers, 16 at a time.
  lemma {:induction false} Powers0()
    requires Power(0) == 0x01
    ensures Found(0x01) && Found(0x03) && Found(0x05) && Found(0x0F) && Found(0x11) && Found(0x33) && Found(0x55) && Found(0xFF)
    ensures Found(0x1A) && Found(0x2E) && Found(0x72) && Found(0x96) && Found(0xA1) && Found(0xF8) && Found(0x13) && Found(0x35) && Power(16) == 0x5F
  {
    hide Power;
    hide Found;
    Next(0, 0x01, 0x03); Next(1, 0x03, 0x05); Next(2, 0x05, 0x0F); Next(3, 0x0F, 0x11);
    Next(4, 0x11, 0x33); Next(5, 0x33, 0x55); Next(6, 0x55, 0xFF); Next(7, 0xFF, 0x1A);
    Next(8, 0x1A, 0x2E); Next(9, 0x2E, 0x72); Next(10, 0x72, 0x96); Next(11, 0x96, 0xA1);
    Next(12, 0xA1, 0xF8); Next(13, 0xF8, 0x13); Next(14, 0x13, 0x35); Next(15, 0x35, 0x5F);
  }

  lemma {:induction false} Powers1()
    requires Power(16) == 0x5F
    ensures Found(0x5F) && Found(0xE1) && Found(0x38) && Found(0x48) && Found(0xD8) && Found(0x73) && Found(0x95) && Found(0xA4)
    ensures Found(0xF7) && Found(0x02) && Found(0x06) && Found(0x0A) && Found(0x1E) && Found(0x22) && Found(0x66) && Found(0xAA) && Power(32) == 0xE5
  {
    hide Power;
    hide Found;
    Next(16, 0x5F, 0xE1); Next(17, 0xE1, 0x38); Next(18, 0x38, 0x48); Next(19, 0x48, 0xD8);
    Next(20, 0xD8, 0x73); Next(21, 0x73, 0x95); Next(22, 0x95, 0xA4); Next(23, 0xA4, 0xF7);
    Next(24, 0xF7, 0x02); Next(25, 0x02, 0x06); Next(26, 0x06, 0x0A); Next(27, 0x0A, 0x1E);
    Next(28, 0x1E, 0x22); Next(29, 0x22, 0x66); Next(30, 0x66, 0xAA); Next(31, 0xAA, 0xE5);
  }

  lemma {:induction false} Powers2()
    requires Power(32) == 0xE5
    ensures Found(0xE5) && Found(0x34) && Found(0x5C) && Found(0xE4) && Found(0x37) && Found(0x59) && Found(0xEB) && Found(0x26)
    ensures Found(0x6A) && Found(0xBE) && Found(0xD9) && Found(0x70) && Found(0x90) && Found(0xAB) && Found(0xE6) && Found(0x31) && Power(48) == 0x53
  {
    hide Power;
    hide Found;
    Next(32, 0xE5, 0x34); Next(33, 0x34, 0x5C); Next(34, 0x5C, 0xE4); Next(35, 0xE4, 0x37);
    Next(36, 0x37, 0x59); Next(37, 0x59, 0xEB); Next(38, 0xEB, 0x26); Next(39, 0x26, 0x6A);
    Next(40, 0x6A, 0xBE); Next(41, 0xBE, 0xD9); Next(42, 0xD9, 0x70); Next(43, 0x70, 0x90);
    Next(44, 0x90, 0xAB); Next(45, 0xAB, 0xE6); Next(46, 0xE6, 0x31); Next(47, 0x31, 0x53);
  }

  lemma {:induction false} Powers3()
    requires Power(48) == 0x53
    ensures Found(0x53) && Found(0xF5) && Found(0x04) && Found(0x0C) && Found(0x14) && Found(0x3C) && Found(0x44) && Found(0xCC)
    ensures Found(0x4F) && Found(0xD1) && Found(0x68) && Found(0xB8) && Found(0xD3) && Found(0x6E) && Found(0xB2) && Found(0xCD) && Power(64) == 0x4C
  {
    hide Power;
    hide Found;
    Next(48, 0x53, 0xF5); Next(49, 0xF5, 0x04); Next(50, 0x04, 0x0C); Next(51, 0x0C, 0x14);
    Next(52, 0x14, 0x3C); Next(53, 0x3C, 0x44); Next(54, 0x44, 0xCC); Next(55, 0xCC, 0x4F);
    Next(56, 0x4F, 0xD1); Next(57, 0xD1, 0x68); Next(58, 0x68, 0xB8); Next(59, 0xB8, 0xD3);
    Next(60, 0xD3, 0x6E); Next(61, 0x6E, 0xB2); Next(62, 0xB2, 0xCD); Next(63, 0xCD, 0x4C);
  }

  lemma {:induction false} Powers4()
    requires Power(64) == 0x4C
    ensures Found(0x4C) && Found(0xD4) && Found(0x67) && Found(0xA9) && Found(0xE0) && Found(0x3B) && Found(0x4D) && Found(0xD7)
    ensures Found(0x62) && Found(0xA6) && Found(0xF1) && Found(0x08) && Found(0x18) && Found(0x28) && Found(0x78) && Found(0x88) && Power(80) == 0x83
  {
    hide Power;
    hide Found;
    Next(64, 0x4C, 0xD4); Next(65, 0xD4, 0x67); Next(66, 0x67, 0xA9); Next(67, 0xA9, 0xE0);
    Next(68, 0xE0, 0x3B); Next(69, 0x3B, 0x4D); Next(70, 0x4D, 0xD7); Next(71, 0xD7, 0x62);
    Next(72, 0x62, 0xA6); Next(73, 0xA6, 0xF1); Next(74, 0xF1, 0x08); Next(75, 0x08, 0x18);
    Next(76, 0x18, 0x28); Next(77, 0x28, 0x78); Next(78, 0x78, 0x88); Next(79, 0x88, 0x83);
  }

  lemma {:induction false} Powers5()
    requires Power(80) == 0x83
    ensures Found(0x83) && Found(0x9E) && Found(0xB9) && Found(0xD0) && Found(0x6B) && Found(0xBD) && Found(0xDC) && Found(0x7F)
    ensures Found(0x81) && Found(0x98) && Found(0xB3) && Found(0xCE) && Found(0x49) && Found(0xDB) && Found(0x76) && Found(0x9A) && Power(96) == 0xB5
  {
    hide Power;
    hide Found;
    Next(80, 0x83, 0x9E); Next(81, 0x9E, 0xB9); Next(82, 0xB9, 0xD0); Next(83, 0xD0, 0x6B);
    Next(84, 0x6B, 0xBD); Next(85, 0xBD, 0xDC); Next(86, 0xDC, 0x7F); Next(87, 0x7F, 0x81);
    Next(88, 0x81, 0x98); Next(89, 0x98, 0xB3); Next(90, 0xB3, 0xCE); Next(91, 0xCE, 0x49);
    Next(92, 0x49, 0xDB); Next(93, 0xDB, 0x76); Next(94, 0x76, 0x9A); Next(95, 0x9A, 0xB5);
  }

  lemma {:induction false} Powers6()
    requires Power(96) == 0xB5
    ensures Found(0xB5) && Found(0xC4) && Found(0x57) && Found(0xF9) && Found(0x10) && Found(0x30) && Found(0x50) && Found(0xF0)
    ensures Found(0x0B) && Found(0x1D) && Found(0x27) && Found(0x69) && Found(0xBB) && Found(0xD6) && Found(0x61) && Found(0xA3) && Power(112) == 0xFE
  {
    hide Power;
    hide Found;
    Next(96, 0xB5, 0xC4); Next(97, 0xC4, 0x57); Next(98, 0x57, 0xF9); Next(99, 0xF9, 0x10);
    Next(100, 0x10, 0x30); Next(101, 0x30, 0x50); Next(102, 0x50, 0xF0); Next(103, 0xF0, 0x0B);
    Next(104, 0x0B, 0x1D); Next(105, 0x1D, 0x27); Next(106, 0x27, 0x69); Next(107, 0x69, 0xBB);
    Next(108, 0xBB, 0xD6); Next(109, 0xD6, 0x61); Next(110, 0x61, 0xA3); Next(111, 0xA3, 0xFE);
  }

  lemma {:induction false} Powers7()
    requires Power(112) == 0xFE
    ensures Found(0xFE) && Found(0x19) && Found(0x2B) && Found(0x7D) && Found(0x87) && Found(0x92) && Found(0xAD) && Found(0xEC)
    ensures Found(0x2F) && Found(0x71) && Found(0x93) && Found(0xAE) && Found(0xE9) && Found(0x20) && Found(0x60) && Found(0xA0) && Power(128) == 0xFB
  {
    hide Power;
    hide Found;
    Next(112, 0xFE, 0x19); Next(113, 0x19, 0x2B); Next(114, 0x2B, 0x7D); Next(115, 0x7D, 0x87);
    Next(116, 0x87, 0x92); Next(117, 0x92, 0xAD); Next(118, 0xAD, 0xEC); Next(119, 0xEC, 0x2F);
    Next(120, 0x2F, 0x71); Next(121, 0x71, 0x93); Next(122, 0x93, 0xAE); Next(123, 0xAE, 0xE9);
    Next(124, 0xE9, 0x20); Next(125, 0x20, 0x60); Next(126, 0x60, 0xA0); Next(127, 0xA0, 0xFB);
  }

  lemma {:induction false} Powers8()
    requires Power(128) == 0xFB
    ensures Found(0xFB) && Found(0x16) && Found(0x3A) && Found(0x4E) && Found(0xD2) && Found(0x6D) && Found(0xB7) && Found(0xC2)
    ensures Found(0x5D) && Found(0xE7) && Found(0x32) && Found(0x56) && Found(0xFA) && Found(0x15) && Found(0x3F) && Found(0x41) && Power(144) == 0xC3
  {
    hide Power;
    hide Found;
    Next(128, 0xFB, 0x16); Next(129, 0x16, 0x3A); Next(130, 0x3A, 0x4E); Next(131, 0x4E, 0xD2);
    Next(132, 0xD2, 0x6D); Next(133, 0x6D, 0xB7); Next(134, 0xB7, 0xC2); Next(135, 0xC2, 0x5D);
    Next(136, 0x5D, 0xE7); Next(137, 0xE7, 0x32); Next(138, 0x32, 0x56); Next(139, 0x56, 0xFA);
    Next(140, 0xFA, 0x15); Next(141, 0x15, 0x3F); Next(142, 0x3F, 0x41); Next(143, 0x41, 0xC3);
  }

  lemma {:induction false} Powers9()
    requires Power(144) == 0xC3
    ensures Found(0xC3) && Found(0x5E) && Found(0xE2) && Found(0x3D) && Found(0x47) && Found(0xC9) && Found(0x40) && Found(0xC0)
    ensures Found(0x5B) && Found(0xED) && Found(0x2C) && Found(0x74) && Found(0x9C) && Found(0xBF) && Found(0xDA) && Found(0x75) && Power(160) == 0x9F
  {
    hide Power;
    hide Found;
    Next(144, 0xC3, 0x5E); Next(145, 0x5E, 0xE2); Next(146, 0xE2, 0x3D); Next(147, 0x3D, 0x47);
    Next(148, 0x47, 0xC9); Next(149, 0xC9, 0x40); Next(150, 0x40, 0xC0); Next(151, 0xC0, 0x5B);
    Next(152, 0x5B, 0xED); Next(153, 0xED, 0x2C); Next(154, 0x2C, 0x74); Next(155, 0x74, 0x9C);
    Next(156, 0x9C, 0xBF); Next(157, 0xBF, 0xDA); Next(158, 0xDA, 0x75); Next(159, 0x75, 0x9F);
  }

  lemma {:induction false} Powers10()
    requires Power(160) == 0x9F
    ensures Found(0x9F) && Found(0xBA) && Found(0xD5) && Found(0x64) && Found(0xAC) && Found(0xEF) && Found(0x2A) && Found(0x7E)
    ensures Found(0x82) && Found(0x9D) && Found(0xBC) && Found(0xDF) && Found(0x7A) && Found(0x8E) && Found(0x89) && Found(0x80) && Power(176) == 0x9B
  {
    hide Power;
    hide Found;
    Next(160, 0x9F, 0xBA); Next(161, 0xBA, 0xD5); Next(162, 0xD5, 0x64); Next(163, 0x64, 0xAC);
    Next(164, 0xAC, 0xEF); Next(165, 0xEF, 0x2A); Next(166, 0x2A, 0x7E); Next(167, 0x7E, 0x82);
    Next(168, 0x82, 0x9D); Next(169, 0x9D, 0xBC); Next(170, 0xBC, 0xDF); Next(171, 0xDF, 0x7A);
    Next(172, 0x7A, 0x8E); Next(173, 0x8E, 0x89); Next(174, 0x89, 0x80); Next(175, 0x80, 0x9B);
  }

  lemma {:induction false} Powers11()
    requires Power(176) == 0x9B
    ensures Found(0x9B) && Found(0xB6) && Found(0xC1) && Found(0x58) && Found(0xE8) && Found(0x23) && Found(0x65) && Found(0xAF)
    ensures Found(0xEA) && Found(0x25) && Found(0x6F) && Found(0xB1) && Found(0xC8) && Found(0x43) && Found(0xC5) && Found(0x54) && Power(192) == 0xFC
  {
    hide Power;
    hide Found;
    Next(176, 0x9B, 0xB6); Next(177, 0xB6, 0xC1); Next(178, 0xC1, 0x58); Next(179, 0x58, 0xE8);
    Next(180, 0xE8, 0x23); Next(181, 0x23, 0x65); Next(182, 0x65, 0xAF); Next(183, 0xAF, 0xEA);
    Next(184, 0xEA, 0x25); Next(185, 0x25, 0x6F); Next(186, 0x6F, 0xB1); Next(187, 0xB1, 0xC8);
    Next(188, 0xC8, 0x43); Next(189, 0x43, 0xC5); Next(190, 0xC5, 0x54); Next(191, 0x54, 0xFC);
  }

  lemma {:induction false} Powers12()
    requires Power(192) == 0xFC
    ensures Found(0xFC) && Found(0x1F) && Found(0x21) && Found(0x63) && Found(0xA5) && Found(0xF4) && Found(0x07) && Found(0x09)
    ensures Found(0x1B) && Found(0x2D) && Found(0x77) && Found(0x99) && Found(0xB0) && Found(0xCB) && Found(0x46) && Found(0xCA) && Power(208) == 0x45
  {
    hide Power;
    hide Found;
    Next(192, 0xFC, 0x1F); Next(193, 0x1F, 0x21); Next(194, 0x21, 0x63); Next(195, 0x63, 0xA5);
    Next(196, 0xA5, 0xF4); Next(197, 0xF4, 0x07); Next(198, 0x07, 0x09); Next(199, 0x09, 0x1B);
    Next(200, 0x1B, 0x2D); Next(201, 0x2D, 0x77); Next(202, 0x77, 0x99); Next(203, 0x99, 0xB0);
    Next(204, 0xB0, 0xCB); Next(205, 0xCB, 0x46); Next(206, 0x46, 0xCA); Next(207, 0xCA, 0x45);
  }

  lemma {:induction false} Powers13()
    requires Power(208) == 0x45
    ensures Found(0x45) && Found(0xCF) && Found(0x4A) && Found(0xDE) && Found(0x79) && Found(0x8B) && Found(0x86) && Found(0x91)
    ensures Found(0xA8) && Found(0xE3) && Found(0x3E) && Found(0x42) && Found(0xC6) && Found(0x51) && Found(0xF3) && Found(0x0E) && Power(224) == 0x12
  {
    hide Power;
    hide Found;
    Next(208, 0x45, 0xCF); Next(209, 0xCF, 0x4A); Next(210, 0x4A, 0xDE); Next(211, 0xDE, 0x79);
    Next(212, 0x79, 0x8B); Next(213, 0x8B, 0x86); Next(214, 0x86, 0x91); Next(215, 0x91, 0xA8);
    Next(216, 0xA8, 0xE3); Next(217, 0xE3, 0x3E); Next(218, 0x3E, 0x42); Next(219, 0x42, 0xC6);
    Next(220, 0xC6, 0x51); Next(221, 0x51, 0xF3); Next(222, 0xF3, 0x0E); Next(223, 0x0E, 0x12);
  }

  lemma {:induction false} Powers14()
    requires Power(224) == 0x12
    ensures Found(0x12) && Found(0x36) && Found(0x5A) && Found(0xEE) && Found(0x29) && Found(0x7B) && Found(0x8D) && Found(0x8C)
    ensures Found(0x8F) && Found(0x8A) && Found(0x85) && Found(0x94) && Found(0xA7) && Found(0xF2) && Found(0x0D) && Found(0x17) && Power(240) == 0x39
  {
    hide Power;
    hide Found;
    Next(224, 0x12, 0x36); Next(225, 0x36, 0x5A); Next(226, 0x5A, 0xEE); Next(227, 0xEE, 0x29);
    Next(228, 0x29, 0x7B); Next(229, 0x7B, 0x8D); Next(230, 0x8D, 0x8C); Next(231, 0x8C, 0x8F);
    Next(232, 0x8F, 0x8A); Next(233, 0x8A, 0x85); Next(234, 0x85, 0x94); Next(235, 0x94, 0xA7);
    Next(236, 0xA7, 0xF2); Next(237, 0xF2, 0x0D); Next(238, 0x0D, 0x17); Next(239, 0x17, 0x39);
  }

  lemma {:induction false} Powers15()
    requires Power(240) == 0x39
    ensures Found(0x39) && Found(0x4B) && Found(0xDD) && Found(0x7C) && Found(0x84) && Found(0x97) && Found(0xA2) && Found(0xFD)
    ensures Found(0x1C) && Found(0x24) && Found(0x6C) && Found(0xB4) && Found(0xC7) && Found(0x52) && Found(0xF6) && Power(255) == 0x01
  {
    hide Power;
    hide Found;
    Next(240, 0x39, 0x4B); Next(241, 0x4B, 0xDD); Next(242, 0xDD, 0x7C); Next(243, 0x7C, 0x84);
    Next(244, 0x84, 0x97); Next(245, 0x97, 0xA2); Next(246, 0xA2, 0xFD); Next(247, 0xFD, 0x1C);
    Next(248, 0x1C, 0x24); Next(249, 0x24, 0x6C); Next(250, 0x6C, 0xB4); Next(251, 0xB4, 0xC7);
    Next(252, 0xC7, 0x52); Next(253, 0x52, 0xF6); Next(254, 0xF6, 0x01);
  }

  // Every non-zero byte is one of them.
  lemma {:induction false} Linked(x: bv8)
    ensures x != 0 ==> Found(x)
    ensures Power(255) == 1
  {
    hide *;
    FirstPower();
    Powers0();
    Powers1();
    Powers2();
    Powers3();
    Powers4();
    Powers5();
    Powers6();
    Powers7();
    Powers8();
    Powers9();
    Powers10();
    Powers11();
    Powers12();
    Powers13();
    Powers14();
    Powers15();
  }

  lemma {:induction false} FirstPower()
    ensures Power(0) == 1
  {
  }

  // Every non-zero byte is a power of 3.
  lemma {:induction false} Generates(x: bv8) returns (k: nat)
    requires x != 0
    ensures k < 255 && Power(k) == x
  {
    hide Power;
    hide Step;
    Linked(x);
    k :| k < 255 && Power(k) == x;
  }

  // 3^255 = 1
  lemma {:induction false} PowerCycle(k: nat)
    ensures Power(255 + k) == Power(k)
  {
    hide Triple;
    if k == 0 {
      Linked(1);
    } else {
      PowerCycle(k - 1);
    }
  }

  lemma {:induction false} PowerMod(n: nat)
    requires n <= 510
    ensures Power(n % 255) == Power(n)
  {
    hide Power;
    if n >= 255 { PowerCycle(n - 255); }
    if n == 510 { PowerCycle(0); }
  }

  // ---- inverses

  lemma {:induction false} InverseEnds()
    ensures Inverse(1) == 1 && Inverse(0) == 0
  {
  }

  lemma {:induction false} InversePower(k: nat)
    requires k <= 255
    ensures Inverse(Power(k)) == Power(255 - k)
  {
    hide Inverse;
    hide Triple;
    if k == 0 {
      InverseEnds();
      PowerCycle(0);
    } else {
      InversePower(k - 1);
      InverseTriple(Power(k - 1));
      TripleInjective(Inverse(Power(k)), Power(255 - k));
    }
  }

  lemma {:induction false} InverseTriple(x: bv8)
    ensures Triple(Inverse(Triple(x))) == Inverse(x)
  {
    hide Inverse;
    hide Power;
    if x == 0 {
      InverseEnds();
    } else {
      Linked(x);
    }
  }

  // Rotl and the affine map of section 5.1.1 of FIPS 197, as the generation
  // code computes them.
  function Rotl(v: bv8): bv8 { (v << 1) | (v >> 7) }

  function Affine(v: bv8): bv8 {
    var r1 := Rotl(v);
    var r2 := Rotl(r1);
    var r3 := Rotl(r2);
    v ^ r1 ^ r2 ^ r3 ^ Rotl(r3) ^ 0x63
  }

  // The inverse of the affine map.
  function Unaffine(v: bv8): bv8 {
    var r1 := Rotl(v);
    var r3 := Rotl(Rotl(r1));
    r1 ^ r3 ^ Rotl(Rotl(Rotl(r3))) ^ 0x05
  }

  lemma {:induction false} AffineUnaffine(v: bv8)
    ensures Affine(Unaffine(v)) == v
  {
  }

  // pow[255 - log[x]] is what the S-box applies its affine map to.
  lemma {:induction false} Substituted(x: bv8, l: nat)
    requires l <= 255 && Power(l) == x
    ensures Sb1(x) == Affine(Power(255 - l))
  {
    hide Power;
    hide Affine;
    InversePower(l);
    AffineUnaffine(Sb1(x));
  }

  // FSb maps zero to 0x63 and any other byte to the affine image of its
  // inverse in the field.
  lemma {:induction false} ForwardSBox(x: bv8)
    ensures exists y: bv8 :: Sb1(x) == Affine(y) && if x == 0 then y == 0 else Product(x, y) == 1
  {
    hide *;
    if x == 0 {
      ZeroEntry();
    } else {
      var k := Generates(x);
      Substituted(x, k);
      PowerProduct(k, 255 - k);
      PowerCycle(0);
      FirstPower();
    }
  }

  lemma {:induction false} ZeroEntry()
    ensures Sb1(0) == Affine(0) == 0x63 && Sb2(0) == 0xE2
  {
  }

  // The affine map in terms of the bits: output bit i is the sum of the input
  // bits i, i + 4, i + 5, i + 6 and i + 7 and of bit i of 0x63.
  lemma {:induction false} AffineIs(v: bv8)
    ensures Affine(v) == v ^ ((v << 1) | (v >> 7)) ^ ((v << 2) | (v >> 6)) ^ ((v << 3) | (v >> 5)) ^ ((v << 4) | (v >> 4)) ^ 0x63
  {
  }

  // The second S-box of ARIA, aria_sb2: another affine image of the inverse.
  lemma {:induction false} SecondSBox(x: bv8)
    ensures exists y: bv8 ::
              && (if x == 0 then y == 0 else Product(x, y) == 1)
              && Sb2(x) == 0xE2 ^ (if y & 0x01 != 0 then 0xAC else 0) ^ (if y & 0x02 != 0 then 0xFD else 0)
                                ^ (if y & 0x04 != 0 then 0xC6 else 0) ^ (if y & 0x08 != 0 then 0x83 else 0)
                                ^ (if y & 0x10 != 0 then 0x26 else 0) ^ (if y & 0x20 != 0 then 0xA7 else 0)
                                ^ (if y & 0x40 != 0 then 0xFB else 0) ^ (if y & 0x80 != 0 then 0x5F else 0)
  {
    hide *;
    Linear2Is(Inverse(x));
    if x == 0 {
      ZeroEntry();
      InverseEnds();
      XtimeOfZero(0);
    } else {
      var k := Generates(x);
      Linked(x);
      FoundStep(x);
      InversePower(k);
      PowerProduct(k, 255 - k);
      PowerCycle(0);
      FirstPower();
    }
  }

  lemma {:induction false} FoundStep(x: bv8)
    requires Found(x)
    ensures Sb2(x) == Linear2(Inverse(x))
  {
  }

  lemma {:induction false} Linear2Is(y: bv8)
    ensures Linear2(0) == 0xE2
    ensures Linear2(y) == 0xE2 ^ (if y & 0x01 != 0 then 0xAC else 0) ^ (if y & 0x02 != 0 then 0xFD else 0)
                               ^ (if y & 0x04 != 0 then 0xC6 else 0) ^ (if y & 0x08 != 0 then 0x83 else 0)
                               ^ (if y & 0x10 != 0 then 0x26 else 0) ^ (if y & 0x20 != 0 then 0xA7 else 0)
                               ^ (if y & 0x40 != 0 then 0xFB else 0) ^ (if y & 0x80 != 0 then 0x5F else 0)
  {
  }

  // ---- products by constants

  // MixColumns and InvMixColumns multiply a column by the matrices of sections
  // 5.1.3 and 5.3.3 of FIPS 197.
  lemma {:induction false} MixColumnIs(b0: bv8, b1: bv8, b2: bv8, b3: bv8)
    ensures MixRow(b0, b1, b2, b3) == Xor8(Xor8(Product(b0, 2), Product(b1, 3)), Xor8(b2, b3))
    ensures InvMixRow(b0, b1, b2, b3) == Xor8(Xor8(Product(b0, 14), Product(b1, 11)), Xor8(Product(b2, 13), Product(b3, 9)))
    ensures var w := MixColumn(Join(b0, b1, b2, b3));
            && Byte0(w) == MixRow(b0, b1, b2, b3) && Byte1(w) == MixRow(b1, b2, b3, b0)
            && Byte2(w) == MixRow(b2, b3, b0, b1) && Byte3(w) == MixRow(b3, b0, b1, b2)
    ensures var w := InvMixColumn(Join(b0, b1, b2, b3));
            && Byte0(w) == InvMixRow(b0, b1, b2, b3) && Byte1(w) == InvMixRow(b1, b2, b3, b0)
            && Byte2(w) == InvMixRow(b2, b3, b0, b1) && Byte3(w) == InvMixRow(b3, b0, b1, b2)
  {
    hide Join;
    hide Product;
    hide MixRow;
    hide InvMixRow;
    hide Byte0;
    hide Byte1;
    hide Byte2;
    hide Byte3;
    BytesJoin(b0, b1, b2, b3);
    BytesJoin(MixRow(b0, b1, b2, b3), MixRow(b1, b2, b3, b0), MixRow(b2, b3, b0, b1), MixRow(b3, b0, b1, b2));
    BytesJoin(InvMixRow(b0, b1, b2, b3), InvMixRow(b1, b2, b3, b0), InvMixRow(b2, b3, b0, b1), InvMixRow(b3, b0, b1, b2));
    MixRowIs(b0, b1, b2, b3);
    InvMixRowIs(b0, b1, b2, b3);
  }

  lemma {:induction false} MixRowIs(p: bv8, q: bv8, r: bv8, s: bv8)
    ensures MixRow(p, q, r, s) == Xor8(Xor8(Product(p, 2), Product(q, 3)), Xor8(r, s))
  {
    hide Product;
    hide Xtime;
    hide Xor5;
    hide Xor8;
    ProductSmall(p);
    ProductSmall(q);
    var a, b := Xtime(p), Xtime(q);
    Chain5(a, b, q, r, s);
    Xor8Comm(q, b);
    Xor8Assoc(a, b, q);
    Xor8Assoc(Xor8(Xor8(a, b), q), r, s);
  }

  lemma {:induction false} InvMixRowIs(p: bv8, q: bv8, r: bv8, s: bv8)
    ensures InvMixRow(p, q, r, s) == Xor8(Xor8(Product(p, 14), Product(q, 11)), Xor8(Product(r, 13), Product(s, 9)))
  {
    hide *;
    ProductConstants(p);
    ProductConstants(q);
    ProductConstants(r);
    ProductConstants(s);
    InvRow(Times8(p), Times4(p), Xtime(p), Times8(q), Xtime(q), q, Times8(r), Times4(r), r, Times8(s), s);
    TimesAre(p, q, r, s);
  }

  lemma {:induction false} TimesAre(p: bv8, q: bv8, r: bv8, s: bv8)
    ensures Times14(p) == Xor8(Xor8(Times8(p), Times4(p)), Xtime(p)) && Times11(q) == Xor8(Xor8(Times8(q), Xtime(q)), q)
    ensures Times13(r) == Xor8(Xor8(Times8(r), Times4(r)), r) && Times9(s) == Xor8(Times8(s), s)
    ensures InvMixRow(p, q, r, s) == Xor11(Times8(p), Times4(p), Xtime(p), Times8(q), Xtime(q), q, Times8(r), Times4(r), r, Times8(s), s)
  {
    hide Xor8;
    hide Times8;
    hide Times4;
    hide Xtime;
  }

  lemma {:induction false} InvRow(a: bv8, b: bv8, c: bv8, d: bv8, e: bv8, f: bv8, g: bv8, h: bv8, i: bv8, j: bv8, k: bv8)
    ensures Xor11(a, b, c, d, e, f, g, h, i, j, k)
         == Xor8(Xor8(Xor8(Xor8(a, b), c), Xor8(Xor8(d, e), f)), Xor8(Xor8(Xor8(g, h), i), Xor8(j, k)))
  {
    hide *;
    Sum11(a, b, c, d, e, f, g, h, i, j, k);
    InvRowParts(a, b, c, d, e, f, g, h, i, j, k);
  }

  lemma {:induction false} InvRowParts(a: bv8, b: bv8, c: bv8, d: bv8, e: bv8, f: bv8, g: bv8, h: bv8, i: bv8, j: bv8, k: bv8)
    ensures Xor8(Xor8(a, b), c) == a ^ b ^ c && Xor8(Xor8(d, e), f) == d ^ e ^ f
    ensures Xor8(Xor8(g, h), i) == g ^ h ^ i && Xor8(j, k) == j ^ k
    ensures Xor8(a ^ b ^ c, d ^ e ^ f) == a ^ b ^ c ^ d ^ e ^ f && Xor8(g ^ h ^ i, j ^ k) == g ^ h ^ i ^ j ^ k
    ensures Xor8(a ^ b ^ c ^ d ^ e ^ f, g ^ h ^ i ^ j ^ k) == a ^ b ^ c ^ d ^ e ^ f ^ g ^ h ^ i ^ j ^ k
  {
  }

  // The entries of RT0 are field products.
  lemma {:induction false} ProductConstants(x: bv8)
    ensures Times9(x) == Product(x, 9) && Times11(x) == Product(x, 11)
    ensures Times13(x) == Product(x, 13) && Times14(x) == Product(x, 14)
  {
    hide Product;
    hide Xor8;
    hide Xtime;
    var x1, x2, x3 := Xtime(x), Times4(x), Times8(x);
    ProductSmall(x1);
    ProductSmall(x2);
    ProductStep(x, 9);
    ProductStep(x1, 4);
    Xor8Comm(x, x3);
    ProductStep(x, 11);
    ProductStep(x1, 5);
    Reorder(x, x1, x3);
    ProductStep(x, 13);
    ProductStep(x1, 6);
    Reorder(x, x2, x3);
    ProductStep(x, 14);
    ProductStep(x1, 7);
    Reorder(x1, x2, x3);
    Xor8Zero(Product(x1, 7));
    Xor8Zero(Product(x2, 2));
    Xor8Zero(Product(x2, 3));
  }

  lemma {:induction false} ProductSmall(x: bv8)
    ensures Product(x, 2) == Xtime(x) && Product(x, 3) == Xor8(x, Xtime(x))
  {
    hide Product;
    hide Xor8;
    hide Xtime;
    ProductStep(x, 2);
    ProductStep(x, 3);
    ProductOne(Xtime(x));
    Xor8Zero(Xtime(x));
  }

  lemma {:induction false} Reorder(a: bv8, b: bv8, c: bv8)
    ensures Xor8(a, Xor8(b, c)) == Xor8(Xor8(c, b), a)
  {
    hide Xor8;
    Xor8Comm(b, c);
    Xor8Comm(a, Xor8(c, b));
  }

  predicate Factor(c: bv8) { c == 9 || c == 11 || c == 13 || c == 14 }

  function Times(c: bv8, x: bv8): bv8
    requires Factor(c)
  {
    if c == 9 then Times9(x) else if c == 11 then Times11(x) else if c == 13 then Times13(x) else Times14(x)
  }

  // The MUL macro by logarithms.
  lemma {:induction false} TimesPower(c: bv8, j: nat, k: nat)
    requires Factor(c) && Power(j) == c
    ensures Times(c, Power(k)) == Power(j + k)
  {
    hide Product;
    hide Power;
    hide Times9;
    hide Times11;
    hide Times13;
    hide Times14;
    ProductConstants(Power(k));
    PowerProduct(k, j);
  }

  lemma {:induction false} TimesZero(c: bv8)
    requires Factor(c)
    ensures Times(c, 0) == 0 && c != 0
  {
  }
}
