// Two curves small enough to be computed with. The first, over GF(8), gives
// parameters of the code for which every hypothesis about the parameters holds,
// and has a public key that is accepted although the multiplication of that key
// does not end. On the second, over GF(4), the addition is associative.
module SmallCurve {
  import opened Bits
  import opened Field
  import opened CurveLaw
  import opened WordVector
  import opened RawField
  import opened RawCurve
  import opened Ecdh

  // The polynomial x^3 + x + 1, the base point (x + 1, 1) and its order.
  const GF8 := Params(3, 1, [11], [3], [3], [1], [3])

  lemma {:induction false} Law8()
    ensures GF8.Law() == Curve(11, 3, 3) && GF8.Base() == Point(3, 1) && Value(GF8.baseOrder) == 3
  {
    OneWord(11);
    OneWord(3);
    OneWord(1);
  }

  lemma {:induction false} OneWord(w: Word)
    ensures Value([w]) == w
  {
    assert [w][1..] == [];
  }

  // ---- the field

  lemma {:induction false} Products()
    ensures PMul(1, 1) == 1 && PMul(3, 1) == 3 && PMul(7, 1) == 7 && PMul(3, 3) == 5 && PMul(3, 5) == 15
  {
    Sums();
    PMulOne(1);
    PMulOne(3);
    PMulOne(7);
    PMulOdd(3, 1, 1);
    PMulOdd(3, 2, 1);
    PMulOdd(3, 1, 0);
    XorZero(6);
  }

  lemma {:induction false} Sums()
    ensures Xor(3, 6) == 5 && Xor(3, 12) == 15 && Xor(1, 3) == 2 && Xor(4, 5) == 1 && Xor(3, 5) == 6
    ensures Xor(15, 11) == 4 && Xor(6, 1) == 7 && Xor(2, 3) == 1 && Xor(5, 7) == 2 && Xor(1, 3) == 2
  {
    hide Xor;
    XorZero(0);
    XorZero(1);
    XorZero(2);
    XorZero(3);
    XorSelf(1);
    XorSplit(1, 0, 1, 1);
    XorSplit(0, 1, 1, 1);
    XorSplit(1, 1, 0, 3);
    XorSplit(1, 0, 0, 1);
    XorSplit(1, 1, 0, 1);
    XorSplit(1, 1, 1, 2);
    XorSplit(0, 3, 1, 0);
    XorSplit(1, 2, 1, 3);
    XorSplit(0, 2, 1, 2);
    XorSplit(1, 0, 0, 3);
    XorSplit(1, 1, 0, 6);
    XorSplit(1, 3, 1, 2);
    XorSplit(1, 7, 1, 5);
    XorSplit(1, 3, 1, 2);
    XorSelf(2);
  }

  lemma {:induction false} Moduli()
    ensures Modulus(11, 3) && Modulus(3, 1) && Modulus(5, 2) && Modulus(7, 2)
    ensures Pow2(1) == 2 && Pow2(2) == 4 && Pow2(3) == 8
  {
    assert Pow2(0) == 1;
    assert Pow2(1) == 2 * Pow2(0);
    assert Pow2(2) == 2 * Pow2(1);
    assert Pow2(3) == 2 * Pow2(2);
    assert BitLen(1) == 1 && BitLen(2) == 2 && BitLen(3) == 2 && BitLen(5) == 3 && BitLen(7) == 3 && BitLen(11) == 4;
  }

  lemma {:induction false} Bits8()
    ensures Bit(15, 3) && Bit(2, 1) && Bit(3, 1) && Bit(5, 2) && Bit(11, 3) && !Bit(1, 1) && !Bit(1, 2)
  {
    assert Bit(1, 0) && Bit(3, 1) && Bit(7, 2) && Bit(5, 1) == Bit(2, 0) && Bit(2, 1);
    assert !Bit(0, 0) && !Bit(0, 1);
  }

  lemma {:induction false} Remainders()
    ensures Mod(11, 3, 1) == 1 && Mod(11, 5, 2) == 1 && Mod(11, 7, 2) == 2 && Mod(15, 11, 3) == 4
  {
    hide Xor;
    hide Mod;
    hide Bit;
    Moduli();
    Sums();
    Bits8();
    XorSelf(3);
    XorSelf(5);
    ModSmall(1, 3, 1);
    ModStep(2, 3, 1);
    ModStep(5, 3, 1);
    ModStep(11, 3, 1);
    ModSmall(2, 5, 2);
    ModStep(5, 5, 2);
    ModStep(11, 5, 2);
    ModSmall(2, 7, 2);
    ModStep(5, 7, 2);
    ModStep(11, 7, 2);
    ModSmall(7, 11, 3);
    ModStep(15, 11, 3);
  }

  // x^3 + x + 1 has no factors.
  lemma {:induction false} Irreducible11()
    ensures Irreducible(11)
  {
    hide PMul;
    forall d: nat | Divides(d, 11) ensures d == 1 || d == 11 {
      var q: nat :| PMul(q, d) == 11;
      Factor(q, d);
    }
  }

  lemma {:induction false} Factor(q: nat, d: nat)
    requires PMul(q, d) == 11
    ensures d == 1 || d == 11
  {
    hide *;
    if d % 2 == 0 {
      PMulEven(q, d);
    } else if d > 1 {
      DivisorRemainder(q, d);
      Remainders();
      if d >= 8 { LongDivisor(d); }
    }
  }

  lemma {:induction false} PMulEven(q: nat, d: nat)
    requires d % 2 == 0
    ensures PMul(q, d) % 2 == 0
  {
    XorZero(2 * PMul(q, d / 2));
  }

  lemma {:induction false} DivisorRemainder(q: nat, d: nat)
    requires d > 1
    ensures BitLen(d) >= 2 && Modulus(d, BitLen(d) - 1) && Mod(PMul(q, d), d, BitLen(d) - 1) == 0
    ensures BitLen(3) == 2 && BitLen(5) == 3 && BitLen(7) == 3
  {
    Moduli();
    assert BitLen(d) == 1 + (1 + BitLen(d / 2 / 2)) by { assert d / 2 > 0; }
    PMulComm(q, d);
    ModMultiple(q, d, BitLen(d) - 1);
  }

  // A divisor with at least the length of 11 is 11.
  lemma {:induction false} LongDivisor(d: nat)
    requires d >= 8 && BitLen(d) >= 2 && Mod(11, d, BitLen(d) - 1) == 0 && Modulus(d, BitLen(d) - 1)
    ensures d == 11
  {
    hide Mod;
    hide Xor;
    hide Bit;
    Moduli();
    BitLenBound(d, 3);
    var m := BitLen(d) - 1;
    if m > 3 {
      PowMono(3, m);
      PowUp(m);
      ModSmall(11, d, m);
    } else {
      ModSmall(5, d, 3);
      ModStep(11, d, 3);
      Bits8();
      XorIsZero(11, d);
    }
  }

  lemma {:induction false} PowUp(m: nat)
    requires m > 3
    ensures Pow2(m) >= 16
  {
    if m > 4 { PowMono(4, m); }
    Moduli();
    assert Pow2(4) == 2 * Pow2(3);
  }

  // ---- the curve and the key

  lemma {:induction false} BaseEquation()
    ensures GF8.Law().Equation(3, 1)
  {
    hide Mod;
    hide Xor;
    hide PMul;
    Law8();
    Moduli();
    Products();
    Sums();
    Remainders();
    ModSmall(1, 11, 3);
    ModSmall(3, 11, 3);
    ModSmall(5, 11, 3);
  }

  // Nothing about the curve is left as a hypothesis.
  lemma {:induction false} GF8Valid()
    ensures GF8.Valid()
  {
    hide Curve.Equation;
    Law8();
    Moduli();
    Irreducible11();
    BaseEquation();
  }

  // The key (11, 57) is accepted, is no point, and only the scalars 0 and 1
  // come to an end on it.
  lemma {:induction false} AcceptedEndless(k: nat)
    requires k > 1
    ensures GF8.Valid()
    ensures Accepts(GF8.Law(), GF8.Room(), Point(11, 57)) && !GF8.Law().Member(Point(11, 57))
    ensures RawMul(GF8.Law(), GF8.Room(), k, Point(11, 57)) == Endless
  {
    hide RawMul;
    hide Accepts;
    hide Curve.Equation;
    hide Irreducible;
    hide Low;
    hide Shr;
    hide Xor;
    hide PMul;
    GF8Valid();
    Law8();
    Moduli();
    Products();
    Sums();
    WideParts(1, 7, 3);
    Shift3();
    BaseEquation();
    XorSelf(7);
    XorComm(6, 1);
    LowBound(0, 29);
    BitLenBound(0, 29);
    ModulusKey(GF8.Law(), GF8.Room(), k, 57);
  }

  lemma {:induction false} Shift3()
    ensures Wide(1, 7, 3) == 57
  {
    assert Shl(7, 1) == 2 * Shl(7, 0);
    assert Shl(7, 2) == 2 * Shl(7, 1);
    assert Shl(7, 3) == 2 * Shl(7, 2);
  }

  // ---- a curve over GF(4) on which all laws are proved

  // y^2 + xy = x^3 + x^2 + x modulo x^2 + x + 1.
  const GF4 := Curve(7, 2, 2)

  // Its points, in the order of the multiples of (x, 0).
  function Nth(i: nat): (p: Point)
    requires i < 4
  {
    if i == 0 then Zero else if i == 1 then Point(2, 0) else if i == 2 then Point(0, 3) else Point(2, 2)
  }

  lemma {:induction false} Sum4(a: nat, b: nat)
    requires a < 4 && b < 4
    ensures Xor(a, b) == (a + b) % 2 + 2 * ((a / 2 + b / 2) % 2)
  {
    hide Xor;
    XorZero(0);
    XorUnfold(a / 2, b / 2, 0, 0, (a / 2 + b / 2) % 2);
    XorUnfold(a, b, a / 2, b / 2, (a + b) % 2);
  }

  lemma {:induction false} Times1(a: nat)
    requires a < 4
    ensures GF4.M(a, 0) == 0 && GF4.M(a, 1) == a
  {
    hide Mod;
    hide Xor;
    Moduli();
    PMulOne(a);
    ModSmall(a, 7, 2);
    ModSmall(0, 7, 2);
  }

  lemma {:induction false} Reduced4(v: nat)
    requires v < 8
    ensures Mod(v, 7, 2) == if v < 4 then v else 7 - v
  {
    hide Xor;
    hide Mod;
    hide Bit;
    Moduli();
    if v < 4 {
      ModSmall(v, 7, 2);
    } else {
      ModSmall(v / 2, 7, 2);
      ModStep(v, 7, 2);
      SecondBit(v);
      XorUnfold(v, 7, v / 2, 3, (v + 7) % 2);
      Sum4(v / 2, 3);
    }
  }

  lemma {:induction false} SecondBit(v: nat)
    requires 4 <= v < 8
    ensures Bit(v, 2)
  {
    assert v / 2 / 2 == 1;
    assert Bit(v / 2 / 2, 0) && Bit(v / 2, 1);
  }

  lemma {:induction false} Times23(a: nat)
    requires a < 4
    ensures GF4.M(a, 2) == (if a < 2 then 2 * a else 7 - 2 * a)
    ensures GF4.M(a, 3) == [0, 3, 1, 2][a]
  {
    hide Xor;
    hide PMul;
    hide Mod;
    PMulOne(a);
    PMulOdd(a, 1, 0);
    XorZero(2 * a);
    Reduced4(2 * a);
    PMulOdd(a, 1, 1);
    XorUnfold(a, 2 * a, a / 2, a, a % 2);
    Sum4(a / 2, a);
    Reduced4(Xor(a, 2 * a));
  }

  // The elements 1, 2 and 3 are the powers of 2.
  lemma {:induction false} Product4(a: nat, b: nat)
    requires a < 4 && b < 4
    ensures GF4.M(a, b) == if a == 0 || b == 0 then 0 else 1 + (a + b - 2) % 3
  {
    hide Mul;
    Times1(a);
    hide Curve.M;
    Times23(a);
  }

  lemma {:induction false} Irreducible7()
    ensures Irreducible(7)
  {
    hide PMul;
    forall d: nat | Divides(d, 7) ensures d == 1 || d == 7 {
      var q: nat :| PMul(q, d) == 7;
      Factor7(q, d);
    }
  }

  lemma {:induction false} Factor7(q: nat, d: nat)
    requires PMul(q, d) == 7
    ensures d == 1 || d == 7
  {
    hide *;
    if d % 2 == 0 {
      PMulEven(q, d);
    } else if d > 1 {
      DivisorRemainder(q, d);
      Remainders7(d);
    }
  }

  lemma {:induction false} Remainders7(d: nat)
    requires d > 1 && d % 2 == 1 && BitLen(d) >= 2 && Modulus(d, BitLen(d) - 1)
    requires Mod(7, d, BitLen(d) - 1) == 0
    ensures d == 7
  {
    hide Mod;
    hide Xor;
    hide Bit;
    Moduli();
    Bits8();
    Sum4(3, 3);
    Sum4(3, 2);
    if d == 3 {
      ModSmall(0, 3, 1);
      ModSmall(1, 3, 1);
      ModStep(3, 3, 1);
      ModStep(7, 3, 1);
    } else if d == 5 {
      XorUnfold(7, 5, 3, 2, 0);
      ModSmall(3, 5, 2);
      ModStep(7, 5, 2);
    } else if d > 7 {
      BitLenBound(d, 3);
      if BitLen(d) > 4 { PowMono(3, BitLen(d) - 1); }
      ModSmall(7, d, BitLen(d) - 1);
    }
  }

  lemma {:induction false} GF4Valid()
    ensures GF4.Valid()
  {
    Moduli();
    Irreducible7();
  }

  lemma {:induction false} Equation4(x: nat, y: nat)
    requires x < 4 && y < 4
    ensures GF4.Equation(x, y) <==> Point(x, y) == Nth(1) || Point(x, y) == Nth(2) || Point(x, y) == Nth(3)
  {
    hide Xor;
    hide Curve.M;
    Left4(x, y);
    Right4(x);
  }

  // y^2 + xy
  lemma {:induction false} Left4(x: nat, y: nat)
    requires x < 4 && y < 4
    ensures Xor(GF4.M(y, y), GF4.M(x, y)) == (if x == 0 then [0, 1, 3, 2] else if x == 1 then [0, 0, 1, 1]
                                              else if x == 2 then [0, 3, 0, 3] else [0, 2, 2, 0])[y]
  {
    hide Xor;
    hide Curve.M;
    Product4(y, y);
    Product4(x, y);
    Sum4(GF4.M(y, y), GF4.M(x, y));
  }

  // x^3 + x^2 + b
  lemma {:induction false} Right4(x: nat)
    requires x < 4
    ensures Xor(Xor(GF4.M(x, GF4.M(x, x)), GF4.M(x, x)), 2) == [2, 2, 0, 1][x]
  {
    hide Xor;
    hide Curve.M;
    Product4(x, x);
    var xx := GF4.M(x, x);
    Product4(x, xx);
    Sum4(GF4.M(x, xx), xx);
    Sum4(Xor(GF4.M(x, xx), xx), 2);
  }

  lemma {:induction false} Points4(p: Point) returns (i: nat)
    requires GF4.Member(p)
    ensures i < 4 && p == Nth(i)
  {
    hide Curve.Equation;
    Moduli();
    i := if p == Zero then 0 else if p == Nth(1) then 1 else if p == Nth(2) then 2 else 3;
    if p != Zero {
      Equation4(p.x, p.y);
    }
  }

  lemma {:induction false} NthMember(i: nat)
    requires i < 4
    ensures GF4.Member(Nth(i))
  {
    hide Curve.Equation;
    Moduli();
    var p := Nth(i);
    if i > 0 {
      Equation4(p.x, p.y);
    }
  }

  // Doubling (x, 0) and (x, x) leads to the point with x = 0.
  lemma {:induction false} Doubles4(i: nat)
    requires i == 1 || i == 3
    ensures GF4.Valid() && GF4.Double(Nth(i)) == Nth(2)
  {
    hide Curve.Double;
    hide Mul;
    hide Xor;
    hide Curve.Equation;
    hide Irreducible;
    GF4Valid();
    Moduli();
    NthMember(i);
    var y := Nth(i).y;
    TangentLaw(GF4, Nth(i), Nth(2));
    Product4(2, 2);
    Sum4(3, y);
    var u := Xor(3, y);
    Sum4(0, 3);
    Sum4(3, y);
    Product4(2, u);
    Sum4(0, 2);
    Product4(u, 2);
    Sum4(0, 1);
    Product4(3, 1);
    Product4(u, u);
    Sum4(GF4.M(u, u), GF4.M(2, u));
  }

  // The line through that point and one of the others meets the third.
  lemma {:induction false} Chords4(i: nat)
    requires i == 1 || i == 3
    ensures GF4.Valid() && GF4.Add(Nth(i), Nth(2)) == Nth(4 - i)
  {
    hide Curve.Add;
    hide Mul;
    hide Xor;
    hide Curve.Equation;
    hide Irreducible;
    GF4Valid();
    Moduli();
    NthMember(i);
    NthMember(2);
    var y, z := Nth(i).y, Nth(4 - i).y;
    ChordLaw(GF4, Nth(i), Nth(2), Nth(4 - i));
    Sum4(2, 0);
    Sum4(y, 3);
    var t := Xor(y, 3);
    Sum4(2, z);
    Sum4(Xor(2, z), y);
    Sum4(2, 2);
    Product4(2, 0);
    Product4(t, 0);
    Product4(2, 2);
    Sum4(2, 1);
    Sum4(2, 3);
    Product4(3, 1);
    Product4(t, t);
    Product4(2, t);
    Sum4(GF4.M(t, t), GF4.M(2, t));
  }

  // The points form a cyclic group.
  lemma {:induction false} Cyclic4(i: nat, j: nat)
    requires i < 4 && j < 4
    ensures GF4.Valid() && GF4.Member(Nth(i)) && GF4.Member(Nth(j))
    ensures GF4.Add(Nth(i), Nth(j)) == Nth((i + j) % 4)
  {
    hide *;
    GF4Valid();
    NthMember(i);
    NthMember(j);
    if i == 0 {
      AddNone4(j);
    } else if j == 0 {
      AddNone4(i);
    } else if i + j == 4 {
      Opposites4(i, j);
      NthMember(0);
    } else if i == j {
      Doubles4(i);
      DoubleIsAdd(GF4, Nth(i));
    } else if i == 2 {
      AddComm(GF4, Nth(i), Nth(j));
      Chords4(j);
    } else {
      Chords4(i);
    }
  }

  lemma {:induction false} AddNone4(i: nat)
    requires i < 4
    ensures GF4.Valid() && GF4.Elem(0) && GF4.Member(Nth(i)) && GF4.Add(Nth(i), Nth(0)) == GF4.Add(Nth(0), Nth(i)) == Nth(i)
  {
    hide Curve.Add;
    hide Irreducible;
    GF4Valid();
    NthMember(i);
    AddZero(GF4, Nth(i));
  }

  lemma {:induction false} Opposites4(i: nat, j: nat)
    requires 0 < i < 4 && i + j == 4
    ensures GF4.Valid() && GF4.Member(Nth(i)) && GF4.Add(Nth(i), Nth(j)) == Nth(0)
  {
    hide Mul;
    hide Curve.Equation;
    hide Irreducible;
    GF4Valid();
    NthMember(i);
  }

  // So the law that the statements about multiples assume holds here.
  lemma {:induction false} GF4Associative()
    ensures GF4.Valid() && Associative(GF4)
  {
    GF4Valid();
    forall p: Point, q: Point, r: Point | GF4.Member(p) && GF4.Member(q) && GF4.Member(r)
      ensures GF4.Member(GF4.Add(p, q)) && GF4.Member(GF4.Add(q, r))
      ensures GF4.Add(GF4.Add(p, q), r) == GF4.Add(p, GF4.Add(q, r))
    {
      AssociativeAt4(p, q, r);
    }
  }

  lemma {:induction false} AssociativeAt4(p: Point, q: Point, r: Point)
    requires GF4.Member(p) && GF4.Member(q) && GF4.Member(r)
    ensures GF4.Valid() && GF4.Member(GF4.Add(p, q)) && GF4.Member(GF4.Add(q, r))
    ensures GF4.Add(GF4.Add(p, q), r) == GF4.Add(p, GF4.Add(q, r))
  {
    hide *;
    GF4Valid();
    var i := Points4(p);
    var j := Points4(q);
    var k := Points4(r);
    Cyclic4(i, j);
    Cyclic4(j, k);
    NthMember((i + j) % 4);
    NthMember((j + k) % 4);
    Cyclic4((i + j) % 4, k);
    Cyclic4(i, (j + k) % 4);
    Regroup4(i, j, k);
  }

  lemma {:induction false} Regroup4(i: nat, j: nat, k: nat)
    ensures ((i + j) % 4 + k) % 4 == (i + (j + k) % 4) % 4
  {
    ModPlus4(i + j, k);
    ModPlus4(j + k, i);
  }

  // Double-and-add therefore counts round the group.
  lemma {:induction false} Multiples4(k: nat, i: nat)
    requires i < 4
    ensures GF4.Valid() && GF4.Member(Nth(i)) && DoubleAdd(GF4, k, Nth(i)) == Nth(k * i % 4)
  {
    hide *;
    GF4Associative();
    NthMember(i);
    DoubleAddIsTimes(GF4, k, Nth(i));
    Times4(k, i);
  }

  lemma {:induction false} Times4(k: nat, i: nat)
    requires i < 4
    ensures GF4.Valid() && GF4.Member(Nth(i)) && Times(GF4, k, Nth(i)) == Nth(k * i % 4)
  {
    hide Curve.Add;
    hide Curve.Member;
    hide Irreducible;
    GF4Valid();
    NthMember(i);
    if k > 0 {
      Times4(k - 1, i);
      Cyclic4((k - 1) * i % 4, i);
      assert (k - 1) * i + i == k * i;
      ModPlus4((k - 1) * i, i);
    } else {
      assert 0 * i == 0;
    }
  }

  lemma {:induction false} ModPlus4(a: nat, b: nat)
    ensures (a % 4 + b) % 4 == (a + b) % 4
  {
  }
}
