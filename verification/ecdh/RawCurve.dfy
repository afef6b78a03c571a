// The point routines of misc/tinyECDH/ecdh.c on coordinates that are not
// reduced, such as a public key received from the network: which pairs pass
// gf2point_on_curve, and when the point arithmetic on them comes to an end.
module RawCurve {
  import opened Bits
  import opened Field
  import opened CurveLaw
  import opened WordVector
  import opened RawField

  // ---- the check of a public key

  // What the coordinates' margins contribute to the difference of the two
  // sides of the equation.
  function Margin(x: nat, y: nat, m: nat): nat {
    var l, k := Low(x, m), Low(y, m);
    Xor(PMul(Shr(x, m), Xor(Xor(l, PMul(l, l)), k)), PMul(Shr(y, m), k))
  }

  // The pairs of vectors with w digits of margin that the check accepts.
  predicate Accepts(c: Curve, w: nat, p: Point) {
    || p == Zero
    || (c.Equation(Low(p.x, c.m), Low(p.y, c.m)) && Low(Margin(p.x, p.y, c.m), w) == 0)
  }

  // For reduced pairs these are the points of the curve.
  lemma {:induction false} AcceptsReduced(c: Curve, w: nat, p: Point)
    requires c.Elem(p.x) && c.Elem(p.y)
    ensures Accepts(c, w, p) <==> c.Member(p)
  {
    hide Curve.Equation;
    hide Low;
    hide Shr;
    ReducedParts(p.x, c.m);
    ReducedParts(p.y, c.m);
    PMulZero(Xor(Xor(p.x, PMul(p.x, p.x)), p.y));
    PMulZero(p.y);
    XorZero(0);
    LowBound(0, w);
    BitLenBound(0, w);
  }

  lemma {:induction false} AcceptsZero(c: Curve, w: nat)
    ensures Accepts(c, w, Zero)
  {
  }

  // Setting the top digit of both coordinates of a point on the curve gives a
  // pair that is accepted too and is not reduced.
  lemma {:induction false} AcceptsTwin(c: Curve, w: nat, p: Point)
    requires c.Member(p) && p != Zero && w >= 1
    ensures var q := Point(p.x + Pow2(c.m + w - 1), p.y + Pow2(c.m + w - 1));
            q.x < Pow2(c.m + w) && q.y < Pow2(c.m + w) && Accepts(c, w, q) && !c.Member(q)
  {
    hide Curve.Equation;
    hide Low;
    hide Shr;
    hide Xor;
    hide PMul;
    var t, m := Pow2(w - 1), c.m;
    ShlShl(1, w - 1, m);
    assert w - 1 + m == m + w - 1;
    TopRoom(p.x, m, w);
    TopRoom(p.y, m, w);
    WideParts(p.x, t, m);
    WideParts(p.y, t, m);
    var k := Xor(Xor(p.x, PMul(p.x, p.x)), p.y);
    PMulAddRight(t, k, p.y);
    XorAssoc(Xor(p.x, PMul(p.x, p.x)), p.y, p.y);
    XorSelf(p.y);
    XorZero(Xor(p.x, PMul(p.x, p.x)));
    SquareParity(p.x);
    TopMultiple(Xor(p.x, PMul(p.x, p.x)), w);
  }

  lemma {:induction false} TopRoom(a: nat, m: nat, w: nat)
    requires a < Pow2(m) && w >= 1
    ensures Pow2(m) <= a + Pow2(m + w - 1) < Pow2(m + w)
  {
    if w == 1 {
      assert m + w - 1 == m;
    } else {
      PowMono(m, m + w - 1);
    }
  }

  // A square has the lowest digit of its root.
  lemma {:induction false} SquareParity(a: nat)
    ensures Xor(a, PMul(a, a)) % 2 == 0
  {
    hide PMul;
    XorHalves(a, PMul(a, a));
    if a > 0 {
      PMulUnfold(a);
      XorHalves(if a % 2 == 1 then a else 0, 2 * PMul(a, a / 2));
    } else {
      PMulZero(0);
    }
  }

  lemma {:induction false} PMulUnfold(a: nat)
    requires a > 0
    ensures PMul(a, a) == Xor(if a % 2 == 1 then a else 0, 2 * PMul(a, a / 2))
  {
  }

  lemma {:induction false} TopMultiple(a: nat, w: nat)
    requires w >= 1 && a % 2 == 0
    ensures Low(PMul(Pow2(w - 1), a), w) == 0
  {
    PMulShl(1, a, w - 1);
    PMulBitLeft(1, a);
    LowShl(a, w - 1, 1);
    assert w - 1 + 1 == w && Low(a, 1) == 0;
    BitLenShl(0, w - 1);
  }

  // The sum of two of the code's vectors.
  lemma {:induction false} SumParts(x: nat, y: nat, m: nat)
    ensures Low(Xor(x, y), m) == Xor(Low(x, m), Low(y, m)) && Shr(Xor(x, y), m) == Xor(Shr(x, m), Shr(y, m))
  {
    hide Low;
    hide Shr;
    hide Xor;
    Parts(x, m);
    Parts(y, m);
    WideXor(Low(x, m), Shr(x, m), Low(y, m), Shr(y, m), m);
    WideParts(Xor(Low(x, m), Low(y, m)), Xor(Shr(x, m), Shr(y, m)), m);
  }

  lemma {:induction false} SameParts(x: nat, y: nat, m: nat)
    ensures x == y <==> Low(x, m) == Low(y, m) && Shr(x, m) == Shr(y, m)
  {
    Parts(x, m);
    Parts(y, m);
  }

  // The two vectors that the check compares.
  function CheckLeft(c: Curve, w: nat, p: Point): nat {
    var a := Product(p.x, p.x, c.f, c.m, w);
    Xor(Xor(Xor(a, Product(a, p.x, c.f, c.m, w)), c.b), Product(p.y, p.y, c.f, c.m, w))
  }

  function CheckRight(c: Curve, w: nat, p: Point): nat {
    Product(p.x, p.y, c.f, c.m, w)
  }

  // They are equal exactly for the accepted pairs.
  lemma {:induction false} CheckAccepts(c: Curve, w: nat, p: Point)
    requires c.Valid() && p != Zero
    ensures CheckLeft(c, w, p) == CheckRight(c, w, p) <==> Accepts(c, w, p)
  {
    hide Low;
    hide Shr;
    hide Xor;
    hide PMul;
    hide Mul;
    hide Product;
    hide Irreducible;
    CheckLow(c, w, p);
    CheckHigh(c, w, p);
    SameParts(CheckLeft(c, w, p), CheckRight(c, w, p), c.m);
  }

  lemma {:induction false} CheckLow(c: Curve, w: nat, p: Point)
    requires c.Valid()
    ensures Low(CheckLeft(c, w, p), c.m) == Low(CheckRight(c, w, p), c.m)
            <==> c.Equation(Low(p.x, c.m), Low(p.y, c.m))
  {
    hide Low;
    hide Shr;
    hide Xor;
    hide PMul;
    hide Mul;
    hide Product;
    hide Irreducible;
    var f, m := c.f, c.m;
    var x, y := Low(p.x, m), Low(p.y, m);
    var a := Product(p.x, p.x, f, m, w);
    var d := Product(a, p.x, f, m, w);
    ProductParts(p.x, p.x, f, m, w);
    ProductParts(a, p.x, f, m, w);
    ProductParts(p.y, p.y, f, m, w);
    ProductParts(p.x, p.y, f, m, w);
    SumParts(a, d, m);
    SumParts(Xor(a, d), c.b, m);
    SumParts(Xor(Xor(a, d), c.b), Product(p.y, p.y, f, m, w), m);
    ReducedParts(c.b, m);
    MulComm(c.M(x, x), x, f, m);
    EquationForms(c.M(x, x), c.M(x, c.M(x, x)), c.b, c.M(y, y), c.M(x, y));
  }

  lemma {:induction false} EquationForms(xx: nat, xxx: nat, b: nat, yy: nat, xy: nat)
    ensures Xor(Xor(Xor(xx, xxx), b), yy) == xy <==> Xor(yy, xy) == Xor(Xor(xxx, xx), b)
  {
    XorComm(xx, xxx);
    var r := Xor(Xor(xxx, xx), b);
    XorComm(yy, xy);
    XorAssoc(r, yy, yy);
    XorSelf(yy);
    XorZero(r);
    XorAssoc(xy, yy, yy);
    XorZero(xy);
  }

  lemma {:induction false} CheckHigh(c: Curve, w: nat, p: Point)
    requires c.Valid()
    ensures Shr(CheckLeft(c, w, p), c.m) == Shr(CheckRight(c, w, p), c.m) <==> Low(Margin(p.x, p.y, c.m), w) == 0
  {
    hide Low;
    hide Shr;
    hide Xor;
    hide PMul;
    hide Mul;
    hide Product;
    hide Irreducible;
    var f, m := c.f, c.m;
    var x, y, h, g := Low(p.x, m), Low(p.y, m), Shr(p.x, m), Shr(p.y, m);
    var a := Product(p.x, p.x, f, m, w);
    var d := Product(a, p.x, f, m, w);
    ProductParts(p.x, p.x, f, m, w);
    ProductParts(a, p.x, f, m, w);
    ProductParts(p.y, p.y, f, m, w);
    ProductParts(p.x, p.y, f, m, w);
    SumParts(a, d, m);
    SumParts(Xor(a, d), c.b, m);
    SumParts(Xor(Xor(a, d), c.b), Product(p.y, p.y, f, m, w), m);
    ReducedParts(c.b, m);
    LowPMul(PMul(h, x), x, w);
    PMulAssoc(h, x, x);
    MarginSum(h, g, x, y, w);
    MarginBits(Low(PMul(h, x), w), Low(PMul(h, PMul(x, x)), w), Low(PMul(h, y), w), Low(PMul(g, y), w));
  }

  lemma {:induction false} MarginSum(h: nat, g: nat, x: nat, y: nat, w: nat)
    ensures Low(Xor(PMul(h, Xor(Xor(x, PMul(x, x)), y)), PMul(g, y)), w)
            == Xor(Xor(Xor(Low(PMul(h, x), w), Low(PMul(h, PMul(x, x)), w)), Low(PMul(h, y), w)), Low(PMul(g, y), w))
  {
    hide Low;
    hide Xor;
    hide PMul;
    var xx := PMul(x, x);
    PMulAddRight(h, Xor(x, xx), y);
    PMulAddRight(h, x, xx);
    LowXor(PMul(h, Xor(Xor(x, xx), y)), PMul(g, y), w);
    LowXor(PMul(h, Xor(x, xx)), PMul(h, y), w);
    LowXor(PMul(h, x), PMul(h, xx), w);
  }

  lemma {:induction false} MarginBits(a: nat, d: nat, e: nat, g: nat)
    ensures Xor(Xor(Xor(a, d), 0), g) == e <==> Xor(Xor(Xor(a, d), e), g) == 0
  {
    hide Xor;
    var s := Xor(a, d);
    XorZero(s);
    XorAssoc(s, e, g);
    XorComm(e, g);
    XorAssoc(s, g, e);
    XorIsZero(Xor(s, g), e);
  }

  // ---- point arithmetic on vectors

  // The outcome of a routine that inverts; Endless if an inversion is.
  datatype Outcome = Finished(p: Point) | Endless

  ghost function RawDouble(c: Curve, w: nat, p: Point): Outcome
    requires c.Valid()
  {
    ModSmall(p.x, c.f, c.m);
    if p.x == 0 then Finished(Zero)
    else if Mod(p.x, c.f, c.m) == 0 then Endless
    else
      var l := Xor(Product(Inv(Mod(p.x, c.f, c.m), c.f, c.m), p.y, c.f, c.m, w), p.x);
      var x3 := Xor(Product(l, l, c.f, c.m, w), Xor(l, 1));
      Finished(Point(x3, Xor(Product(p.x, p.x, c.f, c.m, w), Product(Xor(l, 1), x3, c.f, c.m, w))))
  }

  ghost function RawAdd(c: Curve, w: nat, p: Point, q: Point): Outcome
    requires c.Valid()
  {
    if q == Zero then Finished(p)
    else if p == Zero then Finished(q)
    else if p.x == q.x then if p.y == q.y then RawDouble(c, w, p) else Finished(Zero)
    else
      var s := Xor(p.x, q.x);
      ModSmall(s, c.f, c.m);
      if Mod(s, c.f, c.m) == 0 then Endless
      else
        var l := Product(Inv(Mod(s, c.f, c.m), c.f, c.m), Xor(p.y, q.y), c.f, c.m, w);
        var x3 := Xor(Xor(Xor(Product(l, l, c.f, c.m, w), l), s), 1);
        Finished(Point(x3, Xor(p.y, Xor(Product(Xor(p.x, x3), l, c.f, c.m, w), x3))))
  }

  // Double-and-add from the most significant bit.
  ghost function RawMul(c: Curve, w: nat, k: nat, p: Point): Outcome
    requires c.Valid()
  {
    if k == 0 then Finished(Zero) else RawStep(c, w, RawMul(c, w, k / 2, p), k % 2 == 1, p)
  }

  ghost function RawStep(c: Curve, w: nat, t: Outcome, odd: bool, p: Point): Outcome
    requires c.Valid()
  {
    if t == Endless then Endless
    else
      var d := RawDouble(c, w, t.p);
      if d.Finished? && odd then RawAdd(c, w, d.p, p) else d
  }

  // On reduced coordinates every inversion ends and the results are those of
  // the curve law.
  lemma {:induction false} RawDoubleReduced(c: Curve, w: nat, p: Point)
    requires c.Valid() && c.Elem(p.x) && c.Elem(p.y)
    ensures RawDouble(c, w, p) == Finished(c.Double(p))
  {
    hide Product;
    hide Mul;
    hide Mod;
    hide Inv;
    hide Irreducible;
    hide Xor;
    hide Shl;
    if p.x != 0 {
      var f, m := c.f, c.m;
      ModSmall(p.x, f, m);
      var i := Inv(p.x, f, m);
      ProductReduced(i, p.y, f, m, w);
      var l := Xor(c.M(i, p.y), p.x);
      XorLess(c.M(i, p.y), p.x, m);
      ProductReduced(l, l, f, m, w);
      BitLenBound(1, m);
      XorLess(l, 1, m);
      var x3 := Xor(c.M(l, l), Xor(l, 1));
      XorLess(c.M(l, l), Xor(l, 1), m);
      ProductReduced(p.x, p.x, f, m, w);
      ProductReduced(Xor(l, 1), x3, f, m, w);
    }
  }

  lemma {:induction false} RawAddReduced(c: Curve, w: nat, p: Point, q: Point)
    requires c.Valid() && c.Elem(p.x) && c.Elem(p.y) && c.Elem(q.x) && c.Elem(q.y)
    ensures RawAdd(c, w, p, q) == Finished(c.Add(p, q))
  {
    hide Product;
    hide Mul;
    hide Mod;
    hide Inv;
    hide Irreducible;
    hide Xor;
    hide Shl;
    if p.x == q.x {
      RawDoubleReduced(c, w, p);
    } else {
      var f, m, s, t := c.f, c.m, Xor(p.x, q.x), Xor(p.y, q.y);
      XorLess(p.x, q.x, m);
      XorIsZero(p.x, q.x);
      XorLess(p.y, q.y, m);
      ModSmall(s, f, m);
      var i := Inv(s, f, m);
      ProductReduced(i, t, f, m, w);
      var l := c.M(i, t);
      ProductReduced(l, l, f, m, w);
      SlopeReduced(c, p, s, l);
      var x3 := Xor(Xor(Xor(c.M(l, l), l), s), 1);
      XorLess(p.x, x3, m);
      ProductReduced(Xor(p.x, x3), l, f, m, w);
    }
  }

  lemma {:induction false} RawMulMember(c: Curve, w: nat, k: nat, p: Point)
    requires c.Valid() && c.Member(p)
    ensures RawMul(c, w, k, p) == Finished(DoubleAdd(c, k, p))
  {
    hide RawDouble;
    hide RawAdd;
    hide Curve.Add;
    hide Curve.Double;
    if k > 0 {
      RawMulMember(c, w, k / 2, p);
      var h := DoubleAdd(c, k / 2, p);
      DoubleMember(c, h);
      RawDoubleReduced(c, w, h);
      RawAddReduced(c, w, c.Double(h), p);
    }
  }

  // A pair whose x-coordinate is a non-zero multiple of the polynomial: every
  // scalar above 1 leads to an inversion that does not end.
  lemma {:induction false} RawMulEndless(c: Curve, w: nat, k: nat, p: Point)
    requires c.Valid() && p.x != 0 && Mod(p.x, c.f, c.m) == 0
    ensures RawMul(c, w, k, p) == if k == 0 then Finished(Zero) else if k == 1 then Finished(p) else Endless
    decreases k
  {
    hide Product;
    hide Mod;
    hide Inv;
    hide Xor;
    if k > 0 {
      RawMulEndless(c, w, k / 2, p);
    }
  }

  // The pairs whose x-coordinate is the polynomial itself: which of them the
  // check lets pass, and that no scalar above 1 comes to an end on them.
  lemma {:induction false} ModulusKey(c: Curve, w: nat, k: nat, y: nat)
    requires c.Valid() && k > 1
    ensures Pow2(c.m) <= c.f
    ensures RawMul(c, w, k, Point(c.f, y)) == Endless
    ensures var l, t := c.f - Pow2(c.m), Low(y, c.m);
            Accepts(c, w, Point(c.f, y)) <==>
              c.Equation(l, t) && Low(Xor(Xor(Xor(l, PMul(l, l)), t), PMul(Shr(y, c.m), t)), w) == 0
  {
    hide RawMul;
    hide Low;
    hide Shr;
    hide Xor;
    hide Irreducible;
    hide Curve.Equation;
    var f, m := c.f, c.m;
    ModOfModulus(f, m);
    RawMulEndless(c, w, k, Point(f, y));
    BitLenBound(f, m);
    BitLenBound(f, m + 1);
    var l, t := f - Pow2(m), Low(y, m);
    WideParts(l, 1, m);
    PMulBitLeft(1, Xor(Xor(l, PMul(l, l)), t));
  }
}
