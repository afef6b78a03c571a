// The curve y^2 + xy = x^3 + x^2 + b over GF(2^m) (coeff_a = 1) and the
// point formulas of misc/tinyECDH/ecdh.c. Curve law: section 2.2.2 of SEC 1.
module CurveLaw {
  import opened Bits
  import opened Field

  // A pair of coordinates; (0, 0) stands for the point at infinity.
  datatype Point = Point(x: nat, y: nat)

  const Zero := Point(0, 0)

  datatype Curve = Curve(f: nat, m: nat, b: nat) {

    // An irreducible reduction polynomial and a non-zero reduced coefficient.
    ghost predicate Valid() {
      Modulus(f, m) && Irreducible(f) && 0 < b < Pow2(m)
    }

    predicate Elem(a: nat) {
      a < Pow2(m)
    }

    function M(a: nat, b: nat): nat {
      Mul(a, b, f, m)
    }

    predicate Equation(x: nat, y: nat) {
      Xor(M(y, y), M(x, y)) == Xor(Xor(M(x, M(x, x)), M(x, x)), b)
    }

    // The points the protocol works with.
    predicate Member(p: Point) {
      Elem(p.x) && Elem(p.y) && (p == Zero || Equation(p.x, p.y))
    }

    ghost function Double(p: Point): Point
      requires Valid() && Elem(p.x)
    {
      if p.x == 0 then Zero
      else
        var l := Xor(M(Inv(p.x, f, m), p.y), p.x);
        var x3 := Xor(M(l, l), Xor(l, 1));
        Point(x3, Xor(M(p.x, p.x), M(Xor(l, 1), x3)))
    }

    ghost function Add(p: Point, q: Point): Point
      requires Valid() && Elem(p.x) && Elem(q.x)
    {
      if q == Zero then p
      else if p == Zero then q
      else if p.x == q.x then if p.y == q.y then Double(p) else Zero
      else
        XorLess(p.x, q.x, m);
        XorIsZero(p.x, q.x);
        var s := Xor(p.x, q.x);
        var l := M(Inv(s, f, m), Xor(p.y, q.y));
        var x3 := Xor(Xor(Xor(M(l, l), l), s), 1);
        Point(x3, Xor(p.y, Xor(M(Xor(p.x, x3), l), x3)))
    }

    // The other point with the same x.
    function Neg(p: Point): Point {
      Point(p.x, Xor(p.x, p.y))
    }
  }

  lemma {:induction false} XorLess(a: nat, b: nat, m: nat)
    requires a < Pow2(m) && b < Pow2(m)
    ensures Xor(a, b) < Pow2(m)
  {
    XorParts(a, 0, b, 0, m);
  }

  // ---- algebra in characteristic two

  lemma {:induction false} Square(c: Curve, a: nat, b: nat)
    requires c.Valid()
    ensures c.M(Xor(a, b), Xor(a, b)) == Xor(c.M(a, a), c.M(b, b))
  {
    MulAdd(Xor(a, b), a, b, c.f, c.m);
    MulAdd(a, a, b, c.f, c.m);
    MulAdd(b, a, b, c.f, c.m);
    MulComm(a, b, c.f, c.m);
    var aa, ab, bb := c.M(a, a), c.M(a, b), c.M(b, b);
    XorBits();
    SameBits(Xor(Xor(aa, ab), Xor(ab, bb)), Xor(aa, bb));
  }

  lemma {:induction false} SquareProduct(c: Curve, a: nat, b: nat)
    requires c.Valid()
    ensures c.M(c.M(a, b), c.M(a, b)) == c.M(c.M(a, a), c.M(b, b))
  {
    var f, m := c.f, c.m;
    MulAssoc(a, b, c.M(a, b), f, m);
    MulComm(b, c.M(a, b), f, m);
    MulAssoc(a, b, b, f, m);
    MulAssoc(a, a, c.M(b, b), f, m);
  }

  lemma {:induction false} Cancel(c: Curve, s: nat, a: nat, b: nat)
    requires c.Valid() && 0 < s && c.Elem(s) && c.Elem(a) && c.Elem(b)
    requires c.M(s, a) == c.M(s, b)
    ensures a == b
  {
    var f, m := c.f, c.m;
    var i := Inv(s, f, m);
    MulAssoc(i, s, a, f, m);
    MulAssoc(i, s, b, f, m);
    MulOne(a, f, m);
    MulOne(b, f, m);
  }

  // Multiplying the quotient back.
  lemma {:induction false} Quotient(c: Curve, s: nat, t: nat)
    requires c.Valid() && 0 < s && c.Elem(s) && c.Elem(t)
    ensures c.M(s, c.M(Inv(s, c.f, c.m), t)) == t
  {
    var f, m := c.f, c.m;
    MulAssoc(s, Inv(s, f, m), t, f, m);
    MulComm(s, Inv(s, f, m), f, m);
    MulOne(t, f, m);
  }

  // ---- doubling

  lemma {:induction false} DoubleReduced(c: Curve, p: Point)
    requires c.Valid() && c.Elem(p.x) && c.Elem(p.y)
    ensures c.Elem(c.Double(p).x) && c.Elem(c.Double(p).y)
  {
    BitLenBound(1, c.m);
    BitLenBound(0, c.m);
    if p.x != 0 {
      var l := Xor(c.M(Inv(p.x, c.f, c.m), p.y), p.x);
      MulReduced(Inv(p.x, c.f, c.m), p.y, c.f, c.m);
      XorLess(c.M(Inv(p.x, c.f, c.m), p.y), p.x, c.m);
      XorLess(l, 1, c.m);
      MulReduced(l, l, c.f, c.m);
      var x3 := Xor(c.M(l, l), Xor(l, 1));
      XorLess(c.M(l, l), Xor(l, 1), c.m);
      MulReduced(p.x, p.x, c.f, c.m);
      MulReduced(Xor(l, 1), x3, c.f, c.m);
      XorLess(c.M(p.x, p.x), c.M(Xor(l, 1), x3), c.m);
    }
  }

  // With l = x + y/x the curve equation at (x, y) reads b = x^2 x3 + x^4.
  lemma {:induction false} DoubleSlope(c: Curve, x: nat, y: nat, l: nat, x3: nat)
    requires c.Valid() && c.Elem(x) && c.Elem(y) && c.Equation(x, y)
    requires c.M(x, l) == Xor(y, c.M(x, x))
    requires x3 == Xor(c.M(l, l), Xor(l, 1))
    ensures c.b == Xor(c.M(c.M(x, x), x3), c.M(c.M(x, x), c.M(x, x)))
  {
    var f, m := c.f, c.m;
    var xx, ll, xl := c.M(x, x), c.M(l, l), c.M(x, l);
    XorAssoc(y, xx, xx);
    XorSelf(xx);
    XorZero(y);
    assert y == Xor(xl, xx);
    Square(c, xl, xx);
    SquareProduct(c, x, l);
    MulAdd(x, xl, xx, f, m);
    MulAssoc(x, x, l, f, m);
    MulAdd(xx, ll, Xor(l, 1), f, m);
    MulAdd(xx, l, 1, f, m);
    MulReduced(x, x, f, m);
    MulOne(xx, f, m);
    DoubleSlopeBits(c.M(xx, ll), c.M(xx, xx), c.M(xx, l), c.M(x, xx), xx, c.b);
  }

  lemma {:induction false} DoubleSlopeBits(a: nat, d: nat, e: nat, g: nat, h: nat, b: nat)
    requires Xor(Xor(a, d), Xor(e, g)) == Xor(Xor(g, h), b)
    ensures b == Xor(Xor(a, Xor(e, h)), d)
  {
    XorBits();
    var l, r := b, Xor(Xor(a, Xor(e, h)), d);
    forall k: nat ensures Bit(l, k) <==> Bit(r, k) {
      assert Bit(Xor(Xor(a, d), Xor(e, g)), k) <==> Bit(Xor(Xor(g, h), b), k);
    }
    SameBits(l, r);
  }

  // (x3, x^2 + (l+1) x3) satisfies the equation when b = x^2 x3 + x^4.
  lemma {:induction false} DoubleOnCurve(c: Curve, xx: nat, l: nat, x3: nat)
    requires c.Valid() && c.Elem(x3)
    requires x3 == Xor(c.M(l, l), Xor(l, 1))
    requires c.b == Xor(c.M(xx, x3), c.M(xx, xx))
    ensures c.Equation(x3, Xor(xx, c.M(Xor(l, 1), x3)))
  {
    var f, m := c.f, c.m;
    var k := Xor(l, 1);
    var kx, q := c.M(k, x3), c.M(x3, x3);
    Square(c, xx, kx);
    SquareProduct(c, k, x3);
    MulAdd(x3, xx, kx, f, m);
    MulComm(x3, xx, f, m);
    MulComm(x3, kx, f, m);
    MulAssoc(k, x3, x3, f, m);
    MulAdd(q, c.M(k, k), k, f, m);
    Square(c, l, 1);
    BitLenBound(1, m);
    MulOne(1, f, m);
    assert Xor(c.M(k, k), k) == Xor(x3, 1) by {
      XorBits();
      SameBits(Xor(c.M(k, k), k), Xor(x3, 1));
    }
    MulAdd(q, x3, 1, f, m);
    MulReduced(x3, x3, f, m);
    MulOne(q, f, m);
    DoubleOnCurveBits(c.M(xx, xx), c.M(c.M(k, k), q), c.M(xx, x3), c.M(k, q), c.M(x3, q), q);
  }

  lemma {:induction false} DoubleOnCurveBits(a: nat, d: nat, e: nat, g: nat, h: nat, q: nat)
    requires Xor(d, g) == Xor(h, q)
    ensures Xor(Xor(a, d), Xor(e, g)) == Xor(Xor(h, q), Xor(e, a))
  {
    XorBits();
    var l, r := Xor(Xor(a, d), Xor(e, g)), Xor(Xor(h, q), Xor(e, a));
    forall k: nat ensures Bit(l, k) <==> Bit(r, k) {
      assert Bit(Xor(d, g), k) <==> Bit(Xor(h, q), k);
    }
    SameBits(l, r);
  }

  // Doubling stays on the curve, and gives infinity only for x = 0.
  lemma {:induction false} DoubleMember(c: Curve, p: Point)
    requires c.Valid() && c.Member(p)
    ensures c.Member(c.Double(p))
    ensures c.Double(p) == Zero <==> p.x == 0
  {
    DoubleReduced(c, p);
    if p.x != 0 {
      var f, m := c.f, c.m;
      var x, y := p.x, p.y;
      var w := c.M(Inv(x, f, m), y);
      var l := Xor(w, x);
      var x3 := Xor(c.M(l, l), Xor(l, 1));
      Quotient(c, x, y);
      MulAdd(x, w, x, f, m);
      DoubleSlope(c, x, y, l, x3);
      DoubleOnCurve(c, c.M(x, x), l, x3);
      ZeroOffCurve(c);
    }
  }

  // (0, 0) does not satisfy the equation, so it can stand for infinity.
  lemma {:induction false} ZeroOffCurve(c: Curve)
    requires c.Valid()
    ensures !c.Equation(0, 0)
  {
    ModSmall(0, c.f, c.m);
    XorZero(0);
    XorZero(c.b);
  }

  // ---- addition

  lemma {:induction false} AddReduced(c: Curve, p: Point, q: Point)
    requires c.Valid() && c.Elem(p.x) && c.Elem(p.y) && c.Elem(q.x) && c.Elem(q.y)
    ensures c.Elem(c.Add(p, q).x) && c.Elem(c.Add(p, q).y)
  {
    BitLenBound(1, c.m);
    BitLenBound(0, c.m);
    if p.x == q.x {
      DoubleReduced(c, p);
    } else {
      XorLess(p.x, q.x, c.m);
      XorIsZero(p.x, q.x);
      var s := Xor(p.x, q.x);
      var l := c.M(Inv(s, c.f, c.m), Xor(p.y, q.y));
      MulReduced(Inv(s, c.f, c.m), Xor(p.y, q.y), c.f, c.m);
      SlopeReduced(c, p, s, l);
    }
  }

  lemma {:induction false} SlopeReduced(c: Curve, p: Point, s: nat, l: nat)
    requires c.Valid() && c.Elem(p.x) && c.Elem(p.y) && c.Elem(s) && c.Elem(l)
    ensures var x3 := Xor(Xor(Xor(c.M(l, l), l), s), 1);
            c.Elem(x3) && c.Elem(Xor(p.y, Xor(c.M(Xor(p.x, x3), l), x3)))
  {
    BitLenBound(1, c.m);
    MulReduced(l, l, c.f, c.m);
    XorLess(c.M(l, l), l, c.m);
    XorLess(Xor(c.M(l, l), l), s, c.m);
    var x3 := Xor(Xor(Xor(c.M(l, l), l), s), 1);
    XorLess(Xor(Xor(c.M(l, l), l), s), 1, c.m);
    MulReduced(Xor(p.x, x3), l, c.f, c.m);
    XorLess(c.M(Xor(p.x, x3), l), x3, c.m);
    XorLess(p.y, Xor(c.M(Xor(p.x, x3), l), x3), c.m);
  }

  // Two points on the line of slope l: with s = x1 + x2 and y1 + y2 = s l,
  // the two curve equations give s x3 = l x1 + y1 + s x1 + x1^2.
  lemma {:induction false} AddSlope(c: Curve, x: nat, y: nat, s: nat, l: nat, x3: nat)
    requires c.Valid() && 0 < s && c.Elem(s) && c.Elem(x) && c.Elem(y) && c.Elem(l)
    requires c.Equation(x, y) && c.Equation(Xor(x, s), Xor(y, c.M(s, l)))
    requires x3 == Xor(Xor(Xor(c.M(l, l), l), s), 1)
    ensures c.M(s, x3) == Xor(Xor(c.M(l, x), y), Xor(c.M(s, x), c.M(x, x)))
  {
    var f, m := c.f, c.m;
    AddSlopeDifference(c, x, y, s, l);
    var ll, ss := c.M(l, l), c.M(s, s);
    var left := Xor(Xor(c.M(ll, s), c.M(l, x)), Xor(y, c.M(s, l)));
    var right := Xor(Xor(c.M(s, x), c.M(x, x)), Xor(ss, s));
    MulReduced(ll, s, f, m); MulReduced(l, x, f, m); MulReduced(s, l, f, m);
    MulReduced(s, x, f, m); MulReduced(x, x, f, m); MulReduced(s, s, f, m);
    XorLess(c.M(ll, s), c.M(l, x), m); XorLess(y, c.M(s, l), m);
    XorLess(c.M(s, x), c.M(x, x), m); XorLess(ss, s, m);
    XorLess(Xor(c.M(ll, s), c.M(l, x)), Xor(y, c.M(s, l)), m);
    XorLess(Xor(c.M(s, x), c.M(x, x)), Xor(ss, s), m);
    Cancel(c, s, left, right);
    MulAdd(s, Xor(Xor(ll, l), s), 1, f, m);
    MulAdd(s, Xor(ll, l), s, f, m);
    MulAdd(s, ll, l, f, m);
    MulOne(s, f, m);
    MulComm(s, ll, f, m);
    AddSlopeBits(c.M(ll, s), c.M(l, x), y, c.M(s, l), c.M(s, x), c.M(x, x), ss, s);
  }

  lemma {:induction false} AddSlopeBits(a: nat, d: nat, y: nat, e: nat, g: nat, h: nat, q: nat, s: nat)
    requires Xor(Xor(a, d), Xor(y, e)) == Xor(Xor(g, h), Xor(q, s))
    ensures Xor(Xor(Xor(a, e), q), s) == Xor(Xor(d, y), Xor(g, h))
  {
    XorBits();
    var l, r := Xor(Xor(Xor(a, e), q), s), Xor(Xor(d, y), Xor(g, h));
    forall k: nat ensures Bit(l, k) <==> Bit(r, k) {
      assert Bit(Xor(Xor(a, d), Xor(y, e)), k) <==> Bit(Xor(Xor(g, h), Xor(q, s)), k);
    }
    SameBits(l, r);
  }

  // The sum of the two equations, with the factor s taken out.
  lemma {:induction false} AddSlopeDifference(c: Curve, x: nat, y: nat, s: nat, l: nat)
    requires c.Valid() && c.Elem(s) && c.Elem(x) && c.Elem(y) && c.Elem(l)
    requires c.Equation(x, y) && c.Equation(Xor(x, s), Xor(y, c.M(s, l)))
    ensures c.M(s, Xor(Xor(c.M(c.M(l, l), s), c.M(l, x)), Xor(y, c.M(s, l))))
            == c.M(s, Xor(Xor(c.M(s, x), c.M(x, x)), Xor(c.M(s, s), s)))
  {
    var f, m := c.f, c.m;
    var t, xx, ss := c.M(s, l), c.M(x, x), c.M(s, s);
    var u, v := Xor(x, s), Xor(y, t);
    // the second equation, expanded
    Square(c, y, t);
    Square(c, x, s);
    MulAdd(v, x, s, f, m);
    MulAdd(x, y, t, f, m);
    MulAdd(s, y, t, f, m);
    MulAdd(Xor(xx, ss), x, s, f, m);
    MulAdd(x, xx, ss, f, m);
    MulAdd(s, xx, ss, f, m);
    // both sides of the claim, expanded
    var ll := c.M(l, l);
    MulAdd(s, Xor(c.M(ll, s), c.M(l, x)), Xor(y, t), f, m);
    MulAdd(s, c.M(ll, s), c.M(l, x), f, m);
    MulAdd(s, Xor(c.M(s, x), xx), Xor(ss, s), f, m);
    MulAdd(s, c.M(s, x), xx, f, m);
    MulAdd(s, ss, s, f, m);
    // the monomials agree
    SquareProduct(c, s, l);
    MulComm(ll, s, f, m);
    MulAssoc(s, s, ll, f, m);
    MulAssoc(s, l, x, f, m);
    MulComm(t, x, f, m);
    MulAssoc(s, s, x, f, m);
    MulComm(ss, x, f, m);
    AddDifferenceBits(c.M(y, y), c.M(t, t), c.M(x, y), c.M(x, t), c.M(s, y), c.M(s, t),
                      c.M(x, xx), c.M(x, ss), c.M(s, xx), c.M(s, ss), xx, ss, c.b);
  }

  lemma {:induction false} AddDifferenceBits(yy: nat, tt: nat, xy: nat, xt: nat, sy: nat, st: nat,
                          xxx: nat, xss: nat, sxx: nat, sss: nat, xx: nat, ss: nat, b: nat)
    requires Xor(yy, xy) == Xor(Xor(xxx, xx), b)
    requires Xor(Xor(yy, tt), Xor(Xor(xy, xt), Xor(sy, st)))
             == Xor(Xor(Xor(Xor(xxx, xss), Xor(sxx, sss)), Xor(xx, ss)), b)
    ensures Xor(Xor(tt, xt), Xor(sy, st)) == Xor(Xor(xss, sxx), Xor(sss, ss))
  {
    XorBits();
    var l, r := Xor(Xor(tt, xt), Xor(sy, st)), Xor(Xor(xss, sxx), Xor(sss, ss));
    forall k: nat ensures Bit(l, k) <==> Bit(r, k) {
      assert Bit(Xor(yy, xy), k) <==> Bit(Xor(Xor(xxx, xx), b), k);
      assert Bit(Xor(Xor(yy, tt), Xor(Xor(xy, xt), Xor(sy, st))), k) <==> Bit(Xor(Xor(Xor(Xor(xxx, xss), Xor(sxx, sss)), Xor(xx, ss)), b), k);
    }
    SameBits(l, r);
  }

  // l^2 w + l x3 + y + x^2 + x x3 + x3^2 + w = 0 for w = x + x3.
  lemma {:induction false} AddInner(c: Curve, x: nat, y: nat, s: nat, l: nat, x3: nat)
    requires c.Valid() && c.Elem(x) && c.Elem(x3)
    requires x3 == Xor(Xor(Xor(c.M(l, l), l), s), 1)
    requires c.M(s, x3) == Xor(Xor(c.M(l, x), y), Xor(c.M(s, x), c.M(x, x)))
    ensures var w := Xor(x, x3);
            Xor(Xor(Xor(c.M(c.M(l, l), w), c.M(l, x3)), Xor(y, c.M(x, x))),
                Xor(Xor(c.M(x, x3), c.M(x3, x3)), w)) == 0
  {
    var f, m := c.f, c.m;
    var ll := c.M(l, l);
    MulAdd(ll, x, x3, f, m);
    MulAdd(x, Xor(Xor(ll, l), s), 1, f, m);
    MulAdd(x, Xor(ll, l), s, f, m);
    MulAdd(x, ll, l, f, m);
    MulOne(x, f, m);
    MulAdd(x3, Xor(Xor(ll, l), s), 1, f, m);
    MulAdd(x3, Xor(ll, l), s, f, m);
    MulAdd(x3, ll, l, f, m);
    MulOne(x3, f, m);
    MulComm(x, ll, f, m); MulComm(x, l, f, m); MulComm(x, s, f, m);
    MulComm(x3, ll, f, m); MulComm(x3, l, f, m); MulComm(x3, s, f, m);
    AddInnerBits(c.M(ll, x), c.M(ll, x3), c.M(l, x), c.M(l, x3), c.M(s, x), c.M(s, x3),
                 c.M(x, x), x, x3, y, c.M(x, x3), c.M(x3, x3));
  }

  lemma {:induction false} AddInnerBits(a: nat, a3: nat, d: nat, d3: nat, e: nat, e3: nat,
                     xx: nat, x: nat, x3: nat, y: nat, p: nat, q: nat)
    requires e3 == Xor(Xor(d, y), Xor(e, xx))
    requires p == Xor(Xor(Xor(a, d), e), x) && q == Xor(Xor(Xor(a3, d3), e3), x3)
    ensures Xor(Xor(Xor(Xor(a, a3), d3), Xor(y, xx)), Xor(Xor(p, q), Xor(x, x3))) == 0
  {
    XorBits();
    var l, r := Xor(Xor(Xor(Xor(a, a3), d3), Xor(y, xx)), Xor(Xor(p, q), Xor(x, x3))), 0;
    forall k: nat ensures Bit(l, k) <==> Bit(r, k) {}
    SameBits(l, r);
  }

  // The third point of the chord, reflected, satisfies the equation.
  lemma {:induction false} AddOnCurve(c: Curve, x: nat, y: nat, s: nat, l: nat, x3: nat)
    requires c.Valid() && c.Elem(x) && c.Elem(x3) && c.Equation(x, y)
    requires x3 == Xor(Xor(Xor(c.M(l, l), l), s), 1)
    requires c.M(s, x3) == Xor(Xor(c.M(l, x), y), Xor(c.M(s, x), c.M(x, x)))
    ensures c.Equation(x3, Xor(y, Xor(c.M(Xor(x, x3), l), x3)))
  {
    var f, m := c.f, c.m;
    var w, ll, xx, qq := Xor(x, x3), c.M(l, l), c.M(x, x), c.M(x3, x3);
    var wl := c.M(w, l);
    AddInner(c, x, y, s, l, x3);
    AddInnerTimes(c, x, y, l, x3);
    Square(c, y, Xor(wl, x3));
    Square(c, wl, x3);
    MulAdd(x3, y, Xor(wl, x3), f, m);
    MulAdd(x3, wl, x3, f, m);
    AddOnCurveBits(c.M(y, y), c.M(wl, wl), qq, c.M(x3, y), c.M(x3, wl), c.M(x, y),
                   c.M(x, xx), xx, c.M(x3, qq), c.b);
  }

  lemma {:induction false} AddOnCurveBits(yy: nat, t: nat, q: nat, e: nat, g: nat, xy: nat, xxx: nat, xx: nat, qqq: nat, b: nat)
    requires Xor(yy, xy) == Xor(Xor(xxx, xx), b)
    requires Xor(Xor(Xor(t, g), Xor(xy, e)), Xor(Xor(xxx, qqq), Xor(xx, q))) == 0
    ensures Xor(Xor(yy, Xor(t, q)), Xor(e, Xor(g, q))) == Xor(Xor(qqq, q), b)
  {
    XorBits();
    var l, r := Xor(Xor(yy, Xor(t, q)), Xor(e, Xor(g, q))), Xor(Xor(qqq, q), b);
    forall k: nat ensures Bit(l, k) <==> Bit(r, k) {
      assert Bit(Xor(yy, xy), k) <==> Bit(Xor(Xor(xxx, xx), b), k);
      assert Bit(Xor(Xor(Xor(t, g), Xor(xy, e)), Xor(Xor(xxx, qqq), Xor(xx, q))), k) <==> Bit(0, k);
    }
    SameBits(l, r);
  }

  // AddInner multiplied by w and expanded.
  lemma {:induction false} AddInnerTimes(c: Curve, x: nat, y: nat, l: nat, x3: nat)
    requires c.Valid()
    requires var w := Xor(x, x3);
             Xor(Xor(Xor(c.M(c.M(l, l), w), c.M(l, x3)), Xor(y, c.M(x, x))),
                 Xor(Xor(c.M(x, x3), c.M(x3, x3)), w)) == 0
    ensures var w := Xor(x, x3); var wl := c.M(w, l);
            Xor(Xor(Xor(c.M(wl, wl), c.M(x3, wl)), Xor(c.M(x, y), c.M(x3, y))),
                Xor(Xor(c.M(x, c.M(x, x)), c.M(x3, c.M(x3, x3))), Xor(c.M(x, x), c.M(x3, x3)))) == 0
  {
    var f, m := c.f, c.m;
    var w, ll, xx, qq, p := Xor(x, x3), c.M(l, l), c.M(x, x), c.M(x3, x3), c.M(x, x3);
    var wl := c.M(w, l);
    MulAdd(w, Xor(Xor(c.M(ll, w), c.M(l, x3)), Xor(y, xx)), Xor(Xor(p, qq), w), f, m);
    MulAdd(w, Xor(c.M(ll, w), c.M(l, x3)), Xor(y, xx), f, m);
    MulAdd(w, c.M(ll, w), c.M(l, x3), f, m);
    MulAdd(w, y, xx, f, m);
    MulAdd(w, Xor(p, qq), w, f, m);
    MulAdd(w, p, qq, f, m);
    ModSmall(0, f, m);
    PMulComm(w, 0);
    assert c.M(w, 0) == 0;
    AddInnerMonomials(c, w, l, x3);
    // w = x + x3 in the remaining products
    MulAdd(y, x, x3, f, m);
    MulAdd(xx, x, x3, f, m);
    MulAdd(p, x, x3, f, m);
    MulAdd(qq, x, x3, f, m);
    Square(c, x, x3);
    MulAssoc(x, x, x3, f, m);
    MulAssoc(x, x3, x3, f, m);
    MulComm(x3, xx, f, m);
    MulComm(p, x3, f, m);
    MulComm(x3, p, f, m);
    AddTimesBits(c.M(wl, wl), c.M(x3, wl), c.M(x, y), c.M(x3, y), c.M(x, xx), c.M(x3, qq), xx, qq,
                 c.M(xx, x3), c.M(x, qq));
  }

  lemma {:induction false} AddInnerMonomials(c: Curve, w: nat, l: nat, x3: nat)
    requires c.Valid()
    ensures c.M(w, c.M(c.M(l, l), w)) == c.M(c.M(w, l), c.M(w, l))
    ensures c.M(w, c.M(l, x3)) == c.M(x3, c.M(w, l))
  {
    var f, m := c.f, c.m;
    MulComm(c.M(l, l), w, f, m);
    MulAssoc(w, w, c.M(l, l), f, m);
    SquareProduct(c, w, l);
    MulAssoc(w, l, x3, f, m);
    MulComm(c.M(w, l), x3, f, m);
  }

  lemma {:induction false} AddTimesBits(t: nat, g: nat, xy: nat, e: nat, xxx: nat, qqq: nat, xx: nat, qq: nat, a: nat, d: nat)
    requires Xor(Xor(Xor(t, g), Xor(Xor(xy, e), Xor(xxx, a))), Xor(Xor(Xor(a, d), Xor(d, qqq)), Xor(xx, qq))) == 0
    ensures Xor(Xor(Xor(t, g), Xor(xy, e)), Xor(Xor(xxx, qqq), Xor(xx, qq))) == 0
  {
    XorBits();
    var l, r := Xor(Xor(Xor(t, g), Xor(xy, e)), Xor(Xor(xxx, qqq), Xor(xx, qq))), 0;
    forall k: nat ensures Bit(l, k) <==> Bit(r, k) {
      assert Bit(Xor(Xor(Xor(t, g), Xor(Xor(xy, e), Xor(xxx, a))), Xor(Xor(Xor(a, d), Xor(d, qqq)), Xor(xx, qq))), k) <==> Bit(0, k);
    }
    SameBits(l, r);
  }

  // Two points with the same x are equal or each other's negative.
  lemma {:induction false} SameX(c: Curve, x: nat, y: nat, y': nat)
    requires c.Valid() && c.Elem(x) && c.Elem(y) && c.Elem(y')
    requires c.Equation(x, y) && c.Equation(x, y')
    ensures y == y' || y' == Xor(x, y)
  {
    var f, m := c.f, c.m;
    var d := Xor(y, y');
    XorIsZero(y, y');
    if d != 0 {
      XorLess(y, y', m);
      Square(c, y, y');
      MulAdd(x, y, y', f, m);
      MulComm(x, d, f, m);
      SameXBits(c.M(y, y), c.M(x, y), c.M(y', y'), c.M(x, y'));
      Cancel(c, d, d, x);
      XorAssoc(y, y, y');
      XorSelf(y);
      XorZero(y');
      XorComm(x, y);
    }
  }

  lemma {:induction false} SameXBits(a: nat, d: nat, e: nat, g: nat)
    requires Xor(a, d) == Xor(e, g)
    ensures Xor(a, e) == Xor(d, g)
  {
    XorBits();
    var l, r := Xor(a, e), Xor(d, g);
    forall k: nat ensures Bit(l, k) <==> Bit(r, k) {
      assert Bit(Xor(a, d), k) <==> Bit(Xor(e, g), k);
    }
    SameBits(l, r);
  }

  // Addition stays on the curve; it gives infinity exactly for opposite points.
  lemma {:induction false} AddMember(c: Curve, p: Point, q: Point)
    requires c.Valid() && c.Member(p) && c.Member(q)
    ensures c.Member(c.Add(p, q))
    ensures c.Add(p, q) == Zero <==> q == c.Neg(p)
  {
    AddReduced(c, p, q);
    if p == Zero || q == Zero {
      XorZero(p.y);
      XorZero(0);
      NegInvolution(c, p);
    } else if p.x != q.x {
      AddChord(c, p, q);
      ZeroOffCurve(c);
    } else if p.y == q.y {
      DoubleMember(c, p);
      XorFixed(p.x, p.y);
    } else {
      BitLenBound(0, c.m);
      SameX(c, p.x, p.y, q.y);
    }
  }

  lemma {:induction false} XorFixed(x: nat, y: nat)
    ensures Xor(x, y) == y <==> x == 0
  {
    XorAssoc(x, y, y);
    XorSelf(y);
    XorZero(x);
    XorZero(y);
  }

  lemma {:induction false} NegInvolution(c: Curve, p: Point)
    ensures c.Neg(c.Neg(p)) == p
  {
    XorBits();
    SameBits(Xor(p.x, Xor(p.x, p.y)), p.y);
  }

  // Negation stays on the curve, and a point and its negative add up to
  // infinity.
  lemma {:induction false} NegMember(c: Curve, p: Point)
    requires c.Valid() && c.Member(p)
    ensures c.Member(c.Neg(p)) && c.Add(p, c.Neg(p)) == Zero && c.Neg(c.Neg(p)) == p
    ensures c.Neg(p) == Point(p.x, Xor(p.x, p.y))
  {
    NegInvolution(c, p);
    XorZero(0);
    if p != Zero {
      var f, m, x, y := c.f, c.m, p.x, p.y;
      XorLess(x, y, m);
      Square(c, x, y);
      MulAdd(x, x, y, f, m);
      NegBits(c.M(x, x), c.M(y, y), c.M(x, y));
      AddMember(c, p, c.Neg(p));
    }
  }

  lemma {:induction false} NegBits(xx: nat, yy: nat, xy: nat)
    ensures Xor(Xor(xx, yy), Xor(xx, xy)) == Xor(yy, xy)
  {
    XorBits();
    SameBits(Xor(Xor(xx, yy), Xor(xx, xy)), Xor(yy, xy));
  }

  lemma {:induction false} AddChord(c: Curve, p: Point, q: Point)
    requires c.Valid() && c.Member(p) && c.Member(q) && p != Zero && q != Zero && p.x != q.x
    ensures c.Equation(c.Add(p, q).x, c.Add(p, q).y)
  {
    AddReduced(c, p, q);
    XorLess(p.x, q.x, c.m);
    XorIsZero(p.x, q.x);
    XorLess(p.y, q.y, c.m);
    var s, t := Xor(p.x, q.x), Xor(p.y, q.y);
    var l := c.M(Inv(s, c.f, c.m), t);
    MulReduced(Inv(s, c.f, c.m), t, c.f, c.m);
    Quotient(c, s, t);
    XorBits();
    SameBits(Xor(p.x, s), q.x);
    SameBits(Xor(p.y, t), q.y);
    var x3 := Xor(Xor(Xor(c.M(l, l), l), s), 1);
    AddSlope(c, p.x, p.y, s, l, x3);
    AddOnCurve(c, p.x, p.y, s, l, x3);
  }

  // ---- chord and tangent: sections 2.2.2 and 3.1.3 of SEC 1 without division

  // The point (x, y) lies on the line of slope t/s through p, and x + x1 + x2
  // is what the curve makes of that slope.
  predicate ThirdPoint(c: Curve, p: Point, s: nat, t: nat, sum: nat, x: nat, y: nat) {
    && c.M(s, Xor(y, p.y)) == c.M(t, Xor(x, p.x))
    && c.M(c.M(s, s), Xor(x, Xor(sum, 1))) == Xor(c.M(t, t), c.M(s, t))
  }

  // The sum of two points with different x is the reflection of the third
  // point of the curve on the line through them, and nothing else is.
  lemma {:induction false} ChordLaw(c: Curve, p: Point, q: Point, r: Point)
    requires c.Valid() && c.Member(p) && c.Member(q) && p != Zero && q != Zero && p.x != q.x
    requires c.Elem(r.x) && c.Elem(r.y)
    ensures r == c.Add(p, q) <==>
              var s, t := Xor(p.x, q.x), Xor(p.y, q.y);
              && c.M(s, Xor(Xor(r.x, r.y), p.y)) == c.M(t, Xor(r.x, p.x))
              && c.M(c.M(s, s), Xor(r.x, Xor(s, 1))) == Xor(c.M(t, t), c.M(s, t))
  {
    hide Mod;
    hide Mul;
    hide PMul;
    hide Xor;
    hide Irreducible;
    var f, m, s, t := c.f, c.m, Xor(p.x, q.x), Xor(p.y, q.y);
    XorLess(p.x, q.x, m);
    XorIsZero(p.x, q.x);
    XorLess(p.y, q.y, m);
    var l := c.M(Inv(s, f, m), t);
    MulReduced(Inv(s, f, m), t, f, m);
    Quotient(c, s, t);
    AddReduced(c, p, q);
    var a := c.Add(p, q);
    SlopePoint(c, p, s, t, l, s, a);
    ThirdUnique(c, p, s, t, s, a, r);
  }

  // Doubling: the same with the tangent, whose slope is (x^2 + y)/x.
  lemma {:induction false} TangentLaw(c: Curve, p: Point, r: Point)
    requires c.Valid() && c.Member(p) && p.x != 0
    requires c.Elem(r.x) && c.Elem(r.y)
    ensures r == c.Double(p) <==>
              var u := Xor(c.M(p.x, p.x), p.y);
              && c.M(p.x, Xor(Xor(r.x, r.y), p.y)) == c.M(u, Xor(r.x, p.x))
              && c.M(c.M(p.x, p.x), Xor(r.x, 1)) == Xor(c.M(u, u), c.M(p.x, u))
  {
    hide Mod;
    hide Mul;
    hide PMul;
    hide Xor;
    hide Irreducible;
    var f, m, x, y := c.f, c.m, p.x, p.y;
    var w := c.M(Inv(x, f, m), y);
    var l, u := Xor(w, x), Xor(c.M(x, x), y);
    MulReduced(Inv(x, f, m), y, f, m);
    XorLess(w, x, m);
    Quotient(c, x, y);
    MulAdd(x, w, x, f, m);
    XorComm(y, c.M(x, x));
    MulReduced(x, x, f, m);
    XorLess(c.M(x, x), y, m);
    DoubleReduced(c, p);
    var a := c.Double(p);
    TangentPoint(c, p, u, l, a);
    XorZero(1);
    ThirdUnique(c, p, x, u, 0, a, r);
  }

  // A point computed with slope l = t/s satisfies the equations.
  lemma {:induction false} SlopePoint(c: Curve, p: Point, s: nat, t: nat, l: nat, sum: nat, a: Point)
    requires c.Valid() && c.Elem(s) && c.Elem(t) && c.Elem(l) && c.Elem(p.x) && c.Elem(a.x) && c.M(s, l) == t
    requires a.x == Xor(Xor(Xor(c.M(l, l), l), sum), 1) && a.y == Xor(p.y, Xor(c.M(Xor(p.x, a.x), l), a.x))
    ensures ThirdPoint(c, p, s, t, sum, a.x, Xor(a.x, a.y))
  {
    hide Mul;
    var f, m, k := c.f, c.m, Xor(p.x, a.x);
    NegatedSum(a.x, p.y, c.M(k, l));
    MulComm(k, l, f, m);
    MulAssoc(s, l, k, f, m);
    XorComm(p.x, a.x);
    SlopeSquare(c, s, t, l, a.x, sum);
  }

  lemma {:induction false} NegatedSum(x: nat, y: nat, a: nat)
    ensures Xor(Xor(x, Xor(y, Xor(a, x))), y) == a
  {
    XorBits();
    SameBits(Xor(Xor(x, Xor(y, Xor(a, x))), y), a);
  }

  lemma {:induction false} SlopeSquare(c: Curve, s: nat, t: nat, l: nat, x: nat, sum: nat)
    requires c.Valid() && c.M(s, l) == t && x == Xor(Xor(Xor(c.M(l, l), l), sum), 1)
    ensures c.M(c.M(s, s), Xor(x, Xor(sum, 1))) == Xor(c.M(t, t), c.M(s, t))
  {
    hide Mul;
    var f, m, ll := c.f, c.m, c.M(l, l);
    SumCancels(ll, l, sum);
    MulAdd(c.M(s, s), ll, l, f, m);
    SquareProduct(c, s, l);
    MulAssoc(s, s, l, f, m);
  }

  lemma {:induction false} SumCancels(a: nat, l: nat, s: nat)
    ensures Xor(Xor(Xor(Xor(a, l), s), 1), Xor(s, 1)) == Xor(a, l)
  {
    XorBits();
    SameBits(Xor(Xor(Xor(Xor(a, l), s), 1), Xor(s, 1)), Xor(a, l));
  }

  lemma {:induction false} TangentPoint(c: Curve, p: Point, u: nat, l: nat, a: Point)
    requires c.Valid() && c.Elem(p.x) && c.Elem(p.y) && c.Elem(u) && c.Elem(l) && c.Elem(a.x) && c.M(p.x, l) == u
    requires u == Xor(c.M(p.x, p.x), p.y)
    requires a.x == Xor(c.M(l, l), Xor(l, 1)) && a.y == Xor(c.M(p.x, p.x), c.M(Xor(l, 1), a.x))
    ensures ThirdPoint(c, p, p.x, u, 0, a.x, Xor(a.x, a.y))
  {
    hide Mul;
    var f, m, x, xx := c.f, c.m, p.x, c.M(p.x, p.x);
    MulAdd(a.x, l, 1, f, m);
    MulOne(a.x, f, m);
    TangentSum(a.x, xx, c.M(l, a.x), p.y);
    MulAdd(x, u, c.M(l, a.x), f, m);
    MulAssoc(x, l, a.x, f, m);
    MulComm(x, u, f, m);
    MulAdd(u, a.x, x, f, m);
    XorComm(c.M(u, x), c.M(u, a.x));
    XorAssoc(c.M(l, l), l, 1);
    XorZero(Xor(c.M(l, l), l));
    XorZero(1);
    SlopeSquare(c, x, u, l, a.x, 0);
  }

  lemma {:induction false} TangentSum(x: nat, xx: nat, lx: nat, y: nat)
    ensures Xor(Xor(x, Xor(xx, Xor(lx, x))), y) == Xor(Xor(xx, y), lx)
  {
    XorBits();
    SameBits(Xor(Xor(x, Xor(xx, Xor(lx, x))), y), Xor(Xor(xx, y), lx));
  }

  // For s != 0 the equations have one solution.
  lemma {:induction false} ThirdUnique(c: Curve, p: Point, s: nat, t: nat, sum: nat, a: Point, r: Point)
    requires c.Valid() && 0 < s && c.Elem(s) && c.Elem(p.y) && c.Elem(sum)
    requires c.Elem(a.x) && c.Elem(a.y) && c.Elem(r.x) && c.Elem(r.y)
    requires ThirdPoint(c, p, s, t, sum, a.x, Xor(a.x, a.y))
    ensures r == a <==> ThirdPoint(c, p, s, t, sum, r.x, Xor(r.x, r.y))
  {
    hide Mul;
    hide Xor;
    if ThirdPoint(c, p, s, t, sum, r.x, Xor(r.x, r.y)) {
      var f, m, k := c.f, c.m, Xor(sum, 1);
      BitLenBound(1, m);
      XorLess(sum, 1, m);
      XorLess(r.x, k, m);
      XorLess(a.x, k, m);
      MulAssoc(s, s, Xor(r.x, k), f, m);
      MulAssoc(s, s, Xor(a.x, k), f, m);
      MulReduced(s, Xor(r.x, k), f, m);
      MulReduced(s, Xor(a.x, k), f, m);
      Cancel(c, s, c.M(s, Xor(r.x, k)), c.M(s, Xor(a.x, k)));
      Cancel(c, s, Xor(r.x, k), Xor(a.x, k));
      XorCancels(r.x, a.x, k);
      XorLess(r.x, r.y, m);
      XorLess(a.x, a.y, m);
      XorLess(Xor(r.x, r.y), p.y, m);
      XorLess(Xor(a.x, a.y), p.y, m);
      Cancel(c, s, Xor(Xor(r.x, r.y), p.y), Xor(Xor(a.x, a.y), p.y));
      XorCancels(Xor(r.x, r.y), Xor(a.x, a.y), p.y);
      XorComm(r.x, r.y);
      XorComm(a.x, a.y);
      XorCancels(r.y, a.y, r.x);
    }
  }

  lemma {:induction false} XorCancels(a: nat, b: nat, k: nat)
    ensures Xor(a, k) == Xor(b, k) ==> a == b
  {
    XorAssoc(a, k, k);
    XorAssoc(b, k, k);
    XorSelf(k);
    XorZero(a);
    XorZero(b);
  }

  lemma {:induction false} AddComm(c: Curve, p: Point, q: Point)
    requires c.Valid() && c.Member(p) && c.Member(q)
    ensures c.Add(p, q) == c.Add(q, p)
  {
    if p != Zero && q != Zero && p.x != q.x {
      var f, m := c.f, c.m;
      XorComm(p.x, q.x);
      XorComm(p.y, q.y);
      XorLess(p.x, q.x, m);
      XorIsZero(p.x, q.x);
      XorLess(p.y, q.y, m);
      var s, t := Xor(p.x, q.x), Xor(p.y, q.y);
      var l := c.M(Inv(s, f, m), t);
      var x3 := Xor(Xor(Xor(c.M(l, l), l), s), 1);
      Quotient(c, s, t);
      MulComm(s, l, f, m);
      MulAdd(l, p.x, q.x, f, m);
      MulAdd(l, p.x, x3, f, m);
      MulAdd(l, q.x, x3, f, m);
      AddCommBits(p.y, q.y, c.M(p.x, l), c.M(q.x, l), c.M(x3, l), x3);
    }
  }

  lemma {:induction false} AddCommBits(y: nat, z: nat, a: nat, d: nat, e: nat, x3: nat)
    requires Xor(a, d) == Xor(y, z)
    ensures Xor(y, Xor(Xor(a, e), x3)) == Xor(z, Xor(Xor(d, e), x3))
  {
    XorBits();
    var l, r := Xor(y, Xor(Xor(a, e), x3)), Xor(z, Xor(Xor(d, e), x3));
    forall k: nat ensures Bit(l, k) <==> Bit(r, k) {
      assert Bit(Xor(a, d), k) <==> Bit(Xor(y, z), k);
    }
    SameBits(l, r);
  }

  lemma {:induction false} DoubleIsAdd(c: Curve, p: Point)
    requires c.Valid() && c.Member(p)
    ensures c.Double(p) == c.Add(p, p)
  {
    ZeroOffCurve(c);
  }

  // ---- scalar multiplication

  // Associativity of the addition on the curve. Closure, neutral element,
  // inverses and commutativity are proved above; this law is a hypothesis.
  ghost predicate Associative(c: Curve)
    requires c.Valid()
  {
    forall p: Point, q: Point, r: Point {:trigger c.Add(c.Add(p, q), r)} ::
      c.Member(p) && c.Member(q) && c.Member(r) ==>
        (AddMember(c, p, q); AddMember(c, q, r); c.Add(c.Add(p, q), r) == c.Add(p, c.Add(q, r)))
  }

  // k-fold sum.
  ghost function Times(c: Curve, k: nat, p: Point): (r: Point)
    requires c.Valid() && c.Member(p)
    ensures c.Member(r)
  {
    if k == 0 then BitLenBound(0, c.m); Zero
    else var t := Times(c, k - 1, p); AddMember(c, t, p); c.Add(t, p)
  }

  // Double-and-add from the most significant bit.
  ghost function DoubleAdd(c: Curve, k: nat, p: Point): (r: Point)
    requires c.Valid() && c.Member(p)
    ensures c.Member(r)
  {
    if k == 0 then BitLenBound(0, c.m); Zero
    else
      var h := DoubleAdd(c, k / 2, p);
      DoubleMember(c, h);
      AddMember(c, c.Double(h), p);
      if k % 2 == 1 then c.Add(c.Double(h), p) else c.Double(h)
  }

  lemma {:induction false} AssociativeAt(c: Curve, p: Point, q: Point, r: Point)
    requires c.Valid() && Associative(c) && c.Member(p) && c.Member(q) && c.Member(r)
    ensures c.Member(c.Add(p, q)) && c.Member(c.Add(q, r))
    ensures c.Add(c.Add(p, q), r) == c.Add(p, c.Add(q, r))
  {
    AddMember(c, p, q);
    AddMember(c, q, r);
  }

  lemma {:induction false} TimesAdd(c: Curve, j: nat, k: nat, p: Point)
    requires c.Valid() && c.Member(p) && Associative(c)
    ensures Times(c, j + k, p) == c.Add(Times(c, j, p), Times(c, k, p))
    decreases k
  {
    if k == 0 {
      AddZero(c, Times(c, j, p));
    } else {
      TimesAdd(c, j, k - 1, p);
      AssociativeAt(c, Times(c, j, p), Times(c, k - 1, p), p);
    }
  }

  lemma {:induction false} AddZero(c: Curve, p: Point)
    requires c.Valid() && c.Member(p)
    ensures c.Elem(0) && c.Add(p, Zero) == p && c.Add(Zero, p) == p
  {
    BitLenBound(0, c.m);
  }

  lemma {:induction false} TimesTimes(c: Curve, j: nat, k: nat, p: Point)
    requires c.Valid() && c.Member(p) && Associative(c)
    ensures Times(c, j, Times(c, k, p)) == Times(c, j * k, p)
    decreases j
  {
    hide Curve.Add;
    if j > 0 {
      var q := Times(c, k, p);
      TimesTimes(c, j - 1, k, p);
      assert Times(c, j, q) == c.Add(Times(c, j - 1, q), q);
      var n := (j - 1) * k;
      ProductStep(j, k);
      TimesAdd(c, n, k, p);
    } else {
      ProductStep(1, k);
    }
  }

  lemma {:induction false} ProductStep(j: nat, k: nat)
    requires j > 0
    ensures 0 <= (j - 1) * k && (j - 1) * k + k == j * k && 0 * k == 0
  {
  }

  lemma {:induction false} DoubleAddStep(c: Curve, k: nat, p: Point)
    requires c.Valid() && c.Member(p) && k > 0
    ensures var h := DoubleAdd(c, k / 2, p);
            && c.Member(c.Double(h))
            && DoubleAdd(c, k, p) == if k % 2 == 1 then c.Add(c.Double(h), p) else c.Double(h)
  {
    hide Curve.Add;
    hide Curve.Double;
    DoubleMember(c, DoubleAdd(c, k / 2, p));
  }

  lemma {:induction false} TimesNext(c: Curve, k: nat, p: Point)
    requires c.Valid() && c.Member(p)
    ensures Times(c, k + 1, p) == c.Add(Times(c, k, p), p)
  {
    hide Curve.Add;
  }

  // Double-and-add computes the k-fold sum.
  lemma {:induction false} DoubleAddIsTimes(c: Curve, k: nat, p: Point)
    requires c.Valid() && c.Member(p) && Associative(c)
    ensures DoubleAdd(c, k, p) == Times(c, k, p)
    decreases k
  {
    hide Curve.Add;
    hide Curve.Double;
    hide Curve.Member;
    hide Associative;
    if k > 0 {
      DoubleAddIsTimes(c, k / 2, p);
      DoubleAddStep(c, k, p);
      DoubleIsAdd(c, Times(c, k / 2, p));
      TimesAdd(c, k / 2, k / 2, p);
      var twice := k / 2 + k / 2;
      TimesNext(c, twice, p);
      assert k == if k % 2 == 1 then twice + 1 else twice;
    }
  }

  // Both sides of the key exchange obtain the same point.
  lemma {:induction false} SharedSecretAgrees(c: Curve, j: nat, k: nat, p: Point)
    requires c.Valid() && c.Member(p) && Associative(c)
    ensures DoubleAdd(c, j, DoubleAdd(c, k, p)) == DoubleAdd(c, k, DoubleAdd(c, j, p))
  {
    DoubleAddIsTimes(c, j, p);
    DoubleAddIsTimes(c, k, p);
    DoubleAddIsTimes(c, j, Times(c, k, p));
    DoubleAddIsTimes(c, k, Times(c, j, p));
    TimesTimes(c, j, k, p);
    TimesTimes(c, k, j, p);
    assert j * k == k * j;
  }
}
