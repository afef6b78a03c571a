// Field arithmetic, point arithmetic and the key exchange of
// misc/tinyECDH/ecdh.c, on word vectors updated in place.
module Ecdh {
  import opened Bits
  import opened Field
  import opened CurveLaw
  import opened WordVector
  import opened RawField
  import opened RawCurve

  // The compile-time parameters of one curve with coeff_a = 1.
  datatype Params = Params(
    degree: nat,               // CURVE_DEGREE
    nwords: nat,               // BITVEC_NWORDS
    polynomial: seq<Word>,
    coeffB: seq<Word>,
    baseX: seq<Word>,
    baseY: seq<Word>,
    baseOrder: seq<Word>)
  {
    function Law(): Curve {
      Curve(Value(polynomial), degree, Value(coeffB))
    }

    // Sizes as the header computes them: three bits of margin.
    ghost predicate Sizes() {
      && |polynomial| == |coeffB| == |baseX| == |baseY| == |baseOrder| == nwords
      && degree + 3 <= 32 * nwords
    }

    // The digits of a vector above those of a field element.
    ghost function Room(): (w: nat)
      requires Sizes()
      ensures w >= 3 && degree + w == 32 * nwords
    {
      32 * nwords - degree
    }

    ghost predicate Valid() {
      Sizes() && Law().Valid() && Law().Member(Base()) && Value(baseOrder) > 0
    }

    // A random number that is not refused, the private key it is cut to and
    // the public key that belongs to it.
    predicate Long(r: nat) {
      BitLen(r) >= degree / 2
    }

    function Key(r: nat): nat
      requires Value(baseOrder) > 0
    {
      BitLenPositive(Value(baseOrder));
      Low(r, BitLen(Value(baseOrder)) - 1)
    }

    ghost function Public(r: nat): Point
      requires Valid()
    {
      DoubleAdd(Law(), Key(r), Base())
    }

    function Base(): Point {
      Point(Value(baseX), Value(baseY))
    }
  }

  // NIST B-163, the default.
  const B163 := Params(163, 6,
    [0x000000c9, 0x00000000, 0x00000000, 0x00000000, 0x00000000, 0x00000008],
    [0x4a3205fd, 0x512f7874, 0x1481eb10, 0xb8c953ca, 0x0a601907, 0x00000002],
    [0xe8343e36, 0xd4994637, 0xa0991168, 0x86a2d57e, 0xf0eba162, 0x00000003],
    [0x797324f1, 0xb11c5c0c, 0xa2cdd545, 0x71a0094f, 0xd51fbc6c, 0x00000000],
    [0xa4234c33, 0x77e70c12, 0x000292fe, 0x00000000, 0x00000000, 0x00000004])

  // A constant with top word j has 32 j digits more than that word.
  lemma {:induction false} ConstantLength(s: seq<Word>, j: nat, l: nat)
    requires j < |s| && BitLen(s[j]) == l > 0
    requires forall i :: j < i < |s| ==> s[i] == 0
    ensures BitLen(Value(s)) == 32 * j + l
    ensures Value(s) > 0
  {
    ValueBitLen(s, j);
  }

  // The constants are well formed: what is left to know about B-163 is that
  // its polynomial is irreducible and that its base point is on the curve.
  lemma {:induction false} B163Sizes()
    ensures B163.Sizes()
    ensures BitLen(Value(B163.polynomial)) == B163.degree + 1
    ensures 0 < BitLen(Value(B163.coeffB)) <= B163.degree
    ensures BitLen(Value(B163.baseX)) <= B163.degree && BitLen(Value(B163.baseY)) <= B163.degree
    ensures BitLen(Value(B163.baseOrder)) == B163.degree
  {
    hide Value;
    WordPow();
    BitLenBound(0xd51fbc6c, 32);
    ConstantLength(B163.polynomial, 5, 4);
    ConstantLength(B163.coeffB, 5, 2);
    ConstantLength(B163.baseX, 5, 2);
    ConstantLength(B163.baseY, 4, BitLen(0xd51fbc6c));
    ConstantLength(B163.baseOrder, 5, 3);
  }

  // ---- field arithmetic

  method SetOne(x: array<Word>)
    requires x.Length > 0
    modifies x
    ensures Val(x) == 1
  {
    x[0] := 1;
    var i := 1;
    while i < x.Length
      invariant 1 <= i <= x.Length
      invariant x[0] == 1 && forall k :: 1 <= k < i ==> x[k] == 0
    {
      x[i] := 0;
      i := i + 1;
    }
    ValueZeros(x[..][1..]);
  }

  method IsOne(x: array<Word>) returns (r: bool)
    requires x.Length > 0
    ensures r <==> Val(x) == 1
  {
    ValueIsZero(x[..][1..]);
    if x[0] != 1 { return false; }
    var i := 1;
    while i < x.Length
      invariant 1 <= i <= x.Length
      invariant forall k :: 1 <= k < i ==> x[k] == 0
    {
      if x[i] != 0 { break; }
      i := i + 1;
    }
    assert i < x.Length ==> x[..][1..][i - 1] != 0;
    return i == x.Length;
  }

  // z := x + y; any of the vectors may coincide.
  method FieldAdd(z: array<Word>, x: array<Word>, y: array<Word>)
    requires z.Length == x.Length == y.Length
    modifies z
    ensures Val(z) == Xor(old(Val(x)), old(Val(y)))
  {
    ghost var s, t := x[..], y[..];
    var i := 0;
    while i < z.Length
      invariant 0 <= i <= z.Length
      invariant forall k :: i <= k < z.Length ==> x[k] == s[k] && y[k] == t[k]
      invariant forall k :: 0 <= k < i ==> z[k] == Xor(s[k], t[k])
      invariant x != z ==> x[..] == s
      invariant y != z ==> y[..] == t
    {
      XorWord(x[i], y[i]);
      z[i] := Xor(x[i], y[i]);
      i := i + 1;
    }
    ValueXor(s, t, z[..]);
  }

  lemma {:induction false} XorWord(a: Word, b: Word)
    ensures Xor(a, b) < 0x1_0000_0000
  {
    WordPow();
    XorLess(a, b, 32);
  }

  method FieldInc(x: array<Word>)
    requires x.Length > 0
    modifies x
    ensures Val(x) == Xor(old(Val(x)), 1)
  {
    ghost var s := x[..];
    XorWord(x[0], 1);
    x[0] := Xor(x[0], 1);
    ghost var one := seq(|s|, i => if i == 0 then 1 as Word else 0);
    ValueZeros(one[1..]);
    forall i | 1 <= i < |s| ensures Xor(s[i], 0) == s[i] { XorZero(s[i]); }
    ValueXor(s, one, x[..]);
  }

  // A constant of the curve as a vector.
  method Load(s: seq<Word>) returns (a: array<Word>)
    ensures fresh(a) && a[..] == s
  {
    a := new Word[|s|](i requires 0 <= i < |s| => s[i]);
  }

  // z := x * y, reducing after every doubling; z may be x. The operands need
  // not be reduced.
  method FieldMul(c: Params, z: array<Word>, x: array<Word>, y: array<Word>)
    requires c.Sizes() && Modulus(c.Law().f, c.degree)
    requires z.Length == x.Length == y.Length == c.nwords
    requires z != y
    modifies z
    ensures Val(z) == Product(old(Val(x)), old(Val(y)), c.Law().f, c.degree, c.Room())
  {
    hide Value;
    hide Partial;
    hide Power;
    hide Low;
    hide Bit;
    hide Xor;
    hide BitLen;
    ghost var a, b, f, m, w := Val(x), Val(y), c.Law().f, c.degree, c.Room();
    var polynomial := Load(c.polynomial);
    var tmp := new Word[c.nwords];
    Copy(tmp, x);
    var bit := GetBit(y, 0);
    if bit != 0 {
      Copy(z, x);
    } else {
      SetZero(z);
    }
    ValueBound(x[..]);
    ValueBound(tmp[..]);
    PowerStart(a, f, m, w);
    PartialStart(a, b, f, m, w);
    var i := 1;
    while i < c.degree
      invariant 1 <= i <= c.degree
      invariant Val(tmp) == Power(a, i - 1, f, m, w)
      invariant Val(z) == Partial(a, b, i, f, m, w)
      invariant Val(y) == b && Val(polynomial) == f
    {
      PowerNext(a, i - 1, f, m, w);
      DoubleReduced(c, tmp, polynomial);
      PartialNext(a, b, i, f, m, w);
      bit := GetBit(y, i);
      if bit != 0 {
        FieldAdd(z, z, tmp);
      }
      i := i + 1;
    }
  }

  // tmp := 2 * tmp, its low part reduced.
  method DoubleReduced(c: Params, tmp: array<Word>, polynomial: array<Word>)
    requires c.Sizes() && tmp.Length == polynomial.Length == c.nwords && tmp != polynomial
    requires Val(polynomial) == c.Law().f
    modifies tmp
    ensures Val(tmp) == Reduce(Low(Shl(old(Val(tmp)), 1), 32 * c.nwords), c.Law().f, c.degree)
  {
    Lshift(tmp, tmp, 1);
    var top := GetBit(tmp, c.degree);
    if top != 0 {
      FieldAdd(tmp, tmp, polynomial);
    }
  }

  // z := 1/x by shifting and subtracting until u = 1. The loop ends exactly
  // if the polynomial does not divide x: see InversionEnds.
  method FieldInv(c: Params, z: array<Word>, x: array<Word>)
    requires c.Sizes() && Modulus(c.Law().f, c.degree) && Irreducible(c.Law().f)
    requires z.Length == x.Length == c.nwords
    requires 0 < Mod(Val(x), c.Law().f, c.degree) < Pow2(c.degree)
    modifies z
    ensures Val(z) == Inv(Mod(old(Val(x)), c.Law().f, c.degree), c.Law().f, c.degree)
  {
    hide Value;
    hide Eliminates;
    hide Turn;
    hide Inv;
    hide Mod;
    hide Irreducible;
    hide Xor;
    hide BitLen;
    ghost var a, f, m, n := Val(x), c.Law().f, c.degree, 32 * c.nwords;
    var polynomial := Load(c.polynomial);
    var u, v, g := new Word[c.nwords], new Word[c.nwords], new Word[c.nwords];
    var h := new Word[c.nwords];
    ExponentInVector(x[..]);
    Copy(u, x);
    Copy(v, polynomial);
    SetZero(g);
    SetOne(z);
    Divided(a, a, f, m, n);
    var one := IsOne(u);
    while !one
      invariant Eliminates(a, State(u, v, g, z), f, m, n)
      invariant one <==> Val(u) == 1
      decreases BitLen(Val(u)) + BitLen(Val(v))
    {
      TurnEliminates(a, State(u, v, g, z), f, m, n);
      InverseStep(c, u, v, g, z, h);
      one := IsOne(u);
    }
    Eliminated(a, State(u, v, g, z), f, m, n);
  }

  function State(u: array<Word>, v: array<Word>, g: array<Word>, z: array<Word>): Elim
    reads u, v, g, z
  {
    Elim(Val(u), Val(v), Val(g), Val(z))
  }

  // The body of the loop.
  method InverseStep(c: Params, u: array<Word>, v: array<Word>, g: array<Word>, z: array<Word>, h: array<Word>)
    requires u.Length == v.Length == g.Length == z.Length == h.Length == c.nwords > 0
    requires u != v && u != g && u != z && u != h && v != g && v != z && v != h && g != z && g != h && z != h
    modifies u, v, g, z, h
    ensures State(u, v, g, z) == Turn(old(State(u, v, g, z)), 32 * c.nwords)
  {
    hide Value;
    hide Xor;
    hide BitLen;
    hide Shl;
    hide Low;
    ExponentInVector(u[..]);
    ExponentInVector(v[..]);
    var du: int := Degree(u);
    var dv: int := Degree(v);
    var i := du - dv;
    if i < 0 {
      Swap(u, v);
      Swap(g, z);
      i := -i;
    }
    Lshift(h, v, i);
    FieldAdd(u, u, h);
    Lshift(h, g, i);
    FieldAdd(z, z, h);
  }

  // ---- point arithmetic

  function At(x: array<Word>, y: array<Word>): Point
    reads x, y
  {
    Point(Val(x), Val(y))
  }

  ghost predicate Vectors(c: Params, x: array<Word>, y: array<Word>) {
    x.Length == y.Length == c.nwords && x != y
  }

  method PointIsZero(x: array<Word>, y: array<Word>) returns (r: bool)
    ensures r <==> At(x, y) == Zero
  {
    var rx := IsZero(x);
    var ry := IsZero(y);
    return rx && ry;
  }

  method PointSetZero(x: array<Word>, y: array<Word>)
    requires x != y
    modifies x, y
    ensures At(x, y) == Zero
  {
    SetZero(x);
    SetZero(y);
  }

  method PointCopy(x1: array<Word>, y1: array<Word>, x2: array<Word>, y2: array<Word>)
    requires x1.Length == x2.Length && y1.Length == y2.Length && x1 != y1 && x1 != y2
    modifies x1, y1
    ensures At(x1, y1) == old(At(x2, y2))
  {
    Copy(x1, x2);
    Copy(y1, y2);
  }

  // (x, y) := 2 (x, y), if the inversion ends.
  method PointDouble(c: Params, x: array<Word>, y: array<Word>)
    requires c.Valid() && Vectors(c, x, y)
    requires RawDouble(c.Law(), c.Room(), At(x, y)).Finished?
    modifies x, y
    ensures At(x, y) == RawDouble(c.Law(), c.Room(), old(At(x, y))).p
  {
    hide Value;
    hide Product;
    hide Mod;
    hide Inv;
    hide Irreducible;
    hide Xor;
    var zero := IsZero(x);
    if zero {
      SetZero(y);
    } else {
      var l := new Word[c.nwords];
      ModSmall(Val(x), c.Law().f, c.degree);
      FieldInv(c, l, x);
      FieldMul(c, l, l, y);
      FieldAdd(l, l, x);
      FieldMul(c, y, x, x);
      FieldMul(c, x, l, l);
      FieldInc(l);
      FieldAdd(x, x, l);
      FieldMul(c, l, l, x);
      FieldAdd(y, y, l);
    }
  }

  // (x1, y1) := (x1, y1) + (x2, y2), if the inversion ends.
  method PointAdd(c: Params, x1: array<Word>, y1: array<Word>, x2: array<Word>, y2: array<Word>)
    requires c.Valid() && Vectors(c, x1, y1) && Vectors(c, x2, y2)
    requires x1 != x2 && x1 != y2 && y1 != x2 && y1 != y2
    requires RawAdd(c.Law(), c.Room(), At(x1, y1), At(x2, y2)).Finished?
    modifies x1, y1
    ensures At(x1, y1) == RawAdd(c.Law(), c.Room(), old(At(x1, y1)), old(At(x2, y2))).p
  {
    hide Value;
    hide RawDouble;
    hide Product;
    hide Mod;
    hide Inv;
    hide Irreducible;
    hide Xor;
    var zero := PointIsZero(x2, y2);
    if !zero {
      zero := PointIsZero(x1, y1);
      if zero {
        PointCopy(x1, y1, x2, y2);
      } else {
        var sameX := Equal(x1, x2);
        if sameX {
          var sameY := Equal(y1, y2);
          if sameY {
            PointDouble(c, x1, y1);
          } else {
            PointSetZero(x1, y1);
          }
        } else {
          AddDistinct(c, x1, y1, x2, y2);
        }
      }
    }
  }

  // The arithmetic for different x-coordinates.
  method AddDistinct(c: Params, x1: array<Word>, y1: array<Word>, x2: array<Word>, y2: array<Word>)
    requires c.Valid() && Vectors(c, x1, y1) && Vectors(c, x2, y2)
    requires x1 != x2 && x1 != y2 && y1 != x2 && y1 != y2
    requires At(x1, y1) != Zero && At(x2, y2) != Zero && Val(x1) != Val(x2)
    requires RawAdd(c.Law(), c.Room(), At(x1, y1), At(x2, y2)).Finished?
    modifies x1, y1
    ensures At(x1, y1) == RawAdd(c.Law(), c.Room(), old(At(x1, y1)), old(At(x2, y2))).p
  {
    hide Value;
    hide Product;
    hide RawDouble;
    hide Mod;
    hide Inv;
    hide Irreducible;
    hide Xor;
    hide Shl;
    hide BitLen;
    var a, b := new Word[c.nwords], new Word[c.nwords];
    var cc, d := new Word[c.nwords], new Word[c.nwords];
    FieldAdd(a, y1, y2);
    FieldAdd(b, x1, x2);
    ModSmall(Val(b), c.Law().f, c.degree);
    FieldInv(c, cc, b);
    FieldMul(c, cc, cc, a);
    Chord(c, d, cc, b);
    AddAlong(c, x1, y1, d, cc, a);
  }

  // d := l^2 + l + s + 1, the new x-coordinate.
  method Chord(c: Params, d: array<Word>, l: array<Word>, s: array<Word>)
    requires c.Sizes() && Modulus(c.Law().f, c.degree)
    requires d.Length == l.Length == s.Length == c.nwords && d != l && d != s
    modifies d
    ensures Val(d) == Xor(Xor(Xor(Product(Val(l), Val(l), c.Law().f, c.degree, c.Room()), Val(l)), Val(s)), 1)
  {
    hide Value;
    hide Product;
    FieldMul(c, d, l, l);
    FieldAdd(d, d, l);
    FieldAdd(d, d, s);
    FieldInc(d);
  }

  // The new point on the line of slope l; a is scratch space.
  method AddAlong(c: Params, x1: array<Word>, y1: array<Word>, d: array<Word>, l: array<Word>, a: array<Word>)
    requires c.Sizes() && Modulus(c.Law().f, c.degree) && Vectors(c, x1, y1)
    requires d.Length == l.Length == a.Length == c.nwords
    requires a != x1 && a != y1 && a != d && a != l && x1 != d && x1 != l && y1 != d && y1 != l
    modifies x1, y1, a
    ensures Val(x1) == old(Val(d))
    ensures Val(y1) == Xor(old(Val(y1)), Xor(Product(Xor(old(Val(x1)), old(Val(d))), old(Val(l)), c.Law().f, c.degree, c.Room()), old(Val(d))))
  {
    hide Value;
    hide Product;
    FieldAdd(x1, x1, d);
    FieldMul(c, a, x1, l);
    FieldAdd(a, a, d);
    FieldAdd(y1, y1, a);
    Copy(x1, d);
  }

  lemma {:induction false} ShrHalf(a: nat, i: nat)
    ensures Shr(a, i) / 2 == Shr(a, i + 1)
    ensures Shr(a, i) % 2 == if Bit(a, i) then 1 else 0
  {
    ShrBit(a, i);
    if i > 0 { ShrHalf(a / 2, i - 1); }
  }

  lemma {:induction false} RawMulZero(k: Curve, w: nat, p: Point)
    requires k.Valid()
    ensures RawMul(k, w, 0, p) == Finished(Zero)
  {
  }

  // The digits of the exponent down to position i.
  lemma {:induction false} RawMulPrefix(k: Curve, w: nat, n: nat, i: nat, p: Point)
    requires k.Valid() && RawMul(k, w, n, p).Finished? && i < BitLen(n)
    ensures RawMul(k, w, Shr(n, i), p) == RawStep(k, w, RawMul(k, w, Shr(n, i + 1), p), Bit(n, i), p)
    ensures RawMul(k, w, Shr(n, i), p).Finished?
  {
    hide RawDouble;
    hide RawAdd;
    ShrHalf(n, i);
    ShrPositive(n, i);
    if i > 0 { RawMulPrefix(k, w, n, i - 1, p); }
  }

  lemma {:induction false} ShrPositive(n: nat, i: nat)
    requires i < BitLen(n)
    ensures Shr(n, i) > 0
  {
    if i > 0 { ShrPositive(n / 2, i - 1); }
  }

  // (x, y) := exp * (x, y), from the highest set bit down, if every inversion
  // ends; on points of the curve they do.
  method PointMul(c: Params, x: array<Word>, y: array<Word>, exp: array<Word>)
    requires c.Valid() && Vectors(c, x, y) && exp.Length == c.nwords && exp != x && exp != y
    requires RawMul(c.Law(), c.Room(), Val(exp), At(x, y)).Finished?
    modifies x, y
    ensures At(x, y) == RawMul(c.Law(), c.Room(), old(Val(exp)), old(At(x, y))).p
    ensures c.Law().Member(old(At(x, y))) ==>
              && c.Law().Member(At(x, y))
              && At(x, y) == DoubleAdd(c.Law(), old(Val(exp)), old(At(x, y)))
  {
    hide RawMul;
    hide RawStep;
    hide DoubleAdd;
    hide Curve.Member;
    hide Value;
    ghost var k, w, p, n := c.Law(), c.Room(), At(x, y), Val(exp);
    var tmpx, tmpy := new Word[c.nwords], new Word[c.nwords];
    var nbits: int := Degree(exp);
    PointSetZero(tmpx, tmpy);
    BitLenBound(n, nbits);
    ShrBound(n, 0, nbits);
    ExponentInVector(exp[..]);
    RawMulZero(k, w, p);
    var i := nbits - 1;
    while i >= 0
      invariant -1 <= i < nbits
      invariant Finished(At(tmpx, tmpy)) == RawMul(k, w, Shr(n, i + 1), p)
      invariant At(x, y) == p && Val(exp) == n
    {
      RawMulPrefix(k, w, n, i, p);
      MulStep(c, tmpx, tmpy, x, y, exp, i);
      i := i - 1;
    }
    PointCopy(x, y, tmpx, tmpy);
    if k.Member(p) { RawMulMember(k, w, n, p); }
  }

  // The body of the loop: bit i of the exponent.
  method MulStep(c: Params, tmpx: array<Word>, tmpy: array<Word>, x: array<Word>, y: array<Word>, exp: array<Word>, i: nat)
    requires c.Valid() && Vectors(c, tmpx, tmpy) && Vectors(c, x, y) && i < 32 * exp.Length
    requires tmpx != x && tmpx != y && tmpy != x && tmpy != y && exp != tmpx && exp != tmpy
    requires RawStep(c.Law(), c.Room(), Finished(At(tmpx, tmpy)), Bit(Val(exp), i), At(x, y)).Finished?
    modifies tmpx, tmpy
    ensures Finished(At(tmpx, tmpy))
            == RawStep(c.Law(), c.Room(), Finished(old(At(tmpx, tmpy))), Bit(Val(exp), i), At(x, y))
  {
    hide RawDouble;
    hide RawAdd;
    hide Value;
    hide Bit;
    PointDouble(c, tmpx, tmpy);
    var bit := GetBit(exp, i);
    if bit != 0 {
      PointAdd(c, tmpx, tmpy, x, y);
    }
  }

  lemma {:induction false} ExponentInVector(s: seq<Word>)
    ensures BitLen(Value(s)) <= 32 * |s|
  {
    ValueBound(s);
    BitLenBound(Value(s), 32 * |s|);
  }

  // The check of a received public key, on any pair of vectors.
  method OnCurve(c: Params, x: array<Word>, y: array<Word>) returns (r: bool)
    requires c.Valid() && Vectors(c, x, y)
    ensures r <==> Accepts(c.Law(), c.Room(), At(x, y))
    ensures Val(x) < Pow2(c.degree) && Val(y) < Pow2(c.degree) ==> (r <==> c.Law().Member(At(x, y)))
  {
    hide Accepts;
    hide Product;
    hide Value;
    hide Curve.Member;
    hide Xor;
    hide Irreducible;
    ghost var k, w, p := c.Law(), c.Room(), At(x, y);
    if k.Elem(p.x) && k.Elem(p.y) { AcceptsReduced(k, w, p); }
    AcceptsZero(k, w);
    var zero := PointIsZero(x, y);
    if zero {
      return true;
    }
    var a, b := new Word[c.nwords], new Word[c.nwords];
    var coeffB := Load(c.coeffB);
    FieldMul(c, a, x, x);
    FieldMul(c, b, a, x);
    FieldAdd(a, a, b);
    FieldAdd(a, a, coeffB);
    FieldMul(c, b, y, y);
    FieldAdd(a, a, b);
    FieldMul(c, b, x, y);
    r := Equal(a, b);
    CheckAccepts(k, w, p);
  }

  // ---- key exchange

  // Clears the private key above the order and multiplies the base point; the
  // key is left alone when the random number is too short.
  method GenerateKeys(c: Params, publicX: array<Word>, publicY: array<Word>, private_: array<Word>) returns (ok: bool)
    requires c.Valid() && Vectors(c, publicX, publicY)
    requires private_.Length == c.nwords && private_ != publicX && private_ != publicY
    modifies publicX, publicY, private_
    ensures ok <==> BitLen(old(Val(private_))) >= c.degree / 2
    ensures !ok ==> Val(private_) == old(Val(private_)) && At(publicX, publicY) == c.Base()
    ensures ok ==> Val(private_) == c.Key(old(Val(private_))) < Value(c.baseOrder)
    ensures ok ==> At(publicX, publicY) == c.Public(old(Val(private_))) == DoubleAdd(c.Law(), Val(private_), c.Base())
    ensures c.Law().Member(At(publicX, publicY))
  {
    hide Shl;
    hide Bit;
    hide Curve.Add;
    hide Curve.Double;
    hide DoubleAdd;
    hide Curve.Member;
    hide Low;
    hide BitLen;
    hide RawMul;
    hide Params.Key;
    hide Value;
    var baseX := Load(c.baseX);
    var baseY := Load(c.baseY);
    PointCopy(publicX, publicY, baseX, baseY);
    var bits := Degree(private_);
    if bits < c.degree / 2 {
      return false;
    }
    ghost var r := Val(private_);
    ClearKey(c, private_);
    RawMulMember(c.Law(), c.Room(), c.Key(r), c.Base());
    PointMul(c, publicX, publicY, private_);
    return true;
  }

  // Cuts a random number down to a key.
  method ClearKey(c: Params, private_: array<Word>)
    requires c.Sizes() && Value(c.baseOrder) > 0 && private_.Length == c.nwords
    modifies private_
    ensures Val(private_) == c.Key(old(Val(private_))) < Value(c.baseOrder)
  {
    var order := Load(c.baseOrder);
    var nbits := Degree(order);
    BitLenPositive(Value(c.baseOrder));
    ExponentInVector(c.baseOrder);
    LowBound(Val(private_), nbits - 1);
    BitLenBound(Value(c.baseOrder), nbits - 1);
    ClearFrom(private_, nbits - 1);
  }

  // Clears every bit from position n up.
  method ClearFrom(x: array<Word>, n: nat)
    requires n <= 32 * x.Length
    modifies x
    ensures Val(x) == Low(old(Val(x)), n)
  {
    ghost var a := Val(x);
    var i := n;
    while i < x.Length * 32
      invariant n <= i <= x.Length * 32
      invariant forall k: nat :: Bit(Val(x), k) <==> Bit(a, k) && !(n <= k < i)
    {
      ClearBit(x, i);
      i := i + 1;
    }
    LowBound(a, n);
    forall k: nat ensures Bit(Val(x), k) <==> Bit(Low(a, n), k) {
      if k >= 32 * x.Length { BitBeyond(x[..], k); }
    }
    SameBits(Val(x), Low(a, n));
  }

  // Validates the other side's key and multiplies it by the own private key.
  // The multiplication of an accepted key ends if the key is reduced.
  method SharedSecret(c: Params, private_: array<Word>, otherX: array<Word>, otherY: array<Word>,
                      outX: array<Word>, outY: array<Word>) returns (ok: bool)
    requires c.Valid() && Vectors(c, otherX, otherY) && Vectors(c, outX, outY)
    requires private_.Length == c.nwords && private_ != outX && private_ != outY
    requires outX != otherX && outX != otherY && outY != otherX && outY != otherY
    requires Accepts(c.Law(), c.Room(), At(otherX, otherY)) ==>
               RawMul(c.Law(), c.Room(), Val(private_), At(otherX, otherY)).Finished?
    modifies outX, outY
    ensures ok <==> At(otherX, otherY) != Zero && Accepts(c.Law(), c.Room(), At(otherX, otherY))
    ensures ok ==> At(outX, outY) == RawMul(c.Law(), c.Room(), Val(private_), At(otherX, otherY)).p
    ensures !ok ==> At(outX, outY) == old(At(outX, outY))
  {
    hide Value;
    hide Accepts;
    hide RawMul;
    hide DoubleAdd;
    hide Curve.Member;
    var zero := PointIsZero(otherX, otherY);
    var valid := false;
    if !zero {
      valid := OnCurve(c, otherX, otherY);
    }
    if !zero && valid {
      PointCopy(outX, outY, otherX, otherY);
      PointMul(c, outX, outY, private_);
      return true;
    }
    return false;
  }

  // For a reduced key the condition of SharedSecret holds, the accepted keys
  // are the finite points on the curve, and the product is one of its points.
  lemma {:induction false} SharedSecretReduced(c: Params, k: nat, p: Point)
    requires c.Valid() && p.x < Pow2(c.degree) && p.y < Pow2(c.degree)
    ensures Accepts(c.Law(), c.Room(), p) <==> c.Law().Member(p)
    ensures Accepts(c.Law(), c.Room(), p) ==>
              && RawMul(c.Law(), c.Room(), k, p) == Finished(DoubleAdd(c.Law(), k, p))
              && c.Law().Member(DoubleAdd(c.Law(), k, p))
  {
    hide Accepts;
    hide RawMul;
    AcceptsReduced(c.Law(), c.Room(), p);
    if c.Law().Member(p) { RawMulMember(c.Law(), c.Room(), k, p); }
  }

  lemma {:induction false} AcceptsMember(c: Params, k: nat, p: Point)
    requires c.Valid() && c.Law().Member(p)
    ensures Accepts(c.Law(), c.Room(), p) && RawMul(c.Law(), c.Room(), k, p) == Finished(DoubleAdd(c.Law(), k, p))
    ensures c.Law().Member(DoubleAdd(c.Law(), k, p))
  {
    SharedSecretReduced(c, k, p);
  }

  // A key that is accepted although it is no point: the base point with the
  // top digit of both coordinates set.
  lemma {:induction false} AcceptedOffCurve(c: Params)
    requires c.Valid() && c.Base() != Zero
    ensures var p := Point(Value(c.baseX) + Pow2(32 * c.nwords - 1), Value(c.baseY) + Pow2(32 * c.nwords - 1));
            && p.x < Pow2(32 * c.nwords) && p.y < Pow2(32 * c.nwords)
            && Accepts(c.Law(), c.Room(), p) && !c.Law().Member(p)
  {
    hide Value;
    hide Accepts;
    hide Curve.Member;
    AcceptsTwin(c.Law(), c.Room(), c.Base());
  }

  // Two parties that exchange the keys they generated. With random numbers
  // that are long enough each side accepts exactly if the other one's public
  // point is finite, and if both do they hold the same point.
  method Exchange(c: Params, privA: array<Word>, privB: array<Word>)
    returns (okA: bool, okB: bool, ax: array<Word>, ay: array<Word>, bx: array<Word>, bz: array<Word>)
    requires c.Valid() && Associative(c.Law())
    requires privA.Length == privB.Length == c.nwords && privA != privB
    modifies privA, privB
    ensures ax.Length == ay.Length == bx.Length == bz.Length == c.nwords
    ensures okA <==> c.Long(old(Val(privA))) && c.Long(old(Val(privB))) && c.Public(old(Val(privB))) != Zero
    ensures okB <==> c.Long(old(Val(privA))) && c.Long(old(Val(privB))) && c.Public(old(Val(privA))) != Zero
    ensures okA && okB ==> At(ax, ay) == At(bx, bz) == DoubleAdd(c.Law(), c.Key(old(Val(privA))), c.Public(old(Val(privB))))
    ensures okA && okB ==> c.Law().Member(At(ax, ay))
  {
    hide Shl;
    hide Params.Long;
    hide Params.Key;
    hide Associative;
    hide Bit;
    hide DoubleAdd;
    hide Curve.Member;
    hide Curve.Add;
    hide Curve.Double;
    hide Low;
    hide BitLen;
    hide Value;
    var pubAx, pubAy := new Word[c.nwords], new Word[c.nwords];
    var pubBx, pubBy := new Word[c.nwords], new Word[c.nwords];
    ax, ay := new Word[c.nwords], new Word[c.nwords];
    bx, bz := new Word[c.nwords], new Word[c.nwords];
    var ok := BothKeys(c, pubAx, pubAy, privA, pubBx, pubBy, privB);
    if ok {
      okA, okB := BothSecrets(c, privA, privB, pubAx, pubAy, pubBx, pubBy, ax, ay, bx, bz);
    } else {
      okA, okB := false, false;
    }
  }

  // Each side generates its keys.
  method BothKeys(c: Params, pubAx: array<Word>, pubAy: array<Word>, privA: array<Word>,
                  pubBx: array<Word>, pubBy: array<Word>, privB: array<Word>) returns (ok: bool)
    requires c.Valid() && Vectors(c, pubAx, pubAy) && Vectors(c, pubBx, pubBy)
    requires privA.Length == privB.Length == c.nwords && privA != privB
    requires {pubAx, pubAy} !! {pubBx, pubBy} && {privA, privB} !! {pubAx, pubAy, pubBx, pubBy}
    modifies pubAx, pubAy, privA, pubBx, pubBy, privB
    ensures ok <==> c.Long(old(Val(privA))) && c.Long(old(Val(privB)))
    ensures ok ==> Val(privA) == c.Key(old(Val(privA))) && Val(privB) == c.Key(old(Val(privB)))
    ensures ok ==> At(pubAx, pubAy) == c.Public(old(Val(privA))) && At(pubBx, pubBy) == c.Public(old(Val(privB)))
    ensures c.Law().Member(At(pubAx, pubAy)) && c.Law().Member(At(pubBx, pubBy))
  {
    hide Params.Public;
    hide Params.Key;
    hide BitLen;
    hide Curve.Member;
    hide Value;
    hide Shl;
    var okA := GenerateKeys(c, pubAx, pubAy, privA);
    var okB := GenerateKeys(c, pubBx, pubBy, privB);
    ok := okA && okB;
  }

  // Each side multiplies the other's public point by its own key.
  method BothSecrets(c: Params, privA: array<Word>, privB: array<Word>, pubAx: array<Word>, pubAy: array<Word>,
                     pubBx: array<Word>, pubBy: array<Word>, ax: array<Word>, ay: array<Word>, bx: array<Word>, bz: array<Word>)
    returns (okA: bool, okB: bool)
    requires c.Valid() && Associative(c.Law())
    requires privA.Length == privB.Length == c.nwords
    requires Vectors(c, pubAx, pubAy) && Vectors(c, pubBx, pubBy) && Vectors(c, ax, ay) && Vectors(c, bx, bz)
    requires {ax, ay} !! {bx, bz} && {ax, ay, bx, bz} !! {privA, privB, pubAx, pubAy, pubBx, pubBy}
    requires At(pubAx, pubAy) == DoubleAdd(c.Law(), Val(privA), c.Base())
    requires At(pubBx, pubBy) == DoubleAdd(c.Law(), Val(privB), c.Base())
    requires c.Law().Member(c.Base()) && c.Law().Member(At(pubAx, pubAy)) && c.Law().Member(At(pubBx, pubBy))
    modifies ax, ay, bx, bz
    ensures okA <==> At(pubBx, pubBy) != Zero
    ensures okB <==> At(pubAx, pubAy) != Zero
    ensures okA && okB ==> At(ax, ay) == At(bx, bz) && c.Law().Member(At(ax, ay))
    ensures okA ==> At(ax, ay) == DoubleAdd(c.Law(), Val(privA), At(pubBx, pubBy))
  {
    hide DoubleAdd;
    hide Curve.Member;
    hide Curve.Add;
    hide Curve.Double;
    hide BitLen;
    hide Value;
    hide Shl;
    hide Accepts;
    hide RawMul;
    AcceptsMember(c, Val(privB), At(pubAx, pubAy));
    AcceptsMember(c, Val(privA), At(pubBx, pubBy));
    SharedSecretAgrees(c.Law(), Val(privA), Val(privB), c.Base());
    okA := SharedSecret(c, privA, pubBx, pubBy, ax, ay);
    okB := SharedSecret(c, privB, pubAx, pubAy, bx, bz);
  }

  // The comment beside the clearing promises 1 <= key < order. The upper bound
  // always holds; the lower one exactly when some bit below the top of the
  // order is set, because the length check comes before the clearing. The key
  // has exactly these bits of the random number.
  lemma {:induction false} PrivateKeyNonZero(c: Params, r: nat)
    requires Value(c.baseOrder) > 0
    ensures c.Key(r) < Value(c.baseOrder)
    ensures c.Key(r) >= 1 <==> exists k: nat :: k + 1 < BitLen(Value(c.baseOrder)) && Bit(r, k)
    ensures forall k: nat :: Bit(c.Key(r), k) <==> k + 1 < BitLen(Value(c.baseOrder)) && Bit(r, k)
  {
    hide Value;
    var order := Value(c.baseOrder);
    BitLenPositive(order);
    LowNonZero(r, BitLen(order) - 1, order);
    LowBound(r, BitLen(order) - 1);
  }

  lemma {:induction false} LowNonZero(r: nat, n: nat, order: nat)
    requires BitLen(order) == n + 1
    ensures Low(r, n) < order
    ensures Low(r, n) >= 1 <==> exists k: nat :: k < n && Bit(r, k)
  {
    var l := Low(r, n);
    LowBound(r, n);
    BitLenBound(order, n);
    BitLenTop(l);
    if l >= 1 {
      BitLenBound(l, n);
      var t: nat := BitLen(l) - 1;
      assert Bit(l, t);
      assert t < n && Bit(r, t);
      assert exists k: nat :: k < n && Bit(r, k);
    } else {
      forall k: nat | k < n ensures !Bit(r, k) {
        BitZero(k);
        assert !Bit(l, k);
      }
    }
  }

  // A random number that passes the length check and is cleared to 0: only
  // the top bit of the order is set. B163Sizes gives the hypothesis for B-163.
  lemma {:induction false} PrivateKeyCleared(c: Params)
    requires c.degree >= 1 && BitLen(Value(c.baseOrder)) == c.degree
    ensures BitLen(Pow2(c.degree - 1)) >= c.degree / 2
    ensures Low(Pow2(c.degree - 1), BitLen(Value(c.baseOrder)) - 1) == 0
  {
    var n := c.degree - 1;
    BitLenShl(1, n);
    LowShl(1, n, 0);
    BitLenShl(0, n);
  }
}
