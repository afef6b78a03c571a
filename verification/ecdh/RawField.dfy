// What gf2field_mul and gf2point_on_curve of misc/tinyECDH/ecdh.c compute on
// vectors that are not reduced. A vector has m + w digits: m of a field
// element and a margin of w above them, which no operation clears.
module RawField {
  import opened Bits
  import opened Field
  import opened WordVector

  // The number with the lowest m digits l and the digits h above them.
  function Wide(l: nat, h: nat, m: nat): nat {
    l + Shl(h, m)
  }

  // The factor 2^n of the left operand, reduced as the loop reduces it.
  function Power(x: nat, n: nat, f: nat, m: nat, w: nat): nat {
    Wide(Mod(Shl(Low(x, m), n), f, m), Low(Shl(Shr(x, m), n), w), m)
  }

  // The product as far as the lowest n digits of y go.
  function Partial(x: nat, y: nat, n: nat, f: nat, m: nat, w: nat): nat {
    Wide(Mul(Low(x, m), Low(y, n), f, m), Low(PMul(Shr(x, m), Low(y, n)), w), m)
  }

  // The field product of the low parts; above it, the margin of x times the
  // low part of y as far as there is room.
  function Product(x: nat, y: nat, f: nat, m: nat, w: nat): nat {
    Partial(x, y, m, f, m, w)
  }

  // ---- low and high parts

  lemma {:induction false} Parts(x: nat, m: nat)
    ensures x == Wide(Low(x, m), Shr(x, m), m) && Low(x, m) < Pow2(m)
  {
    var r := ShrSplit(x, m);
    LowParts(r, Shr(x, m), m, 0);
    BitLenShl(0, m);
    assert m + 0 == m;
  }

  lemma {:induction false} WideParts(l: nat, h: nat, m: nat)
    requires l < Pow2(m)
    ensures Low(Wide(l, h, m), m) == l && Shr(Wide(l, h, m), m) == h
  {
    Parts(Wide(l, h, m), m);
    SplitUnique(h, l, Shr(Wide(l, h, m), m), Low(Wide(l, h, m), m), m);
  }

  lemma {:induction false} ReducedParts(x: nat, m: nat)
    ensures x < Pow2(m) <==> Shr(x, m) == 0
    ensures x < Pow2(m) ==> Low(x, m) == x
  {
    hide Low;
    hide Shr;
    Parts(x, m);
    ShlMono(1, Shr(x, m), m);
    BitLenShl(0, m);
  }

  lemma {:induction false} WideXor(l: nat, h: nat, k: nat, g: nat, m: nat)
    requires l < Pow2(m) && k < Pow2(m)
    ensures Xor(Wide(l, h, m), Wide(k, g, m)) == Wide(Xor(l, k), Xor(h, g), m) && Xor(l, k) < Pow2(m)
  {
    XorParts(l, h, k, g, m);
  }

  lemma {:induction false} LowXor(a: nat, b: nat, n: nat)
    ensures Low(Xor(a, b), n) == Xor(Low(a, n), Low(b, n))
  {
    LowBound(a, n);
    LowBound(b, n);
    LowBound(Xor(a, b), n);
    XorBits();
    var l, r := Low(Xor(a, b), n), Xor(Low(a, n), Low(b, n));
    forall k: nat ensures Bit(l, k) <==> Bit(r, k) {
      assert Bit(l, k) <==> k < n && Bit(Xor(a, b), k);
    }
    SameBits(l, r);
  }

  lemma {:induction false} LowDouble(a: nat, n: nat)
    ensures Low(2 * Low(a, n), n) == Low(2 * a, n)
    ensures Low(2 * a, n + 1) == 2 * Low(a, n)
  {
    ShlLow(a, 1, n);
    LowShl(a, 1, n);
    Shl1(a);
    Shl1(Low(a, n));
  }

  lemma {:induction false} Shl1(a: nat)
    ensures Shl(a, 1) == 2 * a
  {
  }

  // The lowest digits of a product depend on the lowest digits of its factors.
  lemma {:induction false} LowPMul(a: nat, b: nat, n: nat)
    ensures Low(PMul(Low(a, n), b), n) == Low(PMul(a, b), n)
    decreases b
  {
    if b > 0 {
      LowPMul(a, b / 2, n);
      LowLow(a, n, 0);
      var c, p, q := if b % 2 == 1 then a else 0, PMul(a, b / 2), PMul(Low(a, n), b / 2);
      var d := if b % 2 == 1 then Low(a, n) else 0;
      LowXor(c, 2 * p, n);
      LowXor(d, 2 * q, n);
      LowDouble(p, n);
      LowDouble(q, n);
    }
  }

  // ---- multiplication

  lemma {:induction false} PowerStart(x: nat, f: nat, m: nat, w: nat)
    requires Modulus(f, m) && x < Pow2(m + w)
    ensures Power(x, 0, f, m, w) == x
  {
    hide Mod;
    hide Low;
    hide Shr;
    Parts(x, m);
    ModSmall(Low(x, m), f, m);
    ShrBelow(x, m, w);
    LowBound(Shr(x, m), w);
    ShlZero(Low(x, m));
    ShlZero(Shr(x, m));
  }

  lemma {:induction false} ShlZero(a: nat)
    ensures Shl(a, 0) == a
  {
  }

  lemma {:induction false} ShrBelow(x: nat, m: nat, w: nat)
    requires x < Pow2(m + w)
    ensures Shr(x, m) < Pow2(w)
  {
    assert m + w == w + m;
    ShrBound(x, w, m);
  }

  // One turn: the shift drops the top digit of the margin, the reduction acts
  // on the low part.
  lemma {:induction false} PowerNext(x: nat, n: nat, f: nat, m: nat, w: nat)
    requires Modulus(f, m) && w >= 1
    ensures Power(x, n + 1, f, m, w) == Reduce(Low(Shl(Power(x, n, f, m, w), 1), m + w), f, m)
  {
    hide Mod;
    hide Low;
    hide Shr;
    hide Reduce;
    var a, h := Shl(Low(x, m), n), Shl(Shr(x, m), n);
    var t, g := Mod(a, f, m), Low(h, w);
    ModSmall(a, f, m);
    ModDouble(a, f, m);
    LowDouble(h, w);
    ShiftedWide(t, g, m, w);
    var k := Low(g, w - 1);
    ReduceWide(2 * t, k, f, m);
    LowDouble(g, w - 1);
    Shl1(Power(x, n, f, m, w));
    ShlDouble(k, m);
  }

  lemma {:induction false} ShiftedWide(t: nat, g: nat, m: nat, w: nat)
    requires w >= 1 && t < Pow2(m)
    ensures Low(2 * Wide(t, g, m), m + w) == Wide(2 * t, Low(g, w - 1), m + 1) && 2 * t < Pow2(m + 1)
  {
    LowParts(2 * t, g, m + 1, w - 1);
    assert m + 1 + (w - 1) == m + w;
  }

  lemma {:induction false} ReduceWide(t: nat, k: nat, f: nat, m: nat)
    requires Modulus(f, m) && t < Pow2(m + 1)
    ensures Reduce(Wide(t, k, m + 1), f, m) == Wide(Reduce(t, f, m), k, m + 1)
  {
    BitLowPart(t, k, m + 1, m);
    BitLenBound(f, m + 1);
    WideXor(t, k, f, 0, m + 1);
    BitLenShl(0, m + 1);
    XorZero(k);
  }

  lemma {:induction false} PartialStart(x: nat, y: nat, f: nat, m: nat, w: nat)
    requires Modulus(f, m) && x < Pow2(m + w)
    ensures Partial(x, y, 1, f, m, w) == if Bit(y, 0) then x else 0
  {
    hide Mod;
    hide Shr;
    assert Low(y, 1) == y % 2;
    PowerStart(x, f, m, w);
    PMulOne(Low(x, m));
    PMulOne(Shr(x, m));
    ModSmall(0, f, m);
    LowBound(0, w);
    BitLenShl(0, m);
    ShlZero(Low(x, m));
    ShlZero(Shr(x, m));
  }

  // The partial product over the lowest n digits of b, and the next one.
  lemma {:induction false} PMulLow(a: nat, b: nat, n: nat)
    ensures PMul(a, Low(b, n + 1)) == Xor(PMul(a, Low(b, n)), if Bit(b, n) then Shl(a, n) else 0)
  {
    hide PMul;
    hide Xor;
    PMulLowUnfold(a, b, n);
    if n == 0 {
      XorZero(if b % 2 == 1 then a else 0);
      PMulAtZero(a, b / 2);
    } else {
      hide Low;
      PMulLow(a, b / 2, n - 1);
      PMulLowUnfold(a, b, n - 1);
      var x, p, q := if b % 2 == 1 then a else 0, PMul(a, Low(b / 2, n - 1)), if Bit(b, n) then Shl(a, n - 1) else 0;
      XorDouble(p, q);
      XorAssoc(x, 2 * p, 2 * q);
    }
  }

  lemma {:induction false} PMulAtZero(a: nat, b: nat)
    ensures PMul(a, Low(b, 0)) == 0
  {
  }

  lemma {:induction false} PMulLowUnfold(a: nat, b: nat, n: nat)
    ensures PMul(a, Low(b, n + 1)) == Xor(if b % 2 == 1 then a else 0, 2 * PMul(a, Low(b / 2, n)))
  {
    PMulOdd(a, Low(b / 2, n), b % 2);
  }

  lemma {:induction false} PartialNext(x: nat, y: nat, n: nat, f: nat, m: nat, w: nat)
    requires Modulus(f, m)
    ensures Partial(x, y, n + 1, f, m, w)
            == if Bit(y, n) then Xor(Partial(x, y, n, f, m, w), Power(x, n, f, m, w)) else Partial(x, y, n, f, m, w)
  {
    hide Mod;
    hide Low;
    hide Shr;
    hide Bit;
    hide Xor;
    hide Shl;
    hide PMul;
    var l, h := Low(x, m), Shr(x, m);
    PMulLow(l, y, n);
    PMulLow(h, y, n);
    var p, q := PMul(l, Low(y, n)), PMul(h, Low(y, n));
    XorZero(p);
    XorZero(q);
    if Bit(y, n) {
      ModXor(p, Shl(l, n), f, m);
      LowXor(q, Shl(h, n), w);
      ModSmall(p, f, m);
      ModSmall(Shl(l, n), f, m);
      WideXor(Mod(p, f, m), Low(q, w), Mod(Shl(l, n), f, m), Low(Shl(h, n), w), m);
    }
  }

  // On reduced operands this is the product in the field.
  lemma {:induction false} ProductReduced(x: nat, y: nat, f: nat, m: nat, w: nat)
    requires Modulus(f, m) && x < Pow2(m)
    ensures Product(x, y, f, m, w) == Mul(x, Low(y, m), f, m) < Pow2(m)
    ensures y < Pow2(m) ==> Product(x, y, f, m, w) == Mul(x, y, f, m)
  {
    hide Low;
    hide Shr;
    hide Mul;
    ReducedParts(x, m);
    ReducedParts(y, m);
    PMulZero(Low(y, m));
    LowBound(0, w);
    BitLenBound(0, w);
    BitLenShl(0, m);
    MulReduced(x, Low(y, m), f, m);
  }

  lemma {:induction false} ProductParts(x: nat, y: nat, f: nat, m: nat, w: nat)
    requires Modulus(f, m)
    ensures var z := Product(x, y, f, m, w);
            && Low(z, m) == Mul(Low(x, m), Low(y, m), f, m) < Pow2(m)
            && Shr(z, m) == Low(PMul(Shr(x, m), Low(y, m)), w)
  {
    hide Low;
    hide Shr;
    hide Mul;
    MulReduced(Low(x, m), Low(y, m), f, m);
    WideParts(Mul(Low(x, m), Low(y, m), f, m), Low(PMul(Shr(x, m), Low(y, m)), w), m);
  }

  // ---- inversion

  // The vectors of gf2field_inv.
  datatype Elim = Elim(u: nat, v: nat, g: nat, z: nat)

  function Start(x: nat, f: nat): Elim {
    Elim(x, f, 0, 1)
  }

  // One turn of its loop on vectors of n digits.
  function Turn(s: Elim, n: nat): Elim {
    if BitLen(s.u) >= BitLen(s.v) then
      var i := BitLen(s.u) - BitLen(s.v);
      Elim(Xor(s.u, Low(Shl(s.v, i), n)), s.v, s.g, Xor(s.z, Low(Shl(s.g, i), n)))
    else
      var i := BitLen(s.v) - BitLen(s.u);
      Elim(Xor(s.v, Low(Shl(s.u, i), n)), s.u, s.z, Xor(s.g, Low(Shl(s.z, i), n)))
  }

  function Turns(s: Elim, k: nat, n: nat): Elim
    decreases k
  {
    if k == 0 then s else Turns(Turn(s, n), k - 1, n)
  }

  // While u is longer than a field element the turns are a long division by
  // f; from then on the invariant of Euclid's algorithm holds for x modulo f.
  ghost predicate Eliminates(x: nat, s: Elim, f: nat, m: nat, n: nat) {
    || (s == Start(s.u, f) && m < BitLen(s.u) <= n && Mod(s.u, f, m) == Mod(x, f, m))
    || Euclid(Mod(x, f, m), s.u, s.v, s.g, s.z, f, m)
  }

  lemma {:induction false} Divided(x: nat, u: nat, f: nat, m: nat, n: nat)
    requires Modulus(f, m) && Irreducible(f)
    requires Mod(u, f, m) == Mod(x, f, m) != 0 && BitLen(u) <= n
    ensures Eliminates(x, Start(u, f), f, m, n)
  {
    if BitLen(u) <= m {
      BitLenBound(u, m);
      ModSmall(u, f, m);
      EuclidStart(u, f, m);
    }
  }

  lemma {:induction false} LowFits(a: nat, n: nat)
    requires BitLen(a) <= n
    ensures Low(a, n) == a
  {
    BitLenBound(a, n);
    LowBound(a, n);
  }

  lemma {:induction false} BitLenPositive(a: nat)
    ensures BitLen(a) > 0 <==> a > 0
  {
  }

  lemma {:induction false} ModShlZero(a: nat, i: nat, f: nat, m: nat)
    requires Modulus(f, m) && Mod(a, f, m) == 0
    ensures Mod(Shl(a, i), f, m) == 0
  {
    ModShl(a, 0, i, f, m);
    BitLenShl(0, i);
  }

  // A turn that shifts v below the leading digit of u.
  lemma {:induction false} ShiftedTurn(u: nat, v: nat, i: nat, f: nat, m: nat, n: nat)
    requires Modulus(f, m) && i == BitLen(u) - BitLen(v) && BitLen(u) <= n
    ensures Low(Shl(v, i), n) == Shl(v, i)
    ensures Mod(v, f, m) == 0 ==> Mod(Xor(u, Shl(v, i)), f, m) == Mod(u, f, m)
    ensures u > 0 && v > 0 ==> BitLen(Xor(u, Shl(v, i))) < BitLen(u)
    ensures BitLen(Xor(u, Shl(v, i))) <= n
  {
    hide Mod;
    hide Xor;
    hide BitLen;
    BitLenPositive(u);
    BitLenPositive(v);
    BitLenShl(v, i);
    LowFits(Shl(v, i), n);
    BitLenXor(u, Shl(v, i));
    if Mod(v, f, m) == 0 {
      ModXor(u, Shl(v, i), f, m);
      ModShlZero(v, i, f, m);
      XorZero(Mod(u, f, m));
    }
  }

  // A turn keeps the invariant and makes u and v shorter.
  lemma {:induction false} TurnEliminates(x: nat, s: Elim, f: nat, m: nat, n: nat)
    requires Modulus(f, m) && Irreducible(f) && Mod(x, f, m) != 0 && m + 1 <= n
    requires Eliminates(x, s, f, m, n) && s.u != 1
    ensures Eliminates(x, Turn(s, n), f, m, n)
    ensures var t := Turn(s, n); BitLen(t.u) + BitLen(t.v) < BitLen(s.u) + BitLen(s.v)
  {
    hide Mod;
    hide Euclid;
    hide Xor;
    hide Low;
    hide Irreducible;
    hide BitLen;
    hide Shl;
    BitLenPositive(s.u);
    BitLenPositive(f);
    if Euclid(Mod(x, f, m), s.u, s.v, s.g, s.z, f, m) {
      TurnEuclid(Mod(x, f, m), s, f, m, n);
    } else {
      var i := BitLen(s.u) - BitLen(f);
      ModOfModulus(f, m);
      ShiftedTurn(s.u, f, i, f, m, n);
      BitLenShl(0, i);
      BitLenPositive(0);
      LowFits(0, n);
      XorZero(1);
      Divided(x, Xor(s.u, Shl(f, i)), f, m, n);
    }
  }

  lemma {:induction false} TurnEuclid(x: nat, s: Elim, f: nat, m: nat, n: nat)
    requires Modulus(f, m) && m + 1 <= n && s.u != 1
    requires Euclid(x, s.u, s.v, s.g, s.z, f, m)
    ensures var t := Turn(s, n); Euclid(x, t.u, t.v, t.g, t.z, f, m)
    ensures var t := Turn(s, n); BitLen(t.u) + BitLen(t.v) < BitLen(s.u) + BitLen(s.v)
  {
    hide Euclid;
    hide Xor;
    hide Low;
    hide Shl;
    hide BitLen;
    if BitLen(s.u) >= BitLen(s.v) {
      SubtractEuclid(x, s, BitLen(s.u) - BitLen(s.v), f, m, n);
    } else {
      EuclidSwap(x, s.u, s.v, s.g, s.z, f, m);
      SubtractEuclid(x, Elim(s.v, s.u, s.z, s.g), BitLen(s.v) - BitLen(s.u), f, m, n);
    }
  }

  lemma {:induction false} SubtractEuclid(x: nat, s: Elim, i: nat, f: nat, m: nat, n: nat)
    requires Modulus(f, m) && m + 1 <= n && i == BitLen(s.u) - BitLen(s.v)
    requires Euclid(x, s.u, s.v, s.g, s.z, f, m)
    ensures Euclid(x, Xor(s.u, Low(Shl(s.v, i), n)), s.v, s.g, Xor(s.z, Low(Shl(s.g, i), n)), f, m)
    ensures BitLen(Xor(s.u, Low(Shl(s.v, i), n))) < BitLen(s.u)
  {
    hide Euclid;
    EuclidStep(x, s.u, s.v, s.g, s.z, i, f, m);
    LowFits(Shl(s.v, i), n);
    LowFits(Shl(s.g, i), n);
  }

  // u = 1 gives the inverse of x modulo f.
  lemma {:induction false} Eliminated(x: nat, s: Elim, f: nat, m: nat, n: nat)
    requires Modulus(f, m) && Irreducible(f) && 0 < Mod(x, f, m) < Pow2(m)
    requires Eliminates(x, s, f, m, n) && s.u == 1
    ensures s.z == Inv(Mod(x, f, m), f, m)
  {
    hide Mod;
    hide Euclid;
    hide Inv;
    var a := Mod(x, f, m);
    EuclidDone(a, s.v, s.g, s.z, f, m);
    InverseUnique(a, s.z, Inv(a, f, m), f, m);
  }

  lemma {:induction false} EliminationEnds(x: nat, s: Elim, f: nat, m: nat, n: nat) returns (k: nat)
    requires Modulus(f, m) && Irreducible(f) && Mod(x, f, m) != 0 && m + 1 <= n
    requires Eliminates(x, s, f, m, n)
    ensures Turns(s, k, n).u == 1
    decreases BitLen(s.u) + BitLen(s.v)
  {
    hide Eliminates;
    hide Turn;
    if s.u == 1 {
      k := 0;
    } else {
      TurnEliminates(x, s, f, m, n);
      k := EliminationEnds(x, Turn(s, n), f, m, n);
      k := k + 1;
    }
  }

  // Once f divides u and v it always does, and u is never 1.
  lemma {:induction false} Endless(s: Elim, k: nat, f: nat, m: nat, n: nat)
    requires Modulus(f, m) && Multiples(s, f, m, n)
    ensures Turns(s, k, n).u != 1
    decreases k
  {
    hide Multiples;
    hide Turn;
    if k > 0 {
      MultiplesTurn(s, f, m, n);
      Endless(Turn(s, n), k - 1, f, m, n);
    } else {
      NotOne(s, f, m, n);
    }
  }

  predicate Multiples(s: Elim, f: nat, m: nat, n: nat) {
    BitLen(s.u) <= n && BitLen(s.v) <= n && Mod(s.u, f, m) == 0 && Mod(s.v, f, m) == 0
  }

  lemma {:induction false} MultiplesTurn(s: Elim, f: nat, m: nat, n: nat)
    requires Modulus(f, m) && Multiples(s, f, m, n)
    ensures Multiples(Turn(s, n), f, m, n)
  {
    hide Mod;
    hide Low;
    hide Xor;
    hide Shl;
    hide BitLen;
    if BitLen(s.u) >= BitLen(s.v) {
      ShiftedTurn(s.u, s.v, BitLen(s.u) - BitLen(s.v), f, m, n);
    } else {
      ShiftedTurn(s.v, s.u, BitLen(s.v) - BitLen(s.u), f, m, n);
    }
  }

  lemma {:induction false} NotOne(s: Elim, f: nat, m: nat, n: nat)
    requires Modulus(f, m) && Multiples(s, f, m, n)
    ensures s.u != 1
  {
    BitLenBound(1, m);
    ModSmall(1, f, m);
  }

  // The loop reaches u = 1 exactly for the x that f does not divide. A
  // reduced x is divided by f only if it is 0; an unreduced one may be.
  lemma {:induction false} InversionEnds(x: nat, f: nat, m: nat, n: nat)
    requires Modulus(f, m) && Irreducible(f) && BitLen(x) <= n && m + 1 <= n
    ensures (exists k: nat :: Turns(Start(x, f), k, n).u == 1) <==> Mod(x, f, m) != 0
    ensures x < Pow2(m) ==> Mod(x, f, m) == x
  {
    hide Mod;
    hide Turns;
    ModSmall(x, f, m);
    if Mod(x, f, m) != 0 {
      Divided(x, x, f, m, n);
      var k := EliminationEnds(x, Start(x, f), f, m, n);
    } else {
      ModOfModulus(f, m);
      forall k: nat ensures Turns(Start(x, f), k, n).u != 1 { Endless(Start(x, f), k, f, m, n); }
    }
  }

  // On f itself two turns lead to a state that the loop never leaves.
  lemma {:induction false} ModulusRepeats(f: nat, m: nat, n: nat, k: nat)
    requires Modulus(f, m) && m + 1 <= n
    ensures Mod(f, f, m) == 0
    ensures Turns(Start(f, f), k + 2, n).u == f && Turns(Start(f, f), k + 2, n).v == 0
  {
    ModOfModulus(f, m);
    var s := Turn(Start(f, f), n);
    LowFits(f, n);
    XorSelf(f);
    assert s.u == 0 && s.v == f;
    BitLenShl(0, m + 1);
    LowFits(0, n);
    XorZero(f);
    var t := Turn(s, n);
    assert t.u == f && t.v == 0;
    StaysAt(t, k, f, m, n);
  }

  lemma {:induction false} StaysAt(s: Elim, k: nat, f: nat, m: nat, n: nat)
    requires Modulus(f, m) && m + 1 <= n && s.u == f && s.v == 0
    ensures Turns(s, k, n).u == f && Turns(s, k, n).v == 0
    decreases k
  {
    if k > 0 {
      BitLenShl(0, BitLen(f));
      LowFits(0, n);
      XorZero(f);
      StaysAt(Turn(s, n), k - 1, f, m, n);
    }
  }
}
