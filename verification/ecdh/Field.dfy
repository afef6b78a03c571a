// The field GF(2^m) = GF(2)[x] / f that misc/tinyECDH/ecdh.c computes in.
module Field {
  import opened Bits

  // Product of polynomials over GF(2).
  function PMul(a: nat, b: nat): nat {
    if b == 0 then 0 else Xor(if b % 2 == 1 then a else 0, 2 * PMul(a, b / 2))
  }

  ghost predicate Divides(d: nat, a: nat) {
    exists q: nat :: PMul(q, d) == a
  }

  ghost predicate Coprime(a: nat, b: nat) {
    forall d: nat :: Divides(d, a) && Divides(d, b) ==> d == 1
  }

  ghost predicate Irreducible(f: nat) {
    f > 1 && forall d: nat :: Divides(d, f) ==> d == 1 || d == f
  }

  // f is a reduction polynomial of degree m.
  predicate Modulus(f: nat, m: nat) {
    m >= 1 && BitLen(f) == m + 1
  }

  // Remainder modulo f of a polynomial of degree at most m.
  function Reduce(t: nat, f: nat, m: nat): nat {
    if Bit(t, m) then Xor(t, f) else t
  }

  // Remainder modulo f.
  function Mod(a: nat, f: nat, m: nat): nat {
    if a == 0 then 0 else Reduce(2 * Mod(a / 2, f, m) + a % 2, f, m)
  }

  // Product in the field.
  function Mul(a: nat, b: nat, f: nat, m: nat): nat {
    Mod(PMul(a, b), f, m)
  }

  // ---- the ring of polynomials

  lemma {:induction false} PMulZero(b: nat)
    ensures PMul(0, b) == 0
  {
    if b > 0 { PMulZero(b / 2); }
  }

  lemma {:induction false} PMulOne(a: nat)
    ensures PMul(a, 1) == a
  {
    XorZero(a);
  }

  lemma {:induction false} PMulOdd(a: nat, b: nat, bit: nat)
    requires bit < 2
    ensures PMul(a, 2 * b + bit) == Xor(if bit == 1 then a else 0, 2 * PMul(a, b))
  {
    assert (2 * b + bit) / 2 == b && (2 * b + bit) % 2 == bit;
    XorZero(0);
  }

  lemma {:induction false} PMulAddLeft(a: nat, b: nat, c: nat)
    ensures PMul(Xor(a, b), c) == Xor(PMul(a, c), PMul(b, c))
    decreases c
  {
    if c == 0 {
      XorZero(0);
    } else {
      PMulAddLeft(a, b, c / 2);
      var p, q := PMul(a, c / 2), PMul(b, c / 2);
      XorDouble(p, q);
      XorZero(0);
      XorSwap(if c % 2 == 1 then a else 0, 2 * p, if c % 2 == 1 then b else 0, 2 * q);
    }
  }

  lemma {:induction false} PMulDoubleLeft(a: nat, b: nat)
    ensures PMul(2 * a, b) == 2 * PMul(a, b)
  {
    if b > 0 {
      PMulDoubleLeft(a, b / 2);
      var x, y := if b % 2 == 1 then a else 0, 2 * PMul(a, b / 2);
      XorDouble(x, y);
      XorZero(0);
    }
  }

  lemma {:induction false} PMulBitLeft(bit: nat, b: nat)
    requires bit < 2
    ensures PMul(bit, b) == if bit == 1 then b else 0
  {
    if bit == 0 {
      PMulZero(b);
    } else if b > 0 {
      PMulBitLeft(1, b / 2);
      XorLow(b % 2, b / 2);
    }
  }

  lemma {:induction false} PMulComm(a: nat, b: nat)
    ensures PMul(a, b) == PMul(b, a)
    decreases a
  {
    if a == 0 {
      PMulZero(b);
    } else {
      PMulComm(a / 2, b);
      XorLow(a % 2, a / 2);
      PMulAddLeft(a % 2, 2 * (a / 2), b);
      PMulBitLeft(a % 2, b);
      PMulDoubleLeft(a / 2, b);
    }
  }

  lemma {:induction false} PMulAddRight(a: nat, b: nat, c: nat)
    ensures PMul(a, Xor(b, c)) == Xor(PMul(a, b), PMul(a, c))
  {
    PMulComm(a, Xor(b, c));
    PMulAddLeft(b, c, a);
    PMulComm(a, b);
    PMulComm(a, c);
  }

  lemma {:induction false} PMulAssoc(a: nat, b: nat, c: nat)
    ensures PMul(PMul(a, b), c) == PMul(a, PMul(b, c))
    decreases c
  {
    if c > 0 {
      PMulAssoc(a, b, c / 2);
      var x, y := if c % 2 == 1 then b else 0, 2 * PMul(b, c / 2);
      PMulAddRight(a, x, y);
      PMulOdd(a, PMul(b, c / 2), 0);
      XorZero(2 * PMul(a, PMul(b, c / 2)));
    }
  }

  lemma {:induction false} PMulShl(a: nat, b: nat, n: nat)
    ensures PMul(Shl(a, n), b) == Shl(PMul(a, b), n)
  {
    if n > 0 {
      PMulShl(a, b, n - 1);
      PMulDoubleLeft(Shl(a, n - 1), b);
    }
  }

  // ---- remainders

  lemma {:induction false} ReduceSmall(t: nat, f: nat, m: nat)
    requires Modulus(f, m) && t < 2 * Pow2(m)
    ensures Reduce(t, f, m) < Pow2(m)
    ensures t < Pow2(m) ==> Reduce(t, f, m) == t
  {
    BitLenBound(t, m + 1);
    BitLenBound(t, m);
    BitLenTop(t);
    BitLenBound(Reduce(t, f, m), m);
    if Bit(t, m) {
      assert BitLen(t) == m + 1;
      BitLenXor(t, f);
    } else {
      assert BitLen(t) != m + 1;
    }
  }

  lemma {:induction false} ReduceZero(f: nat, m: nat)
    ensures Reduce(0, f, m) == 0
  {
    BitZero(m);
  }

  lemma {:induction false} ReduceXor(s: nat, t: nat, f: nat, m: nat)
    ensures Reduce(Xor(s, t), f, m) == Xor(Reduce(s, f, m), Reduce(t, f, m))
  {
    XorBits();
    var l, r := Reduce(Xor(s, t), f, m), Xor(Reduce(s, f, m), Reduce(t, f, m));
    forall k: nat ensures Bit(l, k) <==> Bit(r, k) {}
    SameBits(l, r);
  }

  lemma {:induction false} ModSmall(a: nat, f: nat, m: nat)
    requires Modulus(f, m)
    ensures Mod(a, f, m) < Pow2(m)
    ensures a < Pow2(m) ==> Mod(a, f, m) == a
  {
    if a == 0 {
      BitLenBound(0, m);
    } else {
      ModSmall(a / 2, f, m);
      ReduceSmall(2 * Mod(a / 2, f, m) + a % 2, f, m);
    }
  }

  lemma {:induction false} ModIdem(a: nat, f: nat, m: nat)
    requires Modulus(f, m)
    ensures Mod(Mod(a, f, m), f, m) == Mod(a, f, m)
  {
    ModSmall(a, f, m);
    ModSmall(Mod(a, f, m), f, m);
  }

  lemma {:induction false} ModStep(a: nat, f: nat, m: nat)
    requires Modulus(f, m)
    ensures Mod(a, f, m) == Reduce(2 * Mod(a / 2, f, m) + a % 2, f, m)
  {
    ReduceZero(f, m);
  }

  lemma {:induction false} ReduceXorStep(p: nat, q: nat, a: nat, b: nat, f: nat, m: nat)
    requires a < 2 && b < 2
    ensures Reduce(2 * Xor(p, q) + (a + b) % 2, f, m) == Xor(Reduce(2 * p + a, f, m), Reduce(2 * q + b, f, m))
  {
    XorSplit(a, p, b, q);
    ReduceXor(2 * p + a, 2 * q + b, f, m);
  }

  lemma {:induction false} ModXor(a: nat, b: nat, f: nat, m: nat)
    requires Modulus(f, m)
    ensures Mod(Xor(a, b), f, m) == Xor(Mod(a, f, m), Mod(b, f, m))
    decreases a + b
  {
    if a == 0 && b == 0 {
      XorZero(0);
    } else {
      ModXor(a / 2, b / 2, f, m);
      XorHalves(a, b);
      ReduceXorStep(Mod(a / 2, f, m), Mod(b / 2, f, m), a % 2, b % 2, f, m);
      ModXorStep(a, b, Xor(a, b), f, m);
    }
  }

  lemma {:induction false} ModXorStep(a: nat, b: nat, c: nat, f: nat, m: nat)
    requires Modulus(f, m)
    requires c % 2 == (a % 2 + b % 2) % 2
    requires Reduce(2 * Mod(c / 2, f, m) + c % 2, f, m)
             == Xor(Reduce(2 * Mod(a / 2, f, m) + a % 2, f, m), Reduce(2 * Mod(b / 2, f, m) + b % 2, f, m))
    ensures Mod(c, f, m) == Xor(Mod(a, f, m), Mod(b, f, m))
  {
    ModStep(a, f, m);
    ModStep(b, f, m);
    ModStep(c, f, m);
  }

  lemma {:induction false} ModDouble(a: nat, f: nat, m: nat)
    requires Modulus(f, m)
    ensures Mod(2 * a, f, m) == Reduce(2 * Mod(a, f, m), f, m)
  {
    ModStep(2 * a, f, m);
    assert (2 * a) / 2 == a && (2 * a) % 2 == 0;
  }

  lemma {:induction false} ModShl(a: nat, b: nat, n: nat, f: nat, m: nat)
    requires Modulus(f, m) && Mod(a, f, m) == Mod(b, f, m)
    ensures Mod(Shl(a, n), f, m) == Mod(Shl(b, n), f, m)
  {
    if n > 0 {
      ModShl(a, b, n - 1, f, m);
      ModDouble(Shl(a, n - 1), f, m);
      ModDouble(Shl(b, n - 1), f, m);
    }
  }

  lemma {:induction false} ModOfModulus(f: nat, m: nat)
    requires Modulus(f, m)
    ensures Mod(f, f, m) == 0
  {
    BitLenBound(f / 2, m);
    ModSmall(f / 2, f, m);
    BitLenTop(f);
    XorSelf(f);
  }

  lemma {:induction false} ModMultiple(q: nat, f: nat, m: nat)
    requires Modulus(f, m)
    ensures Mod(PMul(f, q), f, m) == 0
  {
    if q > 0 {
      ModMultiple(q / 2, f, m);
      var x, y := if q % 2 == 1 then f else 0, PMul(f, q / 2);
      ModXor(x, 2 * y, f, m);
      ModDouble(y, f, m);
      ModOfModulus(f, m);
      ReduceZero(f, m);
      XorZero(0);
    }
  }

  // Every polynomial is its remainder plus a multiple of f.
  lemma {:induction false} ModQuotient(a: nat, f: nat, m: nat) returns (q: nat)
    requires Modulus(f, m)
    ensures a == Xor(Mod(a, f, m), PMul(f, q))
  {
    if a == 0 {
      q := 0;
      XorZero(0);
    } else {
      var q1 := ModQuotient(a / 2, f, m);
      var r1 := Mod(a / 2, f, m);
      var c := if Bit(2 * r1 + a % 2, m) then 1 else 0;
      q := 2 * q1 + c;
      PMulOdd(f, q1, c);
      QuotientStep(a, r1, PMul(f, q1), f, m);
    }
  }

  lemma {:induction false} QuotientStep(a: nat, r: nat, p: nat, f: nat, m: nat)
    requires a / 2 == Xor(r, p)
    ensures a == Xor(Reduce(2 * r + a % 2, f, m), Xor(if Bit(2 * r + a % 2, m) then f else 0, 2 * p))
  {
    var t := 2 * r + a % 2;
    XorSplit(a % 2, r, 0, p);
    assert a == Xor(t, 2 * p);
    var w := Xor(Reduce(t, f, m), Xor(if Bit(t, m) then f else 0, 2 * p));
    XorBits();
    forall k: nat ensures Bit(a, k) <==> Bit(w, k) {}
    SameBits(a, w);
  }

  // Products only depend on the remainders of their factors.
  lemma {:induction false} ModMul(a: nat, b: nat, f: nat, m: nat)
    requires Modulus(f, m)
    ensures Mod(PMul(Mod(a, f, m), b), f, m) == Mod(PMul(a, b), f, m)
    ensures Mod(PMul(b, Mod(a, f, m)), f, m) == Mod(PMul(a, b), f, m)
  {
    var q := ModQuotient(a, f, m);
    var r := Mod(a, f, m);
    PMulAddLeft(r, PMul(f, q), b);
    PMulAssoc(f, q, b);
    ModXor(PMul(r, b), PMul(f, PMul(q, b)), f, m);
    ModMultiple(PMul(q, b), f, m);
    XorZero(Mod(PMul(r, b), f, m));
    PMulComm(b, r);
  }

  // ---- the field laws

  lemma {:induction false} MulReduced(a: nat, b: nat, f: nat, m: nat)
    requires Modulus(f, m)
    ensures Mul(a, b, f, m) < Pow2(m)
  {
    ModSmall(PMul(a, b), f, m);
  }

  lemma {:induction false} MulComm(a: nat, b: nat, f: nat, m: nat)
    ensures Mul(a, b, f, m) == Mul(b, a, f, m)
  {
    PMulComm(a, b);
  }

  lemma {:induction false} MulAssoc(a: nat, b: nat, c: nat, f: nat, m: nat)
    requires Modulus(f, m)
    ensures Mul(Mul(a, b, f, m), c, f, m) == Mul(a, Mul(b, c, f, m), f, m)
  {
    PMulAssoc(a, b, c);
    ModMul(PMul(a, b), c, f, m);
    ModMul(PMul(b, c), a, f, m);
    PMulComm(PMul(b, c), a);
  }

  lemma {:induction false} MulAdd(a: nat, b: nat, c: nat, f: nat, m: nat)
    requires Modulus(f, m)
    ensures Mul(a, Xor(b, c), f, m) == Xor(Mul(a, b, f, m), Mul(a, c, f, m))
    ensures Mul(Xor(b, c), a, f, m) == Xor(Mul(b, a, f, m), Mul(c, a, f, m))
  {
    PMulAddRight(a, b, c);
    PMulAddLeft(b, c, a);
    ModXor(PMul(a, b), PMul(a, c), f, m);
    ModXor(PMul(b, a), PMul(c, a), f, m);
  }

  lemma {:induction false} MulOne(a: nat, f: nat, m: nat)
    requires Modulus(f, m) && a < Pow2(m)
    ensures Mul(a, 1, f, m) == a && Mul(1, a, f, m) == a
  {
    PMulOne(a);
    PMulComm(a, 1);
    ModSmall(a, f, m);
  }

  // ---- inversion: the invariant of the swap-and-shift Euclid

  // u and v are coprime, z*x = u and g*x = v modulo f, and the lengths leave
  // room: deg z <= m - deg v, deg g <= m - deg u.
  ghost predicate Euclid(x: nat, u: nat, v: nat, g: nat, z: nat, f: nat, m: nat) {
    && u > 0 && v > 1
    && BitLen(u) <= m + 1 && BitLen(v) <= m + 1
    && Mod(PMul(z, x), f, m) == Mod(u, f, m)
    && Mod(PMul(g, x), f, m) == Mod(v, f, m)
    && Coprime(u, v)
    && BitLen(z) + BitLen(v) <= m + 2
    && BitLen(g) + BitLen(u) <= m + 2
  }

  lemma {:induction false} DividesSelf(a: nat)
    ensures Divides(a, a)
  {
    PMulBitLeft(1, a);
    assert PMul(1, a) == a;
  }

  lemma {:induction false} DividesShl(a: nat, n: nat)
    ensures Divides(a, Shl(a, n))
  {
    PMulBitLeft(1, a);
    PMulShl(1, a, n);
    assert PMul(Shl(1, n), a) == Shl(a, n);
  }

  lemma {:induction false} DividesSum(d: nat, a: nat, b: nat, n: nat)
    requires Divides(d, b) && Divides(d, Xor(a, Shl(b, n)))
    ensures Divides(d, a)
  {
    var q: nat :| PMul(q, d) == b;
    var p: nat :| PMul(p, d) == Xor(a, Shl(b, n));
    PMulShl(q, d, n);
    PMulAddLeft(p, Shl(q, n), d);
    XorAssoc(a, Shl(b, n), Shl(b, n));
    XorSelf(Shl(b, n));
    XorZero(a);
    assert PMul(Xor(p, Shl(q, n)), d) == a;
  }

  lemma {:induction false} EuclidStart(x: nat, f: nat, m: nat)
    requires Modulus(f, m) && Irreducible(f) && 0 < x < Pow2(m)
    ensures Euclid(x, x, f, 0, 1, f, m)
  {
    PMulBitLeft(1, x);
    PMulZero(x);
    ModOfModulus(f, m);
    BitLenBound(x, m);
    forall d: nat | Divides(d, x) && Divides(d, f) ensures d == 1 {
      if d == f {
        var q: nat :| PMul(q, f) == x;
        PMulComm(q, f);
        ModMultiple(q, f, m);
        ModSmall(x, f, m);
      }
    }
  }

  lemma {:induction false} EuclidSwap(x: nat, u: nat, v: nat, g: nat, z: nat, f: nat, m: nat)
    requires Euclid(x, u, v, g, z, f, m) && u != 1
    ensures Euclid(x, v, u, z, g, f, m)
  {
    forall d: nat | Divides(d, v) && Divides(d, u) ensures d == 1 {}
  }

  // One elimination step with deg u >= deg v: no shift outgrows m + 1 digits,
  // u stays non-zero and loses length.
  lemma {:induction false} EuclidStep(x: nat, u: nat, v: nat, g: nat, z: nat, i: nat, f: nat, m: nat)
    requires Modulus(f, m) && Euclid(x, u, v, g, z, f, m)
    requires i == BitLen(u) - BitLen(v)
    ensures BitLen(Shl(v, i)) <= m + 1 && BitLen(Shl(g, i)) <= m
    ensures BitLen(Xor(u, Shl(v, i))) < BitLen(u)
    ensures Euclid(x, Xor(u, Shl(v, i)), v, g, Xor(z, Shl(g, i)), f, m)
  {
    var u1, z1 := Xor(u, Shl(v, i)), Xor(z, Shl(g, i));
    BitLenShl(v, i);
    BitLenShl(g, i);
    BitLenXor(u, Shl(v, i));
    BitLenXor(z, Shl(g, i));
    assert BitLen(v) >= 2;
    EuclidStepRelation(x, u, v, g, z, i, f, m);
    EuclidStepCoprime(u, v, i);
  }

  lemma {:induction false} EuclidStepRelation(x: nat, u: nat, v: nat, g: nat, z: nat, i: nat, f: nat, m: nat)
    requires Modulus(f, m)
    requires Mod(PMul(z, x), f, m) == Mod(u, f, m)
    requires Mod(PMul(g, x), f, m) == Mod(v, f, m)
    ensures Mod(PMul(Xor(z, Shl(g, i)), x), f, m) == Mod(Xor(u, Shl(v, i)), f, m)
  {
    PMulAddLeft(z, Shl(g, i), x);
    PMulShl(g, x, i);
    ModXor(PMul(z, x), Shl(PMul(g, x), i), f, m);
    ModXor(u, Shl(v, i), f, m);
    ModShl(PMul(g, x), v, i, f, m);
  }

  lemma {:induction false} EuclidStepCoprime(u: nat, v: nat, i: nat)
    requires Coprime(u, v) && v != 1
    ensures Xor(u, Shl(v, i)) > 0 && Coprime(Xor(u, Shl(v, i)), v)
  {
    forall d: nat | Divides(d, Xor(u, Shl(v, i))) && Divides(d, v) ensures d == 1 {
      DividesSum(d, u, v, i);
    }
    if Xor(u, Shl(v, i)) == 0 {
      XorIsZero(u, Shl(v, i));
      DividesShl(v, i);
      DividesSelf(v);
    }
  }

  lemma {:induction false} EuclidDone(x: nat, v: nat, g: nat, z: nat, f: nat, m: nat)
    requires Modulus(f, m) && Euclid(x, 1, v, g, z, f, m)
    ensures z < Pow2(m) && Mul(z, x, f, m) == 1
  {
    BitLenBound(1, m);
    ModSmall(1, f, m);
    assert BitLen(v) == 1 + (1 + BitLen(v / 2 / 2)) by { assert v / 2 > 0; }
    BitLenBound(z, m);
  }

  // The elimination always reaches u = 1.
  lemma {:induction false} EuclidTerminates(x: nat, u: nat, v: nat, g: nat, z: nat, f: nat, m: nat) returns (r: nat)
    requires Modulus(f, m) && Euclid(x, u, v, g, z, f, m)
    ensures r < Pow2(m) && Mul(r, x, f, m) == 1
    decreases BitLen(u) + BitLen(v)
  {
    if u == 1 {
      EuclidDone(x, v, g, z, f, m);
      r := z;
    } else if BitLen(u) >= BitLen(v) {
      var i := BitLen(u) - BitLen(v);
      EuclidStep(x, u, v, g, z, i, f, m);
      r := EuclidTerminates(x, Xor(u, Shl(v, i)), v, g, Xor(z, Shl(g, i)), f, m);
    } else {
      var i := BitLen(v) - BitLen(u);
      EuclidSwap(x, u, v, g, z, f, m);
      EuclidStep(x, v, u, z, g, i, f, m);
      r := EuclidTerminates(x, Xor(v, Shl(u, i)), u, z, Xor(g, Shl(z, i)), f, m);
    }
  }

  // Every non-zero reduced polynomial has exactly one reduced inverse.
  lemma {:induction false} InverseExists(x: nat, f: nat, m: nat)
    requires Modulus(f, m) && Irreducible(f) && 0 < x < Pow2(m)
    ensures exists r: nat :: r < Pow2(m) && Mul(r, x, f, m) == 1
  {
    EuclidStart(x, f, m);
    var r := EuclidTerminates(x, x, f, 0, 1, f, m);
  }

  lemma {:induction false} InverseUnique(x: nat, r: nat, s: nat, f: nat, m: nat)
    requires Modulus(f, m) && r < Pow2(m) && s < Pow2(m)
    requires Mul(r, x, f, m) == 1 && Mul(s, x, f, m) == 1
    ensures r == s
  {
    MulAssoc(r, x, s, f, m);
    MulComm(x, s, f, m);
    MulOne(r, f, m);
    MulOne(s, f, m);
  }

  // The inverse of a non-zero element.
  ghost function Inv(x: nat, f: nat, m: nat): (r: nat)
    requires Modulus(f, m) && Irreducible(f) && 0 < x < Pow2(m)
    ensures r < Pow2(m) && Mul(r, x, f, m) == 1
  {
    InverseExists(x, f, m);
    var r: nat :| r < Pow2(m) && Mul(r, x, f, m) == 1;
    r
  }
}
