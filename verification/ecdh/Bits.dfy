// Bit strings as natural numbers: the arithmetic behind the word vectors of
// misc/tinyECDH/ecdh.c. A natural number is read as a polynomial over GF(2)
// whose coefficient of x^k is its k-th binary digit.
module Bits {

  // The coefficient of x^k.
  predicate Bit(a: nat, k: nat) {
    if k == 0 then a % 2 == 1 else Bit(a / 2, k - 1)
  }

  // Exclusive or; the addition of polynomials over GF(2).
  function Xor(a: nat, b: nat): nat
    decreases a + b
  {
    if a == 0 && b == 0 then 0 else (a + b) % 2 + 2 * Xor(a / 2, b / 2)
  }

  // Inclusive or.
  function Or(a: nat, b: nat): nat
    decreases a + b
  {
    if a == 0 && b == 0 then 0
    else (if a % 2 == 1 || b % 2 == 1 then 1 else 0) + 2 * Or(a / 2, b / 2)
  }

  // Unbounded left shift; multiplication by x^n.
  function Shl(a: nat, n: nat): nat {
    if n == 0 then a else 2 * Shl(a, n - 1)
  }

  function Shr(a: nat, n: nat): nat {
    if n == 0 then a else Shr(a / 2, n - 1)
  }

  function Pow2(n: nat): nat {
    Shl(1, n)
  }

  // One more than the degree; 0 for the zero polynomial.
  function BitLen(a: nat): nat {
    if a == 0 then 0 else 1 + BitLen(a / 2)
  }

  // ---- single digits

  lemma {:induction false} BitZero(k: nat)
    ensures !Bit(0, k)
  {
    if k > 0 { BitZero(k - 1); }
  }

  lemma {:induction false} BitXor(a: nat, b: nat, k: nat)
    ensures Bit(Xor(a, b), k) <==> (Bit(a, k) != Bit(b, k))
  {
    var x, h := Xor(a, b), Xor(a / 2, b / 2);
    XorUnfold(a, b, a / 2, b / 2, (a + b) % 2);
    if k > 0 {
      BitXor(a / 2, b / 2, k - 1);
      assert x / 2 == h;
    }
  }

  lemma {:induction false} XorBits()
    ensures forall a: nat, b: nat, k: nat {:trigger Bit(Xor(a, b), k)} ::
              Bit(Xor(a, b), k) <==> (Bit(a, k) != Bit(b, k))
    ensures forall k: nat :: !Bit(0, k)
  {
    forall a: nat, b: nat, k: nat ensures Bit(Xor(a, b), k) <==> (Bit(a, k) != Bit(b, k)) { BitXor(a, b, k); }
    forall k: nat ensures !Bit(0, k) { BitZero(k); }
  }

  // Numbers with the same digits are equal.
  lemma {:induction false} SameBits(a: nat, b: nat)
    requires forall k: nat :: Bit(a, k) <==> Bit(b, k)
    ensures a == b
    decreases a + b
  {
    assert Bit(a, 0) <==> Bit(b, 0);
    if a != 0 || b != 0 {
      forall k: nat ensures Bit(a / 2, k) <==> Bit(b / 2, k) {
        assert Bit(a, k + 1) <==> Bit(b, k + 1);
      }
      SameBits(a / 2, b / 2);
    }
  }

  lemma {:induction false} XorSelf(a: nat)
    ensures Xor(a, a) == 0
  {
    forall k: nat ensures Bit(Xor(a, a), k) <==> Bit(0, k) { BitXor(a, a, k); BitZero(k); }
    SameBits(Xor(a, a), 0);
  }

  lemma {:induction false} XorZero(a: nat)
    ensures Xor(a, 0) == a && Xor(0, a) == a
  {
    forall k: nat ensures (Bit(Xor(a, 0), k) <==> Bit(a, k)) && (Bit(Xor(0, a), k) <==> Bit(a, k)) {
      BitXor(a, 0, k);
      BitXor(0, a, k);
      BitZero(k);
    }
    SameBits(Xor(a, 0), a);
    SameBits(Xor(0, a), a);
  }

  lemma {:induction false} XorComm(a: nat, b: nat)
    ensures Xor(a, b) == Xor(b, a)
  {
    forall k: nat ensures Bit(Xor(a, b), k) <==> Bit(Xor(b, a), k) { BitXor(a, b, k); BitXor(b, a, k); }
    SameBits(Xor(a, b), Xor(b, a));
  }

  lemma {:induction false} XorAssoc(a: nat, b: nat, c: nat)
    ensures Xor(Xor(a, b), c) == Xor(a, Xor(b, c))
  {
    XorBits();
    SameBits(Xor(Xor(a, b), c), Xor(a, Xor(b, c)));
  }

  // Regrouping a sum of four terms.
  lemma {:induction false} XorSwap(a: nat, b: nat, c: nat, d: nat)
    ensures Xor(Xor(a, b), Xor(c, d)) == Xor(Xor(a, c), Xor(b, d))
  {
    XorBits();
    SameBits(Xor(Xor(a, b), Xor(c, d)), Xor(Xor(a, c), Xor(b, d)));
  }

  lemma {:induction false} XorIsZero(a: nat, b: nat)
    ensures Xor(a, b) == 0 <==> a == b
  {
    XorSelf(a);
    if Xor(a, b) == 0 {
      XorBits();
      forall k: nat ensures Bit(a, k) <==> Bit(b, k) { assert !Bit(Xor(a, b), k); }
      SameBits(a, b);
    }
  }

  // ---- splitting at a digit

  lemma {:induction false} XorSplit(r: nat, a: nat, s: nat, b: nat)
    requires r < 2 && s < 2
    ensures Xor(r + 2 * a, s + 2 * b) == (r + s) % 2 + 2 * Xor(a, b)
  {
    XorUnfold(r + 2 * a, s + 2 * b, a, b, (r + s) % 2);
  }

  lemma {:induction false} XorUnfold(a: nat, b: nat, a1: nat, b1: nat, bit: nat)
    requires a / 2 == a1 && b / 2 == b1 && (a + b) % 2 == bit
    ensures Xor(a, b) == bit + 2 * Xor(a1, b1)
  {
  }

  lemma {:induction false} XorHalves(a: nat, b: nat)
    ensures Xor(a, b) / 2 == Xor(a / 2, b / 2)
    ensures Xor(a, b) % 2 == (a % 2 + b % 2) % 2
  {
    Parity(a, b);
    XorUnfold(a, b, a / 2, b / 2, (a + b) % 2);
  }

  lemma {:induction false} Parity(a: nat, b: nat)
    ensures (a % 2 + b % 2) % 2 == (a + b) % 2
  {
  }

  // A digit below an even number.
  lemma {:induction false} XorLow(r: nat, a: nat)
    requires r < 2
    ensures Xor(r, 2 * a) == r + 2 * a
  {
    XorSplit(r, 0, 0, a);
    XorZero(a);
  }

  lemma {:induction false} XorDouble(a: nat, b: nat)
    ensures Xor(2 * a, 2 * b) == 2 * Xor(a, b)
  {
    XorSplit(0, a, 0, b);
  }

  lemma {:induction false} ShlAdd(a: nat, b: nat, n: nat)
    ensures Shl(a + b, n) == Shl(a, n) + Shl(b, n)
  {
    if n > 0 { ShlAdd(a, b, n - 1); }
  }

  lemma {:induction false} ShlShl(a: nat, m: nat, n: nat)
    ensures Shl(Shl(a, m), n) == Shl(a, m + n)
  {
    if n > 0 { ShlShl(a, m, n - 1); }
  }

  lemma {:induction false} ShlDouble(a: nat, n: nat)
    ensures Shl(2 * a, n) == 2 * Shl(a, n)
  {
    if n > 0 { ShlDouble(a, n - 1); }
  }

  lemma {:induction false} ShlMono(a: nat, b: nat, n: nat)
    ensures a < b ==> Shl(a, n) < Shl(b, n)
    ensures a <= b ==> Shl(a, n) <= Shl(b, n)
  {
    if n > 0 { ShlMono(a, b, n - 1); }
  }

  // Xor of numbers cut into a low part of n digits and a high part.
  lemma {:induction false} XorParts(r: nat, a: nat, s: nat, b: nat, n: nat)
    requires r < Pow2(n) && s < Pow2(n)
    ensures Xor(r, s) < Pow2(n)
    ensures Xor(r + Shl(a, n), s + Shl(b, n)) == Xor(r, s) + Shl(Xor(a, b), n)
  {
    hide Xor;
    if n == 0 {
      XorZero(0);
    } else {
      var r1, s1, a1, b1 := r / 2, s / 2, Shl(a, n - 1), Shl(b, n - 1);
      XorParts(r1, a, s1, b, n - 1);
      XorPartsStep(r, a1, s, b1, Shl(Xor(a, b), n - 1));
    }
  }

  lemma {:induction false} XorPartsStep(r: nat, a: nat, s: nat, b: nat, c: nat)
    requires Xor(r / 2 + a, s / 2 + b) == Xor(r / 2, s / 2) + c
    ensures Xor(r + 2 * a, s + 2 * b) == Xor(r, s) + 2 * c
    ensures Xor(r, s) <= 2 * Xor(r / 2, s / 2) + 1
  {
    hide Xor;
    XorUnfold(r, s, r / 2, s / 2, (r + s) % 2);
    Half(r, a);
    Half(s, b);
    Half(r + s, a + b);
    XorUnfold(r + 2 * a, s + 2 * b, r / 2 + a, s / 2 + b, (r + s) % 2);
  }

  lemma {:induction false} Half(r: nat, a: nat)
    ensures (r + 2 * a) / 2 == r / 2 + a && (r + 2 * a) % 2 == r % 2
  {
  }

  // Or of parts that share no digit is their sum.
  lemma {:induction false} OrDisjoint(a: nat, b: nat, n: nat)
    requires b < Pow2(n)
    ensures Or(Shl(a, n), b) == Shl(a, n) + b
  {
    if n == 0 {
      OrZero(a);
    } else {
      OrDisjoint(a, b / 2, n - 1);
    }
  }

  lemma {:induction false} OrZero(a: nat)
    ensures Or(a, 0) == a
  {
    if a > 0 { OrZero(a / 2); }
  }

  // Quotient and remainder by 2^n.
  lemma {:induction false} ShrSplit(a: nat, n: nat) returns (r: nat)
    ensures r < Pow2(n) && a == r + Shl(Shr(a, n), n)
  {
    if n == 0 {
      r := 0;
    } else {
      var r1 := ShrSplit(a / 2, n - 1);
      r := a % 2 + 2 * r1;
    }
  }

  lemma {:induction false} SplitUnique(q: nat, r: nat, q': nat, r': nat, n: nat)
    requires r < Pow2(n) && r' < Pow2(n)
    requires r + Shl(q, n) == r' + Shl(q', n)
    ensures q == q' && r == r'
  {
    if n > 0 {
      SplitUnique(q, r / 2, q', r' / 2, n - 1);
    }
  }

  // ---- lengths

  lemma {:induction false} BitLenBound(a: nat, n: nat)
    ensures BitLen(a) <= n <==> a < Pow2(n)
  {
    if n > 0 { BitLenBound(a / 2, n - 1); }
  }

  lemma {:induction false} BitLenShl(a: nat, n: nat)
    ensures a > 0 ==> BitLen(Shl(a, n)) == BitLen(a) + n
    ensures a == 0 ==> Shl(a, n) == 0
  {
    if n > 0 { BitLenShl(a, n - 1); }
  }

  // The leading digit is set and it is the last one.
  lemma {:induction false} BitLenTop(a: nat)
    ensures a > 0 ==> Bit(a, BitLen(a) - 1)
    ensures forall k: nat :: k >= BitLen(a) ==> !Bit(a, k)
  {
    if a == 0 {
      forall k: nat ensures !Bit(a, k) { BitZero(k); }
    } else {
      BitLenTop(a / 2);
      forall k: nat | k >= BitLen(a) ensures !Bit(a, k) { assert !Bit(a / 2, k - 1); }
    }
  }

  lemma {:induction false} BitLenXor(a: nat, b: nat)
    ensures BitLen(Xor(a, b)) <= if BitLen(a) < BitLen(b) then BitLen(b) else BitLen(a)
    ensures a > 0 && BitLen(a) == BitLen(b) ==> BitLen(Xor(a, b)) < BitLen(a)
    decreases a + b
  {
    if a != 0 || b != 0 {
      BitLenXor(a / 2, b / 2);
      assert Xor(a, b) / 2 == Xor(a / 2, b / 2);
      if a == 1 && b == 1 { XorSelf(1); }
    }
  }
}
