// The block function of misc/mbedtls/library/camellia.c under an encryption
// schedule and under the schedule mbedtls_camellia_setkey_dec derives from it;
// section 2.3.3 of RFC 3713. The encryption schedule itself and the contents of
// the S-boxes are arbitrary.
module Camellia {
  import opened Words

  datatype SBoxes = SBoxes(s1: bv8 -> bv8, s2: bv8 -> bv8, s3: bv8 -> bv8, s4: bv8 -> bv8)

  datatype Pair = Pair(l: bv32, r: bv32)

  function XorPair(x: Pair, y: Pair): Pair { Pair(Xor(x.l, y.l), Xor(x.r, y.r)) }

  // The two 64-bit halves of a block.
  datatype Halves = Halves(left: Pair, right: Pair)

  // The round function of camellia_feistel.
  function Feistel(s: SBoxes, x: Pair, k: Pair): Pair {
    var i0, i1 := Xor(x.l, k.l), Xor(x.r, k.r);
    var j0 := Join(s.s4(Byte0(i0)), s.s3(Byte1(i0)), s.s2(Byte2(i0)), s.s1(Byte3(i0)));
    var j1 := Join(s.s1(Byte0(i1)), s.s4(Byte1(i1)), s.s3(Byte2(i1)), s.s2(Byte3(i1)));
    var k0 := Xor(j0, Rotl8(j1));
    var k1 := Xor(j1, Rotl16(k0));
    var l0 := Xor(k0, Rotl24(k1));
    Pair(Xor(k1, Rotl24(l0)), l0)
  }

  // The same round function byte by byte, t1 being the most significant byte:
  // the P-function of section 2.4.1 of RFC 3713 after the S-boxes.
  function PFunction(t1: bv8, t2: bv8, t3: bv8, t4: bv8, t5: bv8, t6: bv8, t7: bv8, t8: bv8): Pair {
    Pair(Join(t2 ^ t3 ^ t4 ^ t5 ^ t6 ^ t7, t1 ^ t2 ^ t3 ^ t5 ^ t6 ^ t8, t1 ^ t2 ^ t4 ^ t5 ^ t7 ^ t8, t1 ^ t3 ^ t4 ^ t6 ^ t7 ^ t8),
         Join(t1 ^ t4 ^ t5 ^ t6 ^ t7, t3 ^ t4 ^ t5 ^ t6 ^ t8, t2 ^ t3 ^ t5 ^ t7 ^ t8, t1 ^ t2 ^ t6 ^ t7 ^ t8))
  }

  lemma {:induction false} FeistelIsPFunction(s: SBoxes, x: Pair, k: Pair)
    ensures var i0, i1 := Xor(x.l, k.l), Xor(x.r, k.r);
            Feistel(s, x, k) == PFunction(s.s1(Byte3(i0)), s.s2(Byte2(i0)), s.s3(Byte1(i0)), s.s4(Byte0(i0)),
                                          s.s2(Byte3(i1)), s.s3(Byte2(i1)), s.s4(Byte1(i1)), s.s1(Byte0(i1)))
  {
    hide Xor;
    hide Join;
    hide Rotl1;
    hide Rotl8;
    hide Rotl16;
    hide Rotl24;
    hide PFunction;
    var i0, i1 := Xor(x.l, k.l), Xor(x.r, k.r);
    Mixing(s.s1(Byte3(i0)), s.s2(Byte2(i0)), s.s3(Byte1(i0)), s.s4(Byte0(i0)),
           s.s2(Byte3(i1)), s.s3(Byte2(i1)), s.s4(Byte1(i1)), s.s1(Byte0(i1)));
  }

  lemma {:induction false} Mixing(t1: bv8, t2: bv8, t3: bv8, t4: bv8, t5: bv8, t6: bv8, t7: bv8, t8: bv8)
    ensures var j0, j1 := Join(t4, t3, t2, t1), Join(t8, t7, t6, t5);
            var k0 := Xor(j0, Rotl8(j1));
            var k1 := Xor(j1, Rotl16(k0));
            var l0 := Xor(k0, Rotl24(k1));
            Pair(Xor(k1, Rotl24(l0)), l0) == PFunction(t1, t2, t3, t4, t5, t6, t7, t8)
  {
    hide Xor;
    hide Join;
    hide Rotl1;
    hide Rotl8;
    hide Rotl16;
    hide Rotl24;
    hide *;
    var u0, u1, u2, u3 := Xor8(t4, t5), Xor8(t3, t8), Xor8(t2, t7), Xor8(t1, t6);
    var v0, v1, v2, v3 := Xor8(t8, u2), Xor8(t7, u3), Xor8(t6, u0), Xor8(t5, u1);
    var w0, w1, w2, w3 := Xor8(u0, v1), Xor8(u1, v2), Xor8(u2, v3), Xor8(u3, v0);
    XorRotl(t4, t3, t2, t1, t8, t7, t6, t5);
    XorRotl(t8, t7, t6, t5, u0, u1, u2, u3);
    XorRotl(u0, u1, u2, u3, v0, v1, v2, v3);
    XorRotl(v0, v1, v2, v3, w0, w1, w2, w3);
    PFunctionIs(t1, t2, t3, t4, t5, t6, t7, t8, u0, u1, u2, u3, v0, v1, v2, v3, w0, w1, w2, w3);
  }

  lemma {:induction false} PFunctionIs(t1: bv8, t2: bv8, t3: bv8, t4: bv8, t5: bv8, t6: bv8, t7: bv8, t8: bv8,
                                       u0: bv8, u1: bv8, u2: bv8, u3: bv8, v0: bv8, v1: bv8, v2: bv8, v3: bv8,
                                       w0: bv8, w1: bv8, w2: bv8, w3: bv8)
    requires u0 == Xor8(t4, t5) && u1 == Xor8(t3, t8) && u2 == Xor8(t2, t7) && u3 == Xor8(t1, t6)
    requires v0 == Xor8(t8, u2) && v1 == Xor8(t7, u3) && v2 == Xor8(t6, u0) && v3 == Xor8(t5, u1)
    requires w0 == Xor8(u0, v1) && w1 == Xor8(u1, v2) && w2 == Xor8(u2, v3) && w3 == Xor8(u3, v0)
    ensures PFunction(t1, t2, t3, t4, t5, t6, t7, t8)
         == Pair(Join(Xor8(v0, w1), Xor8(v1, w2), Xor8(v2, w3), Xor8(v3, w0)), Join(w0, w1, w2, w3))
  {
    hide Join;
    hide Xor8;
    Sum5(t4, t5, t7, t1, t6);
    Sum5(t3, t8, t6, t4, t5);
    Sum5(t2, t7, t5, t3, t8);
    Sum5(t1, t6, t8, t2, t7);
    Sum6(t8, t2, t7, t3, t6, t4, t5);
    Sum6(t7, t1, t6, t2, t5, t3, t8);
    Sum6(t6, t4, t5, t1, t8, t2, t7);
    Sum6(t5, t3, t8, t4, t7, t1, t6);
  }

  lemma {:induction false} Sum5(p: bv8, q: bv8, r: bv8, s: bv8, t: bv8)
    ensures Xor8(Xor8(p, q), Xor8(r, Xor8(s, t))) == p ^ q ^ r ^ s ^ t
  {
  }

  lemma {:induction false} Sum6(a: bv8, b: bv8, c: bv8, d: bv8, e: bv8, f: bv8, g: bv8)
    ensures Xor8(Xor8(a, Xor8(b, c)), Xor8(Xor8(d, a), Xor8(e, Xor8(f, g)))) == b ^ c ^ d ^ e ^ f ^ g
  {
  }

  // The FL macro.
  function FL(x: Pair, k: Pair): Pair {
    var r := Xor(Rotl1(And(x.l, k.l)), x.r);
    Pair(Xor(Or(r, k.r), x.l), r)
  }

  // The FLInv macro.
  function FLInv(y: Pair, k: Pair): Pair {
    var l := Xor(Or(y.r, k.r), y.l);
    Pair(l, Xor(Rotl1(And(l, k.l)), y.r))
  }

  // FL of section 2.4.5 of RFC 3713: the right word gets the product of the
  // left one with the key, rotated by one digit, then the left word gets the
  // inclusive or of the new right one with the key.
  lemma {:induction false} FLIs(x: Pair, k: Pair)
    ensures var y := FL(x, k);
            && y.r == x.r ^ (((x.l & k.l) << 1) | ((x.l & k.l) >> 31))
            && y.l == x.l ^ (y.r | k.r)
  {
    hide Xor;
    XorIs(Rotl1(And(x.l, k.l)), x.r);
    var r := FL(x, k).r;
    XorIs(Or(r, k.r), x.l);
    SumCommutes(Rotl1(And(x.l, k.l)), x.r);
    SumCommutes(Or(r, k.r), x.l);
  }

  lemma {:induction false} SumCommutes(a: bv32, b: bv32)
    ensures a ^ b == b ^ a
  {
  }

  lemma {:induction false} FLInvUndoesFL(x: Pair, k: Pair)
    ensures FLInv(FL(x, k), k) == x
    ensures FL(FLInv(x, k), k) == x
  {
    hide Xor;
    hide And;
    hide Or;
    hide Rotl1;
    hide Rotl8;
    hide Rotl16;
    hide Rotl24;
    var y, z := FL(x, k), FLInv(x, k);
    XorCancel(x.l, Or(y.r, k.r));
    XorCancel(x.r, Rotl1(And(x.l, k.l)));
    XorCancel(x.l, Or(x.r, k.r));
    XorCancel(x.r, Rotl1(And(z.l, k.l)));
  }

  // Inner step i with the i-th inner key pair: in every group of eight, six
  // Feistel rounds on alternating halves, then FL on the left half and FLInv
  // on the right one.
  function Inner(s: SBoxes, i: nat, k: Pair, h: Halves): Halves {
    if i % 8 == 6 then Halves(FL(h.left, k), h.right)
    else if i % 8 == 7 then Halves(h.left, FLInv(h.right, k))
    else if i % 2 == 0 then Halves(h.left, XorPair(h.right, Feistel(s, h.left, k)))
    else Halves(XorPair(h.left, Feistel(s, h.right, k)), h.right)
  }

  // The state after inner steps 0..n; the inner keys start at pair 2.
  function Steps(s: SBoxes, rk: seq<bv32>, n: nat, h: Halves): Halves
    requires 4 + 2 * n <= |rk|
  {
    if n == 0 then h else Inner(s, n - 1, Key(rk, n + 1), Steps(s, rk, n - 1, h))
  }

  function Key(rk: seq<bv32>, j: nat): Pair
    requires 2 * j + 1 < |rk|
  {
    Pair(rk[2 * j], rk[2 * j + 1])
  }

  // Whiten both halves with pairs j and j + 1.
  function Whiten(rk: seq<bv32>, j: nat, h: Halves): Halves
    requires 2 * j + 3 < |rk|
  {
    Halves(XorPair(h.left, Key(rk, j)), XorPair(h.right, Key(rk, j + 1)))
  }

  function Exchange(h: Halves): Halves { Halves(h.right, h.left) }

  // What the steps are, in words: step n takes words 2n + 4 and 2n + 5 of the
  // schedule; of eight steps six are Feistel rounds that change the right and
  // the left half in turn, one applies FL to the left and one FLInv to the
  // right half.
  lemma {:induction false} StepsAre(s: SBoxes, rk: seq<bv32>, n: nat, h: Halves)
    requires 6 + 2 * n <= |rk|
    ensures Steps(s, rk, 0, h) == h
    ensures var x, y, k := Steps(s, rk, n, h), Steps(s, rk, n + 1, h), Pair(rk[2 * n + 4], rk[2 * n + 5]);
            && (n % 8 == 6 ==> y.left == FL(x.left, k) && y.right == x.right)
            && (n % 8 == 7 ==> y.left == x.left && y.right == FLInv(x.right, k))
            && (n % 8 < 6 && n % 2 == 0 ==>
                 && y.left == x.left
                 && y.right.l == Xor(x.right.l, Feistel(s, x.left, k).l) && y.right.r == Xor(x.right.r, Feistel(s, x.left, k).r))
            && (n % 8 < 6 && n % 2 == 1 ==>
                 && y.right == x.right
                 && y.left.l == Xor(x.left.l, Feistel(s, x.right, k).l) && y.left.r == Xor(x.left.r, Feistel(s, x.right, k).r))
  {
    hide Steps;
    hide Feistel;
    hide FL;
    hide FLInv;
    hide Xor;
    FirstStep(s, rk, h);
    NextStep(s, rk, n, h);
    var x, k := Steps(s, rk, n, h), Pair(rk[2 * n + 4], rk[2 * n + 5]);
    XorPairIs(x.right, Feistel(s, x.left, k));
    XorPairIs(x.left, Feistel(s, x.right, k));
  }

  lemma {:induction false} XorPairIs(x: Pair, y: Pair)
    ensures XorPair(x, y).l == Xor(x.l, y.l) && XorPair(x, y).r == Xor(x.r, y.r)
  {
    hide Xor;
  }

  // And the block function: the first four words of the schedule are added
  // before the steps, the last four after them, with the halves exchanged.
  lemma {:induction false} CryptIs(s: SBoxes, rk: seq<bv32>, nr: nat, h: Halves)
    requires nr > 0 && |rk| >= 16 * nr + 4
    ensures var w := Halves(Pair(Xor(h.left.l, rk[0]), Xor(h.left.r, rk[1])), Pair(Xor(h.right.l, rk[2]), Xor(h.right.r, rk[3])));
            var e, y, z := Steps(s, rk, 8 * nr - 2, w), Crypt(s, rk, nr, h), 16 * nr;
            && y.left.l == Xor(e.right.l, rk[z]) && y.left.r == Xor(e.right.r, rk[z + 1])
            && y.right.l == Xor(e.left.l, rk[z + 2]) && y.right.r == Xor(e.left.r, rk[z + 3])
  {
    hide Steps;
    hide Xor;
    hide XorPair;
    var w := Whiten(rk, 0, h);
    WhitenIs(rk, 0, h);
    WhitenIs(rk, 8 * nr, Exchange(Steps(s, rk, 8 * nr - 2, w)));
  }

  lemma {:induction false} WhitenIs(rk: seq<bv32>, j: nat, h: Halves)
    requires 2 * j + 3 < |rk|
    ensures Whiten(rk, j, h) == Halves(Pair(Xor(h.left.l, rk[2 * j]), Xor(h.left.r, rk[2 * j + 1])), Pair(Xor(h.right.l, rk[2 * j + 2]), Xor(h.right.r, rk[2 * j + 3])))
  {
    hide XorPair;
    XorPairIs(h.left, Key(rk, j));
    XorPairIs(h.right, Key(rk, j + 1));
  }

  // The number of inner key pairs for nr groups of six rounds.
  function InnerPairs(nr: nat): nat
    requires nr > 0
  {
    8 * nr - 2
  }

  // The number of words in the schedule.
  function ScheduleLength(nr: nat): nat
    requires nr > 0
  {
    16 * nr + 4
  }

  function Crypt(s: SBoxes, rk: seq<bv32>, nr: nat, h: Halves): Halves
    requires nr > 0 && |rk| >= ScheduleLength(nr)
  {
    var n := InnerPairs(nr);
    Whiten(rk, n + 2, Exchange(Steps(s, rk, n, Whiten(rk, 0, h))))
  }

  // ---- decryption schedule

  // The pair of the encryption schedule that becomes pair j.
  function Source(nr: nat, j: nat): nat
    requires nr > 0 && j < InnerPairs(nr) + 4
  {
    var n := InnerPairs(nr);
    if j < 2 then n + 2 + j else if j < n + 2 then n + 3 - j else j - n - 2
  }

  predicate Reversed(dk: seq<bv32>, rk: seq<bv32>, nr: nat) {
    && nr > 0 && |dk| >= ScheduleLength(nr) && |rk| >= ScheduleLength(nr)
    && forall j: nat :: j < InnerPairs(nr) + 4 ==> Key(dk, j) == Key(rk, Source(nr, j))
  }

  // Inner step n-1-i with the halves exchanged takes back step i.
  lemma {:induction false} StepBack(s: SBoxes, nr: nat, i: nat, k: Pair, h: Halves)
    requires nr > 0 && i < InnerPairs(nr)
    ensures Inner(s, InnerPairs(nr) - 1 - i, k, Exchange(Inner(s, i, k, h))) == Exchange(h)
  {
    hide FL;
    hide FLInv;
    hide Feistel;
    hide XorPair;
    hide InnerPairs;
    var j := InnerPairs(nr) - 1 - i;
    Dual(nr, i);
    if i % 8 == 6 {
      FLInvUndoesFL(h.left, k);
    } else if i % 8 == 7 {
      FLInvUndoesFL(h.right, k);
    } else {
      if i % 2 == 0 {
        XorPairTwice(h.right, Feistel(s, h.left, k));
      } else {
        XorPairTwice(h.left, Feistel(s, h.right, k));
      }
    }
  }

  // Steps i and n - 1 - i are of dual kinds.
  lemma {:induction false} Dual(nr: nat, i: nat)
    requires nr > 0 && i < InnerPairs(nr)
    ensures var j := InnerPairs(nr) - 1 - i;
            && (i % 8 == 6 <==> j % 8 == 7) && (i % 8 == 7 <==> j % 8 == 6)
            && i % 2 != j % 2
  {
    var q, r := i / 8, i % 8;
    var j := InnerPairs(nr) - 1 - i;
    assert i == 8 * q + r;
    if r < 6 {
      Mod8(j, nr - 1 - q, 5 - r);
    } else {
      Mod8(j, nr - 2 - q, 13 - r);
    }
  }

  lemma {:induction false} Mod8(j: nat, a: nat, b: nat)
    requires b < 8 && j == 8 * a + b
    ensures j % 8 == b
  {
  }

  lemma {:induction false} XorPairTwice(x: Pair, y: Pair)
    ensures XorPair(XorPair(x, y), y) == x
  {
    hide Xor;
    XorTwice(x.l, y.l);
    XorTwice(x.r, y.r);
  }

  // With n the number of inner steps, i of them under the reversed keys take
  // back the last i of n under the original ones.
  lemma {:induction false} StepsBack(s: SBoxes, dk: seq<bv32>, rk: seq<bv32>, nr: nat, i: nat, h: Halves)
    requires Reversed(dk, rk, nr) && i <= InnerPairs(nr)
    ensures var n := InnerPairs(nr);
            Steps(s, dk, i, Exchange(Steps(s, rk, n, h))) == Exchange(Steps(s, rk, n - i, h))
  {
    hide Inner;
    hide Key;
    if i > 0 {
      var n := InnerPairs(nr);
      StepsBack(s, dk, rk, nr, i - 1, h);
      assert Key(dk, i + 1) == Key(rk, n + 2 - i);
      StepBack(s, nr, n - i, Key(rk, n + 2 - i), Steps(s, rk, n - i, h));
    }
  }

  // The block function under the reversed schedule undoes it under the
  // original one, for any number of six-round groups.
  lemma {:induction false} DecryptUndoesEncrypt(s: SBoxes, dk: seq<bv32>, rk: seq<bv32>, nr: nat, h: Halves)
    requires Reversed(dk, rk, nr)
    ensures Crypt(s, dk, nr, Crypt(s, rk, nr, h)) == h
  {
    hide Steps;
    hide XorPair;
    hide Key;
    var n := InnerPairs(nr);
    var w := Whiten(rk, 0, h);
    var e := Exchange(Steps(s, rk, n, w));
    assert Key(dk, 0) == Key(rk, n + 2) && Key(dk, 1) == Key(rk, n + 3);
    assert Key(dk, n + 2) == Key(rk, 0) && Key(dk, n + 3) == Key(rk, 1);
    XorPairTwice(e.left, Key(rk, n + 2));
    XorPairTwice(e.right, Key(rk, n + 3));
    StepsBack(s, dk, rk, nr, n, w);
    assert Steps(s, rk, 0, w) == w by { FirstStep(s, rk, w); }
    XorPairTwice(h.left, Key(rk, 0));
    XorPairTwice(h.right, Key(rk, 1));
  }

  lemma {:induction false} FirstStep(s: SBoxes, rk: seq<bv32>, h: Halves)
    requires |rk| >= 4
    ensures Steps(s, rk, 0, h) == h
  {
  }

  // ---- the code

  class Context {
    var nr: nat
    var rk: array<bv32>

    constructor (nr: nat, rk: array<bv32>)
      ensures this.nr == nr && this.rk == rk
    {
      this.nr, this.rk := nr, rk;
    }

    ghost predicate Valid()
      reads this
    {
      nr > 0 && rk.Length >= ScheduleLength(nr)
    }
  }

  ghost function StateOf(x: array<bv32>): Halves
    requires x.Length == 4
    reads x
  {
    Halves(Pair(x[0], x[1]), Pair(x[2], x[3]))
  }

  function PairAt(x: array<bv32>, p: nat): Pair
    requires p + 1 < x.Length
    reads x
  {
    Pair(x[p], x[p + 1])
  }

  // camellia_feistel(X + xo, RK + p, X + zo)
  method CamelliaFeistel(s: SBoxes, x: array<bv32>, xo: nat, rk: array<bv32>, p: nat, zo: nat)
    requires x.Length == 4 && x != rk && p + 1 < rk.Length
    requires (xo == 0 && zo == 2) || (xo == 2 && zo == 0)
    modifies x
    ensures PairAt(x, xo) == old(PairAt(x, xo))
    ensures PairAt(x, zo) == XorPair(old(PairAt(x, zo)), Feistel(s, old(PairAt(x, xo)), PairAt(rk, p)))
  {
    hide Xor;
    hide Join;
    hide Rotl1;
    hide Rotl8;
    hide Rotl16;
    hide Rotl24;
    var i0, i1 := Xor(x[xo], rk[p]), Xor(x[xo + 1], rk[p + 1]);
    i0 := Join(s.s4(Byte0(i0)), s.s3(Byte1(i0)), s.s2(Byte2(i0)), s.s1(Byte3(i0)));
    i1 := Join(s.s1(Byte0(i1)), s.s4(Byte1(i1)), s.s3(Byte2(i1)), s.s2(Byte3(i1)));
    i0 := Xor(i0, Rotl8(i1));
    i1 := Xor(i1, Rotl16(i0));
    i0 := Xor(i0, Rotl24(i1));
    i1 := Xor(i1, Rotl24(i0));
    x[zo] := Xor(x[zo], i1);
    x[zo + 1] := Xor(x[zo + 1], i0);
  }

  // One Feistel round of the unrolled loop body.
  method Round(s: SBoxes, x: array<bv32>, xo: nat, rk: array<bv32>, p: nat, zo: nat, ghost n: nat, ghost w: Halves)
    requires x.Length == 4 && x != rk && p == 4 + 2 * n && p + 1 < rk.Length
    requires (n % 2 == 0 && xo == 0 && zo == 2) || (n % 2 == 1 && xo == 2 && zo == 0)
    requires n % 8 < 6 && StateOf(x) == Steps(s, rk[..], n, w)
    modifies x
    ensures StateOf(x) == Steps(s, rk[..], n + 1, w)
  {
    hide Feistel;
    hide Xor;
    hide FL;
    hide FLInv;
    hide Steps;
    ghost var h := StateOf(x);
    assert Key(rk[..], n + 2) == PairAt(rk, p);
    CamelliaFeistel(s, x, xo, rk, p, zo);
    assert StateOf(x) == Inner(s, n, PairAt(rk, p), h);
    NextStep(s, rk[..], n, w);
  }

  lemma {:induction false} NextStep(s: SBoxes, rk: seq<bv32>, n: nat, h: Halves)
    requires 6 + 2 * n <= |rk|
    ensures Steps(s, rk, n + 1, h) == Inner(s, n, Key(rk, n + 2), Steps(s, rk, n, h))
  {
  }

  // FL on the left half and FLInv on the right one.
  method FLLayer(s: SBoxes, x: array<bv32>, rk: array<bv32>, ghost n: nat, p: nat, ghost w: Halves)
    requires x.Length == 4 && x != rk && p == 4 + 2 * n && p + 3 < rk.Length
    requires n % 8 == 6 && StateOf(x) == Steps(s, rk[..], n, w)
    modifies x
    ensures StateOf(x) == Steps(s, rk[..], n + 2, w)
  {
    hide *;
    ghost var h := StateOf(x);
    ghost var k0, k1 := PairAt(rk, p), PairAt(rk, p + 2);
    FLWords(x, rk, p);
    assert rk[..] == old(rk[..]);
    KeyIs(rk, n + 2);
    KeyIs(rk, n + 3);
    TwoSteps(s, rk[..], n, w);
  }

  lemma {:induction false} KeyIs(rk: array<bv32>, j: nat)
    requires 2 * j + 1 < rk.Length
    ensures Key(rk[..], j) == PairAt(rk, 2 * j)
  {
  }

  lemma {:induction false} TwoSteps(s: SBoxes, rk: seq<bv32>, n: nat, w: Halves)
    requires 8 + 2 * n <= |rk| && n % 8 == 6
    ensures var h := Steps(s, rk, n, w);
            Steps(s, rk, n + 2, w) == Halves(FL(h.left, Key(rk, n + 2)), FLInv(h.right, Key(rk, n + 3)))
  {
    hide Steps;
    hide FL;
    hide FLInv;
    NextStep(s, rk, n, w);
    NextStep(s, rk, n + 1, w);
    assert (n + 1) % 8 == 7;
  }

  method FLWords(x: array<bv32>, rk: array<bv32>, p: nat)
    requires x.Length == 4 && x != rk && p + 3 < rk.Length
    modifies x
    ensures StateOf(x) == Halves(FL(old(StateOf(x)).left, PairAt(rk, p)), FLInv(old(StateOf(x)).right, PairAt(rk, p + 2)))
  {
    hide Xor;
    hide And;
    hide Or;
    hide Rotl1;
    x[1] := Xor(Rotl1(And(x[0], rk[p])), x[1]);
    x[0] := Xor(Or(x[1], rk[p + 1]), x[0]);
    x[2] := Xor(Or(x[3], rk[p + 3]), x[2]);
    x[3] := Xor(Rotl1(And(x[2], rk[p + 2])), x[3]);
  }

  // mbedtls_camellia_crypt_ecb
  method CryptEcb(s: SBoxes, ctx: Context, input: seq<bv8>, output: array<bv8>)
    requires ctx.Valid() && |input| == 16 && output.Length == 16
    modifies output
    ensures output[..] == CryptBytes(s, ctx.rk[..], ctx.nr, input)
  {
    hide Steps;
    hide PutBE;
    hide GetBE;
    hide Whiten;
    hide StateOf;
    var rk := ctx.rk;
    ghost var keys := rk[..];
    var q := GetBE(input);
    var x := new bv32[4];
    WhitenIn(x, rk, q);
    var p := Groups(s, x, rk, ctx.nr, Whiten(keys, 0, FromQuad(q)));
    assert rk[..] == keys;
    WhitenOut(x, rk, p);
    assert rk[..] == keys && p / 2 == InnerPairs(ctx.nr) + 2;
    PutOut(x, output);
    assert rk[..] == keys;
  }

  // X[0..4] = the words of the input, whitened.
  method WhitenIn(x: array<bv32>, rk: array<bv32>, q: Quad)
    requires x.Length == 4 && x != rk && rk.Length >= 4
    modifies x
    ensures StateOf(x) == Whiten(rk[..], 0, FromQuad(q))
  {
    hide Xor;
    x[0], x[1], x[2], x[3] := Xor(q.a, rk[0]), Xor(q.b, rk[1]), Xor(q.c, rk[2]), Xor(q.d, rk[3]);
  }

  // The loop over the groups of six rounds, with an FL layer between them.
  method Groups(s: SBoxes, x: array<bv32>, rk: array<bv32>, groups: nat, ghost w: Halves) returns (p: nat)
    requires groups > 0 && rk.Length >= ScheduleLength(groups) && x.Length == 4 && x != rk && StateOf(x) == w
    modifies x
    ensures p == 16 * groups && StateOf(x) == Steps(s, rk[..], InnerPairs(groups), w)
  {
    hide Steps;
    hide StateOf;
    hide Whiten;
    hide Key;
    hide Xor;
    ghost var keys := rk[..];
    FirstStep(s, keys, w);
    p := 4;
    var nr := groups;
    while nr > 0
      invariant 0 <= nr <= groups && keys == rk[..]
      invariant p == if nr > 0 then 4 + 16 * (groups - nr) else 16 * groups
      invariant StateOf(x) == Steps(s, keys, if nr > 0 then 8 * (groups - nr) else InnerPairs(groups), w)
    {
      ghost var n := 8 * (groups - nr);
      nr := nr - 1;
      p := Group(s, x, rk, n, p, nr > 0, w);
    }
  }

  // One turn of the loop; more says that another group follows.
  method Group(s: SBoxes, x: array<bv32>, rk: array<bv32>, ghost n: nat, p: nat, more: bool, ghost w: Halves) returns (p': nat)
    requires x.Length == 4 && x != rk && p == 4 + 2 * n && p + (if more then 15 else 11) < rk.Length
    requires n % 8 == 0 && StateOf(x) == Steps(s, rk[..], n, w)
    modifies x
    ensures p' == p + if more then 16 else 12
    ensures StateOf(x) == Steps(s, rk[..], n + if more then 8 else 6, w)
  {
    hide Steps;
    hide StateOf;
    p' := SixRounds(s, x, rk, n, p, w);
    if more {
      assert (n + 6) % 8 == 6;
      FLLayer(s, x, rk, n + 6, p', w);
      p' := p' + 4;
    }
  }

  // The final whitening: X[2], X[3], X[0], X[1] in this order.
  method WhitenOut(x: array<bv32>, rk: array<bv32>, p: nat)
    requires x.Length == 4 && x != rk && p % 2 == 0 && p + 3 < rk.Length
    modifies x
    ensures Exchange(StateOf(x)) == Whiten(rk[..], p / 2, Exchange(old(StateOf(x))))
  {
    hide Xor;
    x[2] := Xor(x[2], rk[p]);
    x[3] := Xor(x[3], rk[p + 1]);
    x[0] := Xor(x[0], rk[p + 2]);
    x[1] := Xor(x[1], rk[p + 3]);
  }

  // PUT_UINT32_BE of X[2], X[3], X[0], X[1].
  method PutOut(x: array<bv32>, output: array<bv8>)
    requires x.Length == 4 && output.Length == 16
    modifies output
    ensures output[..] == PutBE(ToQuad(Exchange(StateOf(x))))
  {
    hide PutBE;
    var r := PutBE(Quad(x[2], x[3], x[0], x[1]));
    forall i | 0 <= i < 16 { output[i] := r[i]; }
    assert output[..] == r;
  }

  lemma {:induction false} Parity(n: nat)
    requires n % 8 == 0
    ensures (n + 1) % 8 == 1 && (n + 2) % 8 == 2 && (n + 3) % 8 == 3 && (n + 4) % 8 == 4 && (n + 5) % 8 == 5
    ensures n % 2 == 0 && (n + 1) % 2 == 1 && (n + 2) % 2 == 0 && (n + 3) % 2 == 1 && (n + 4) % 2 == 0 && (n + 5) % 2 == 1
  {
  }

  method SixRounds(s: SBoxes, x: array<bv32>, rk: array<bv32>, ghost n: nat, p: nat, ghost w: Halves) returns (p': nat)
    requires x.Length == 4 && x != rk && p == 4 + 2 * n && p + 11 < rk.Length
    requires n % 8 == 0 && StateOf(x) == Steps(s, rk[..], n, w)
    modifies x
    ensures p' == p + 12
    ensures StateOf(x) == Steps(s, rk[..], n + 6, w)
  {
    hide Steps;
    Parity(n);
    Round(s, x, 0, rk, p, 2, n, w);
    Round(s, x, 2, rk, p + 2, 0, n + 1, w);
    Round(s, x, 0, rk, p + 4, 2, n + 2, w);
    Round(s, x, 2, rk, p + 6, 0, n + 3, w);
    Round(s, x, 0, rk, p + 8, 2, n + 4, w);
    Round(s, x, 2, rk, p + 10, 0, n + 5, w);
    p' := p + 12;
  }

  function FromQuad(q: Quad): Halves { Halves(Pair(q.a, q.b), Pair(q.c, q.d)) }

  function ToQuad(h: Halves): Quad { Quad(h.left.l, h.left.r, h.right.l, h.right.r) }

  function CryptBytes(s: SBoxes, rk: seq<bv32>, nr: nat, input: seq<bv8>): (output: seq<bv8>)
    requires nr > 0 && |rk| >= ScheduleLength(nr) && |input| == 16
    ensures |output| == 16
  {
    PutBE(ToQuad(Crypt(s, rk, nr, FromQuad(GetBE(input)))))
  }

  lemma {:induction false} Sources(nr: nat)
    requires nr > 0
    ensures var n := InnerPairs(nr);
            && Source(nr, 0) == n + 2 && Source(nr, 1) == n + 3 && Source(nr, n + 2) == 0 && Source(nr, n + 3) == 1
            && forall j: nat :: 2 <= j < n + 2 ==> Source(nr, j) == n + 3 - j
  {
  }

  // The part of mbedtls_camellia_setkey_dec after the encryption schedule has
  // been computed: SK walks the pairs of cty backwards.
  method SetkeyDec(ctx: Context, cty: Context)
    requires cty.Valid() && ctx != cty && ctx.rk != cty.rk && ctx.rk.Length >= ScheduleLength(cty.nr)
    modifies ctx, ctx.rk
    ensures ctx.rk == old(ctx.rk) && ctx.nr == cty.nr && ctx.Valid()
    ensures Reversed(ctx.rk[..], cty.rk[..], cty.nr)
  {
    hide Key;
    hide Source;
    Sources(cty.nr);
    ctx.nr := cty.nr;
    var nr, dk, rk := cty.nr, ctx.rk, cty.rk;
    var n := 8 * nr - 2;
    var sk := 2 * n + 4;
    CopyPair(dk, 0, rk, sk);
    CopyPair(dk, 2, rk, sk + 2);
    var i := n;
    var at := 4;
    sk := sk + 4 - 6;
    while i > 0
      invariant 0 <= i <= n && at == 4 + 2 * (n - i) && sk == 2 * i + 2
      invariant dk == ctx.rk == old(ctx.rk) && ctx.nr == nr
      invariant forall j: nat :: j < n - i + 2 ==> Key(dk[..], j) == Key(rk[..], Source(nr, j))
    {
      CopyPair(dk, at, rk, sk);
      at, sk := at + 2, sk + 2;
      i, sk := i - 1, sk - 4;
    }
    sk := sk - 2;
    CopyPair(dk, at, rk, sk);
    CopyPair(dk, at + 2, rk, sk + 2);
  }

  // *RK++ = *SK++, twice.
  method CopyPair(dk: array<bv32>, p: nat, rk: array<bv32>, q: nat)
    requires dk != rk && p + 1 < dk.Length && q + 1 < rk.Length && p % 2 == 0 && q % 2 == 0
    modifies dk
    ensures Key(dk[..], p / 2) == Key(rk[..], q / 2)
    ensures forall j: nat :: 2 * j + 1 < dk.Length && j != p / 2 ==> Key(dk[..], j) == old(Key(dk[..], j))
  {
    dk[p] := rk[q];
    dk[p + 1] := rk[q + 1];
  }

  // Decrypting the bytes of an encrypted block gives the block back.
  lemma {:induction false} DecryptBytes(s: SBoxes, dk: seq<bv32>, rk: seq<bv32>, nr: nat, input: seq<bv8>)
    requires Reversed(dk, rk, nr) && |input| == 16
    ensures CryptBytes(s, dk, nr, CryptBytes(s, rk, nr, input)) == input
  {
    hide Crypt;
    hide GetBE;
    hide PutBE;
    var h := FromQuad(GetBE(input));
    GetPutBE(ToQuad(Crypt(s, rk, nr, h)));
    DecryptUndoesEncrypt(s, dk, rk, nr, h);
    PutGetBE(input);
  }

  // A block encrypted under a schedule and decrypted under the one SetkeyDec
  // makes of it.
  method EncryptThenDecrypt(s: SBoxes, ctx: Context, cty: Context, input: seq<bv8>) returns (output: array<bv8>)
    requires cty.Valid() && ctx != cty && ctx.rk != cty.rk && ctx.rk.Length >= ScheduleLength(cty.nr) && |input| == 16
    modifies ctx, ctx.rk
    ensures output[..] == input
  {
    hide CryptBytes;
    hide Reversed;
    var middle := new bv8[16];
    output := new bv8[16];
    CryptEcb(s, cty, input, middle);
    SetkeyDec(ctx, cty);
    CryptEcb(s, ctx, middle[..], output);
    DecryptBytes(s, ctx.rk[..], cty.rk[..], cty.nr, input);
  }
}
