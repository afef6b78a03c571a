// The look-up tables of misc/mbedtls/library/aes.c as functions of their index,
// and why a round by look-up is a round by substitution and column mixing.
module AesTables {
  import opened Words
  import opened AesColumns

  // FSb and RSb as functions of their index.
  datatype Tables = Tables(fsb: bv8 -> bv8, rsb: bv8 -> bv8) {
    ghost predicate Inverse() {
      && (forall x: bv8 {:trigger fsb(x)} :: rsb(fsb(x)) == x)
      && (forall x: bv8 {:trigger rsb(x)} :: fsb(rsb(x)) == x)
    }
  }

  function FT0(sb: Tables, i: bv8): bv32 {
    var x := sb.fsb(i);
    var y := Xtime(x);
    Join(y, x, x, Xor8(y, x))
  }

  function FT1(sb: Tables, i: bv8): bv32 { Rotl8(FT0(sb, i)) }

  function FT2(sb: Tables, i: bv8): bv32 { Rotl8(FT1(sb, i)) }

  function FT3(sb: Tables, i: bv8): bv32 { Rotl8(FT2(sb, i)) }

  // Products by 14, 9, 13 and 11 in GF(2^8).
  function Times14(x: bv8): bv8 { Xor8(Xor8(Times8(x), Times4(x)), Xtime(x)) }

  function Times9(x: bv8): bv8 { Xor8(Times8(x), x) }

  function Times13(x: bv8): bv8 { Xor8(Xor8(Times8(x), Times4(x)), x) }

  function Times11(x: bv8): bv8 { Xor8(Xor8(Times8(x), Xtime(x)), x) }

  function RT0(sb: Tables, i: bv8): bv32 {
    var x := sb.rsb(i);
    Join(Times14(x), Times9(x), Times13(x), Times11(x))
  }

  function RT1(sb: Tables, i: bv8): bv32 { Rotl8(RT0(sb, i)) }

  function RT2(sb: Tables, i: bv8): bv32 { Rotl8(RT1(sb, i)) }

  function RT3(sb: Tables, i: bv8): bv32 { Rotl8(RT2(sb, i)) }

  // A round key word and four table entries summed in the order of the code.
  function Column(k: bv32, t0: bv32, t1: bv32, t2: bv32, t3: bv32): bv32 {
    Xor(Xor(Xor(Xor(k, t0), t1), t2), t3)
  }

  function Sum(t0: bv32, t1: bv32, t2: bv32, t3: bv32): bv32 {
    Xor(Xor(Xor(t0, t1), t2), t3)
  }

  lemma {:induction false} ColumnIs(k: bv32, t0: bv32, t1: bv32, t2: bv32, t3: bv32)
    ensures Column(k, t0, t1, t2, t3) == Xor(Sum(t0, t1, t2, t3), k)
  {
    hide Xor;
    XorAssoc(k, t0, t1);
    XorAssoc(k, Xor(t0, t1), t2);
    XorAssoc(k, Xor(Xor(t0, t1), t2), t3);
    XorTwice(k, Sum(t0, t1, t2, t3));
  }

  lemma {:induction false} SumOfJoins(a0: bv8, a1: bv8, a2: bv8, a3: bv8, b0: bv8, b1: bv8, b2: bv8, b3: bv8,
                                      c0: bv8, c1: bv8, c2: bv8, c3: bv8, d0: bv8, d1: bv8, d2: bv8, d3: bv8)
    ensures Sum(Join(a0, a1, a2, a3), Join(b0, b1, b2, b3), Join(c0, c1, c2, c3), Join(d0, d1, d2, d3))
         == Join(Xor8(Xor8(Xor8(a0, b0), c0), d0), Xor8(Xor8(Xor8(a1, b1), c1), d1),
                 Xor8(Xor8(Xor8(a2, b2), c2), d2), Xor8(Xor8(Xor8(a3, b3), c3), d3))
  {
    hide Join;
    hide Xor;
    hide Xor8;
    JoinXor(a0, a1, a2, a3, b0, b1, b2, b3);
    JoinXor(Xor8(a0, b0), Xor8(a1, b1), Xor8(a2, b2), Xor8(a3, b3), c0, c1, c2, c3);
    JoinXor(Xor8(Xor8(a0, b0), c0), Xor8(Xor8(a1, b1), c1), Xor8(Xor8(a2, b2), c2), Xor8(Xor8(a3, b3), c3), d0, d1, d2, d3);
  }

  // A sum of four terms does not depend on where the cycle starts.
  lemma {:induction false} Rotate4(a: bv8, b: bv8, c: bv8, d: bv8)
    ensures Xor8(Xor8(Xor8(d, a), b), c) == Xor8(Xor8(Xor8(a, b), c), d)
  {
    hide Xor8;
    Xor8Assoc(d, a, b);
    Xor8Assoc(d, Xor8(a, b), c);
    Xor8Comm(d, Xor8(Xor8(a, b), c));
  }

  lemma {:induction false} Regroup(a: bv8, b: bv8, c: bv8, d: bv8, e: bv8)
    ensures Xor8(Xor8(Xor8(a, Xor8(b, c)), d), e) == Xor5(a, b, c, d, e)
    ensures Xor8(Xor8(Xor8(e, a), Xor8(b, c)), d) == Xor5(a, b, c, d, e)
    ensures Xor8(Xor8(Xor8(d, e), a), Xor8(b, c)) == Xor5(a, b, c, d, e)
    ensures Xor8(Xor8(Xor8(Xor8(b, c), d), e), a) == Xor5(a, b, c, d, e)
  {
    hide *;
    Xor8Is(b, c);
    Sum5(a, b, c, d, e);
    Order0(a, b, c, d, e);
    var z := Xor8(b, c);
    Rotate4(a, z, d, e);
    Rotate4(e, a, z, d);
    Rotate4(d, e, a, z);
  }

  lemma {:induction false} Order0(a: bv8, b: bv8, c: bv8, d: bv8, e: bv8)
    ensures Xor8(a, b ^ c) == a ^ b ^ c
    ensures Xor8(a ^ b ^ c, d) == a ^ b ^ c ^ d
    ensures Xor8(a ^ b ^ c ^ d, e) == a ^ b ^ c ^ d ^ e
  {
  }

  // AES_FROUND computes SubBytes, ShiftRows and MixColumns on a column.
  lemma {:induction false} ForwardColumn(sb: Tables, i0: bv8, i1: bv8, i2: bv8, i3: bv8)
    ensures Sum(FT0(sb, i0), FT1(sb, i1), FT2(sb, i2), FT3(sb, i3)) == MixColumn(Join(sb.fsb(i0), sb.fsb(i1), sb.fsb(i2), sb.fsb(i3)))
  {
    hide Join;
    hide Xor;
    hide Xor8;
    hide Xor5;
    hide Sum;
    hide Xtime;
    hide Rotl8;
    hide Byte0;
    hide Byte1;
    hide Byte2;
    hide Byte3;
    var x0, x1, x2, x3 := sb.fsb(i0), sb.fsb(i1), sb.fsb(i2), sb.fsb(i3);
    var y0, y1, y2, y3 := Xtime(x0), Xtime(x1), Xtime(x2), Xtime(x3);
    var z0, z1, z2, z3 := Xor8(y0, x0), Xor8(y1, x1), Xor8(y2, x2), Xor8(y3, x3);
    Rotations(y1, x1, x1, z1);
    Rotations(y2, x2, x2, z2);
    Rotations(y3, x3, x3, z3);
    BytesJoin(x0, x1, x2, x3);
    SumOfJoins(y0, x0, x0, z0, z1, y1, x1, x1, x2, z2, y2, x2, x3, x3, z3, y3);
    Regroup(y0, y1, x1, x2, x3);
    Regroup(y1, y2, x2, x3, x0);
    Regroup(y2, y3, x3, x0, x1);
    Regroup(y3, y0, x0, x1, x2);
  }

  lemma {:induction false} Rotations(b0: bv8, b1: bv8, b2: bv8, b3: bv8)
    ensures var w := Join(b0, b1, b2, b3);
            && Rotl8(w) == Join(b3, b0, b1, b2)
            && Rotl8(Rotl8(w)) == Join(b2, b3, b0, b1)
            && Rotl8(Rotl8(Rotl8(w))) == Join(b1, b2, b3, b0)
  {
    hide *;
    RotateJoin(b0, b1, b2, b3);
    RotateJoin(b3, b0, b1, b2);
    RotateJoin(b2, b3, b0, b1);
  }

  // Sums nested to the right unfold to the left.
  lemma {:induction false} Push(x: bv8, a: bv8, b: bv8, c: bv8)
    ensures Xor8(x, Xor8(a, b)) == Xor8(Xor8(x, a), b)
    ensures Xor8(x, Xor8(Xor8(a, b), c)) == Xor8(Xor8(Xor8(x, a), b), c)
  {
    hide Xor8;
    Xor8Assoc(x, a, b);
    Xor8Assoc(x, Xor8(a, b), c);
  }

  lemma {:induction false} Chain11(a: bv8, b: bv8, c: bv8, d: bv8, e: bv8, f: bv8, g: bv8, h: bv8, i: bv8, j: bv8, k: bv8)
    ensures Xor11(a, b, c, d, e, f, g, h, i, j, k)
         == Xor8(Xor8(Xor8(Xor8(Xor8(Xor8(Xor8(Xor8(Xor8(Xor8(a, b), c), d), e), f), g), h), i), j), k)
  {
    hide *;
    Groups11(a, b, c, d, e, f, g, h, i, j, k);
    Chain5(a, b, c, d, e);
    Chain5(f, g, h, i, j);
    var x := Xor5(a, b, c, d, e);
    var fgh := Xor8(Xor8(f, g), h);
    Push(x, fgh, i, j);
    Push(x, f, g, h);
    Push(x, Xor5(f, g, h, i, j), k, k);
  }

  // The four sums of products that make up an inverse table column.
  lemma {:induction false} RegroupInv(p8: bv8, p4: bv8, p2: bv8, q8: bv8, q2: bv8, q1: bv8,
                                      r8: bv8, r4: bv8, r1: bv8, s8: bv8, s1: bv8)
    ensures var e, b, d, n := Xor8(Xor8(p8, p4), p2), Xor8(Xor8(q8, q2), q1), Xor8(Xor8(r8, r4), r1), Xor8(s8, s1);
            var sum := Xor11(p8, p4, p2, q8, q2, q1, r8, r4, r1, s8, s1);
            && Xor8(Xor8(Xor8(e, b), d), n) == sum && Xor8(Xor8(Xor8(n, e), b), d) == sum
            && Xor8(Xor8(Xor8(d, n), e), b) == sum && Xor8(Xor8(Xor8(b, d), n), e) == sum
  {
    hide *;
    var e, b, d, n := Xor8(Xor8(p8, p4), p2), Xor8(Xor8(q8, q2), q1), Xor8(Xor8(r8, r4), r1), Xor8(s8, s1);
    Chain11(p8, p4, p2, q8, q2, q1, r8, r4, r1, s8, s1);
    Push(e, q8, q2, q1);
    Push(Xor8(e, b), r8, r4, r1);
    Push(Xor8(Xor8(e, b), d), s8, s1, s1);
    Rotate4(e, b, d, n);
    Rotate4(n, e, b, d);
    Rotate4(d, n, e, b);
  }

  // AES_RROUND computes InvSubBytes, InvShiftRows and InvMixColumns on a column.
  lemma {:induction false} InverseColumn(sb: Tables, i0: bv8, i1: bv8, i2: bv8, i3: bv8)
    ensures Sum(RT0(sb, i0), RT1(sb, i1), RT2(sb, i2), RT3(sb, i3)) == InvMixColumn(Join(sb.rsb(i0), sb.rsb(i1), sb.rsb(i2), sb.rsb(i3)))
  {
    hide Join;
    hide Xor;
    hide Xor8;
    hide Xor11;
    hide Sum;
    hide Xtime;
    hide Times4;
    hide Times8;
    hide Times9;
    hide Times11;
    hide Times13;
    hide Times14;
    hide Rotl8;
    hide Byte0;
    hide Byte1;
    hide Byte2;
    hide Byte3;
    var x0, x1, x2, x3 := sb.rsb(i0), sb.rsb(i1), sb.rsb(i2), sb.rsb(i3);
    Rotations(Times14(x1), Times9(x1), Times13(x1), Times11(x1));
    Rotations(Times14(x2), Times9(x2), Times13(x2), Times11(x2));
    Rotations(Times14(x3), Times9(x3), Times13(x3), Times11(x3));
    BytesJoin(x0, x1, x2, x3);
    SumOfJoins(Times14(x0), Times9(x0), Times13(x0), Times11(x0), Times11(x1), Times14(x1), Times9(x1), Times13(x1),
               Times13(x2), Times11(x2), Times14(x2), Times9(x2), Times9(x3), Times13(x3), Times11(x3), Times14(x3));
    InverseRow(x0, x1, x2, x3);
    InverseRow(x1, x2, x3, x0);
    InverseRow(x2, x3, x0, x1);
    InverseRow(x3, x0, x1, x2);
  }

  lemma {:induction false} InverseRow(p: bv8, q: bv8, r: bv8, s: bv8)
    ensures var row := InvMixRow(p, q, r, s);
            && Xor8(Xor8(Xor8(Times14(p), Times11(q)), Times13(r)), Times9(s)) == row
            && Xor8(Xor8(Xor8(Times9(s), Times14(p)), Times11(q)), Times13(r)) == row
            && Xor8(Xor8(Xor8(Times13(r), Times9(s)), Times14(p)), Times11(q)) == row
            && Xor8(Xor8(Xor8(Times11(q), Times13(r)), Times9(s)), Times14(p)) == row
  {
    hide Xor8;
    hide Xor11;
    hide Xtime;
    hide Times4;
    hide Times8;
    RegroupInv(Times8(p), Times4(p), Xtime(p), Times8(q), Xtime(q), q, Times8(r), Times4(r), r, Times8(s), s);
  }
}
