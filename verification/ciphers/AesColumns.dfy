// Multiplication by x in GF(2^8), the column maps MixColumns and InvMixColumns
// of FIPS 197 that misc/mbedtls/library/aes.c keeps in its tables, and why they
// are linear and undo each other.
module AesColumns {
  import opened Words

  // The XTIME macro: multiplication by x in GF(2^8).
  function Xtime(b: bv8): bv8 {
    Xor8(Doubled(b), Carry(b))
  }

  function Doubled(b: bv8): bv8 { b << 1 }

  function Carry(b: bv8): bv8 { if b & 0x80 != 0 then 0x1B else 0 }

  function Xor5(a: bv8, b: bv8, c: bv8, d: bv8, e: bv8): bv8 { a ^ b ^ c ^ d ^ e }

  function Xor11(a: bv8, b: bv8, c: bv8, d: bv8, e: bv8, f: bv8, g: bv8, h: bv8, i: bv8, j: bv8, k: bv8): bv8 {
    a ^ b ^ c ^ d ^ e ^ f ^ g ^ h ^ i ^ j ^ k
  }

  // 2p + 3q + r + s
  function MixRow(p: bv8, q: bv8, r: bv8, s: bv8): bv8 {
    Xor5(Xtime(p), Xtime(q), q, r, s)
  }

  // 14p + 11q + 13r + 9s
  function InvMixRow(p: bv8, q: bv8, r: bv8, s: bv8): bv8 {
    Xor11(Times8(p), Times4(p), Xtime(p), Times8(q), Xtime(q), q, Times8(r), Times4(r), r, Times8(s), s)
  }

  function Times4(b: bv8): bv8 { Xtime(Xtime(b)) }

  function Times8(b: bv8): bv8 { Xtime(Times4(b)) }

  // MixColumns on one column, section 5.1.3 of FIPS 197.
  function MixColumn(w: bv32): bv32 {
    var b0, b1, b2, b3 := Byte0(w), Byte1(w), Byte2(w), Byte3(w);
    Join(MixRow(b0, b1, b2, b3), MixRow(b1, b2, b3, b0), MixRow(b2, b3, b0, b1), MixRow(b3, b0, b1, b2))
  }

  // InvMixColumns on one column, section 5.3.3 of FIPS 197.
  function InvMixColumn(w: bv32): bv32 {
    var b0, b1, b2, b3 := Byte0(w), Byte1(w), Byte2(w), Byte3(w);
    Join(InvMixRow(b0, b1, b2, b3), InvMixRow(b1, b2, b3, b0), InvMixRow(b2, b3, b0, b1), InvMixRow(b3, b0, b1, b2))
  }

  lemma {:induction false} XtimeXor(a: bv8, b: bv8)
    ensures Xtime(Xor8(a, b)) == Xor8(Xtime(a), Xtime(b))
  {
    hide Doubled;
    hide Carry;
    hide Xor8;
    DoubledXor(a, b);
    CarryXor(a, b);
    Xor8Swap(Doubled(a), Doubled(b), Carry(a), Carry(b));
  }

  lemma {:induction false} DoubledXor(a: bv8, b: bv8)
    ensures Doubled(Xor8(a, b)) == Xor8(Doubled(a), Doubled(b))
  {
  }

  lemma {:induction false} CarryXor(a: bv8, b: bv8)
    ensures Carry(Xor8(a, b)) == Xor8(Carry(a), Carry(b))
  {
  }

  lemma {:induction false} Sum5(a: bv8, b: bv8, c: bv8, d: bv8, e: bv8)
    ensures Xor5(a, b, c, d, e) == a ^ b ^ c ^ d ^ e
  {
  }

  lemma {:induction false} Chain5(a: bv8, b: bv8, c: bv8, d: bv8, e: bv8)
    ensures Xor5(a, b, c, d, e) == Xor8(Xor8(Xor8(Xor8(a, b), c), d), e)
  {
  }

  lemma {:induction false} Sum11(a: bv8, b: bv8, c: bv8, d: bv8, e: bv8, f: bv8, g: bv8, h: bv8, i: bv8, j: bv8, k: bv8)
    ensures Xor11(a, b, c, d, e, f, g, h, i, j, k) == a ^ b ^ c ^ d ^ e ^ f ^ g ^ h ^ i ^ j ^ k
  {
  }

  // A sum of eleven terms in groups of at most five.
  lemma {:induction false} Groups11(a: bv8, b: bv8, c: bv8, d: bv8, e: bv8, f: bv8, g: bv8, h: bv8, i: bv8, j: bv8, k: bv8)
    ensures Xor11(a, b, c, d, e, f, g, h, i, j, k) == Xor8(Xor5(a, b, c, d, e), Xor8(Xor5(f, g, h, i, j), k))
  {
    hide *;
    Sum11(a, b, c, d, e, f, g, h, i, j, k);
    Sum5(a, b, c, d, e);
    Sum5(f, g, h, i, j);
    Parts11(a, b, c, d, e, f, g, h, i, j, k);
  }

  lemma {:induction false} Parts11(a: bv8, b: bv8, c: bv8, d: bv8, e: bv8, f: bv8, g: bv8, h: bv8, i: bv8, j: bv8, k: bv8)
    ensures Xor8(f ^ g ^ h ^ i ^ j, k) == f ^ g ^ h ^ i ^ j ^ k
    ensures Xor8(a ^ b ^ c ^ d ^ e, f ^ g ^ h ^ i ^ j ^ k) == a ^ b ^ c ^ d ^ e ^ f ^ g ^ h ^ i ^ j ^ k
  {
  }

  lemma {:induction false} XtimeXor5(a: bv8, b: bv8, c: bv8, d: bv8, e: bv8)
    ensures Xtime(Xor5(a, b, c, d, e)) == Xor5(Xtime(a), Xtime(b), Xtime(c), Xtime(d), Xtime(e))
  {
    hide *;
    Chain5(a, b, c, d, e);
    Chain5(Xtime(a), Xtime(b), Xtime(c), Xtime(d), Xtime(e));
    XtimeXor(a, b);
    XtimeXor(Xor8(a, b), c);
    XtimeXor(Xor8(Xor8(a, b), c), d);
    XtimeXor(Xor8(Xor8(Xor8(a, b), c), d), e);
  }

  lemma {:induction false} XtimeXor11(a: bv8, b: bv8, c: bv8, d: bv8, e: bv8, f: bv8, g: bv8, h: bv8, i: bv8, j: bv8, k: bv8)
    ensures Xtime(Xor11(a, b, c, d, e, f, g, h, i, j, k))
         == Xor11(Xtime(a), Xtime(b), Xtime(c), Xtime(d), Xtime(e), Xtime(f), Xtime(g), Xtime(h), Xtime(i), Xtime(j), Xtime(k))
  {
    hide *;
    Groups11(a, b, c, d, e, f, g, h, i, j, k);
    Groups11(Xtime(a), Xtime(b), Xtime(c), Xtime(d), Xtime(e), Xtime(f), Xtime(g), Xtime(h), Xtime(i), Xtime(j), Xtime(k));
    XtimeXor5(a, b, c, d, e);
    XtimeXor5(f, g, h, i, j);
    XtimeXor(Xor5(f, g, h, i, j), k);
    XtimeXor(Xor5(a, b, c, d, e), Xor8(Xor5(f, g, h, i, j), k));
  }

  // Multiplying a column by the MixColumns polynomial and then by its inverse;
  // a2, say, stands for x^2 times byte a.
  lemma {:induction false} CancelInvMix(a0: bv8, a1: bv8, a2: bv8, a3: bv8, a4: bv8,
                                        b0: bv8, b1: bv8, b2: bv8, b3: bv8, b4: bv8,
                                        c0: bv8, c1: bv8, c2: bv8, c3: bv8, c4: bv8,
                                        d0: bv8, d1: bv8, d2: bv8, d3: bv8, d4: bv8)
    ensures Xor11(a4 ^ b4 ^ b3 ^ c3 ^ d3,
                  a3 ^ b3 ^ b2 ^ c2 ^ d2,
                  a2 ^ b2 ^ b1 ^ c1 ^ d1,
                  b4 ^ c4 ^ c3 ^ d3 ^ a3,
                  b2 ^ c2 ^ c1 ^ d1 ^ a1,
                  b1 ^ c1 ^ c0 ^ d0 ^ a0,
                  c4 ^ d4 ^ d3 ^ a3 ^ b3,
                  c3 ^ d3 ^ d2 ^ a2 ^ b2,
                  c1 ^ d1 ^ d0 ^ a0 ^ b0,
                  d4 ^ a4 ^ a3 ^ b3 ^ c3,
                  d1 ^ a1 ^ a0 ^ b0 ^ c0) == a0
  {
  }

  lemma {:induction false} InvMixMixRow(a0: bv8, a1: bv8, a2: bv8, a3: bv8, a4: bv8,
                                        b0: bv8, b1: bv8, b2: bv8, b3: bv8, b4: bv8,
                                        c0: bv8, c1: bv8, c2: bv8, c3: bv8, c4: bv8,
                                        d0: bv8, d1: bv8, d2: bv8, d3: bv8, d4: bv8)
    ensures Xor11(Xor5(a4, b4, b3, c3, d3),
                  Xor5(a3, b3, b2, c2, d2),
                  Xor5(a2, b2, b1, c1, d1),
                  Xor5(b4, c4, c3, d3, a3),
                  Xor5(b2, c2, c1, d1, a1),
                  Xor5(b1, c1, c0, d0, a0),
                  Xor5(c4, d4, d3, a3, b3),
                  Xor5(c3, d3, d2, a2, b2),
                  Xor5(c1, d1, d0, a0, b0),
                  Xor5(d4, a4, a3, b3, c3),
                  Xor5(d1, a1, a0, b0, c0)) == a0
  {
    hide *;
    CancelInvMix(a0, a1, a2, a3, a4, b0, b1, b2, b3, b4, c0, c1, c2, c3, c4, d0, d1, d2, d3, d4);
    Sum5(a4, b4, b3, c3, d3);
    Sum5(a3, b3, b2, c2, d2);
    Sum5(a2, b2, b1, c1, d1);
    Sum5(b4, c4, c3, d3, a3);
    Sum5(b2, c2, c1, d1, a1);
    Sum5(b1, c1, c0, d0, a0);
    Sum5(c4, d4, d3, a3, b3);
    Sum5(c3, d3, d2, a2, b2);
    Sum5(c1, d1, d0, a0, b0);
    Sum5(d4, a4, a3, b3, c3);
    Sum5(d1, a1, a0, b0, c0);
  }

  lemma {:induction false} CancelMix(a0: bv8, a1: bv8, a2: bv8, a3: bv8, a4: bv8,
                                     b0: bv8, b1: bv8, b2: bv8, b3: bv8, b4: bv8,
                                     c0: bv8, c1: bv8, c2: bv8, c3: bv8, c4: bv8,
                                     d0: bv8, d1: bv8, d2: bv8, d3: bv8, d4: bv8)
    ensures Xor5(a4 ^ a3 ^ a2 ^ b4 ^ b2 ^ b1 ^ c4 ^ c3 ^ c1 ^ d4 ^ d1,
                 b4 ^ b3 ^ b2 ^ c4 ^ c2 ^ c1 ^ d4 ^ d3 ^ d1 ^ a4 ^ a1,
                 b3 ^ b2 ^ b1 ^ c3 ^ c1 ^ c0 ^ d3 ^ d2 ^ d0 ^ a3 ^ a0,
                 c3 ^ c2 ^ c1 ^ d3 ^ d1 ^ d0 ^ a3 ^ a2 ^ a0 ^ b3 ^ b0,
                 d3 ^ d2 ^ d1 ^ a3 ^ a1 ^ a0 ^ b3 ^ b2 ^ b0 ^ c3 ^ c0) == a0
  {
  }

  lemma {:induction false} MixInvMixRow(a0: bv8, a1: bv8, a2: bv8, a3: bv8, a4: bv8,
                                        b0: bv8, b1: bv8, b2: bv8, b3: bv8, b4: bv8,
                                        c0: bv8, c1: bv8, c2: bv8, c3: bv8, c4: bv8,
                                        d0: bv8, d1: bv8, d2: bv8, d3: bv8, d4: bv8)
    ensures Xor5(Xor11(a4, a3, a2, b4, b2, b1, c4, c3, c1, d4, d1),
                 Xor11(b4, b3, b2, c4, c2, c1, d4, d3, d1, a4, a1),
                 Xor11(b3, b2, b1, c3, c1, c0, d3, d2, d0, a3, a0),
                 Xor11(c3, c2, c1, d3, d1, d0, a3, a2, a0, b3, b0),
                 Xor11(d3, d2, d1, a3, a1, a0, b3, b2, b0, c3, c0)) == a0
  {
    hide *;
    CancelMix(a0, a1, a2, a3, a4, b0, b1, b2, b3, b4, c0, c1, c2, c3, c4, d0, d1, d2, d3, d4);
    Sum11(a4, a3, a2, b4, b2, b1, c4, c3, c1, d4, d1);
    Sum11(b4, b3, b2, c4, c2, c1, d4, d3, d1, a4, a1);
    Sum11(b3, b2, b1, c3, c1, c0, d3, d2, d0, a3, a0);
    Sum11(c3, c2, c1, d3, d1, d0, a3, a2, a0, b3, b0);
    Sum11(d3, d2, d1, a3, a1, a0, b3, b2, b0, c3, c0);
  }

  // InvMixColumns undoes MixColumns, byte by byte.
  lemma {:induction false} InvMixMixBytes(a0: bv8, b0: bv8, c0: bv8, d0: bv8)
    ensures InvMixRow(MixRow(a0, b0, c0, d0), MixRow(b0, c0, d0, a0), MixRow(c0, d0, a0, b0), MixRow(d0, a0, b0, c0)) == a0
  {
    hide Xtime;
    hide Xor5;
    hide Xor11;
    var a1, a2, a3 := Xtime(a0), Times4(a0), Times8(a0);
    var a4 := Xtime(a3);
    var b1, b2, b3 := Xtime(b0), Times4(b0), Times8(b0);
    var b4 := Xtime(b3);
    var c1, c2, c3 := Xtime(c0), Times4(c0), Times8(c0);
    var c4 := Xtime(c3);
    var d1, d2, d3 := Xtime(d0), Times4(d0), Times8(d0);
    var d4 := Xtime(d3);
    XtimeXor5(a1, b1, b0, c0, d0);
    XtimeXor5(a2, b2, b1, c1, d1);
    XtimeXor5(a3, b3, b2, c2, d2);
    XtimeXor5(b1, c1, c0, d0, a0);
    XtimeXor5(b2, c2, c1, d1, a1);
    XtimeXor5(b3, c3, c2, d2, a2);
    XtimeXor5(c1, d1, d0, a0, b0);
    XtimeXor5(c2, d2, d1, a1, b1);
    XtimeXor5(c3, d3, d2, a2, b2);
    XtimeXor5(d1, a1, a0, b0, c0);
    XtimeXor5(d2, a2, a1, b1, c1);
    XtimeXor5(d3, a3, a2, b2, c2);
    InvMixMixRow(a0, a1, a2, a3, a4, b0, b1, b2, b3, b4, c0, c1, c2, c3, c4, d0, d1, d2, d3, d4);
  }

  // MixColumns undoes InvMixColumns, byte by byte.
  lemma {:induction false} MixInvMixBytes(a0: bv8, b0: bv8, c0: bv8, d0: bv8)
    ensures MixRow(InvMixRow(a0, b0, c0, d0), InvMixRow(b0, c0, d0, a0), InvMixRow(c0, d0, a0, b0), InvMixRow(d0, a0, b0, c0)) == a0
  {
    hide Xtime;
    hide Xor5;
    hide Xor11;
    var a1, a2, a3 := Xtime(a0), Times4(a0), Times8(a0);
    var a4 := Xtime(a3);
    var b1, b2, b3 := Xtime(b0), Times4(b0), Times8(b0);
    var b4 := Xtime(b3);
    var c1, c2, c3 := Xtime(c0), Times4(c0), Times8(c0);
    var c4 := Xtime(c3);
    var d1, d2, d3 := Xtime(d0), Times4(d0), Times8(d0);
    var d4 := Xtime(d3);
    XtimeXor11(a3, a2, a1, b3, b1, b0, c3, c2, c0, d3, d0);
    XtimeXor11(b3, b2, b1, c3, c1, c0, d3, d2, d0, a3, a0);
    MixInvMixRow(a0, a1, a2, a3, a4, b0, b1, b2, b3, b4, c0, c1, c2, c3, c4, d0, d1, d2, d3, d4);
  }

  lemma {:induction false} InvMixMix(w: bv32)
    ensures InvMixColumn(MixColumn(w)) == w
    ensures MixColumn(InvMixColumn(w)) == w
  {
    hide Byte0;
    hide Byte1;
    hide Byte2;
    hide Byte3;
    hide Join;
    hide MixRow;
    hide InvMixRow;
    var a, b, c, d := Byte0(w), Byte1(w), Byte2(w), Byte3(w);
    JoinBytes(w);
    BytesJoin(MixRow(a, b, c, d), MixRow(b, c, d, a), MixRow(c, d, a, b), MixRow(d, a, b, c));
    BytesJoin(InvMixRow(a, b, c, d), InvMixRow(b, c, d, a), InvMixRow(c, d, a, b), InvMixRow(d, a, b, c));
    InvMixMixBytes(a, b, c, d);
    InvMixMixBytes(b, c, d, a);
    InvMixMixBytes(c, d, a, b);
    InvMixMixBytes(d, a, b, c);
    MixInvMixBytes(a, b, c, d);
    MixInvMixBytes(b, c, d, a);
    MixInvMixBytes(c, d, a, b);
    MixInvMixBytes(d, a, b, c);
  }

  // ---- linearity

  lemma {:induction false} Sum10(a: bv8, b: bv8, c: bv8, d: bv8, e: bv8, p: bv8, q: bv8, r: bv8, s: bv8, t: bv8)
    ensures Xor5(a ^ p, b ^ q, c ^ r, d ^ s, e ^ t) == a ^ b ^ c ^ d ^ e ^ p ^ q ^ r ^ s ^ t
    ensures Xor8(a ^ b ^ c ^ d ^ e, p ^ q ^ r ^ s ^ t) == a ^ b ^ c ^ d ^ e ^ p ^ q ^ r ^ s ^ t
    ensures Xor8(a, p) == a ^ p && Xor8(b, q) == b ^ q && Xor8(c, r) == c ^ r && Xor8(d, s) == d ^ s && Xor8(e, t) == e ^ t
  {
  }

  lemma {:induction false} Xor5Linear(a: bv8, b: bv8, c: bv8, d: bv8, e: bv8, p: bv8, q: bv8, r: bv8, s: bv8, t: bv8)
    ensures Xor5(Xor8(a, p), Xor8(b, q), Xor8(c, r), Xor8(d, s), Xor8(e, t)) == Xor8(Xor5(a, b, c, d, e), Xor5(p, q, r, s, t))
  {
    hide *;
    Sum10(a, b, c, d, e, p, q, r, s, t);
    Sum5(a, b, c, d, e);
    Sum5(p, q, r, s, t);
  }

  lemma {:induction false} Sum4(a: bv8, b: bv8, c: bv8, d: bv8)
    ensures Xor8(a ^ b, c ^ d) == a ^ b ^ c ^ d && Xor8(a ^ c, b ^ d) == a ^ b ^ c ^ d
  {
  }

  lemma {:induction false} Xor8Swap(a: bv8, b: bv8, c: bv8, d: bv8)
    ensures Xor8(Xor8(a, b), Xor8(c, d)) == Xor8(Xor8(a, c), Xor8(b, d))
  {
    hide *;
    Sum4(a, b, c, d);
    Xor8Is(a, b);
    Xor8Is(c, d);
    Xor8Is(a, c);
    Xor8Is(b, d);
  }

  lemma {:induction false} Xor11Linear(a: bv8, b: bv8, c: bv8, d: bv8, e: bv8, f: bv8, g: bv8, h: bv8, i: bv8, j: bv8, k: bv8,
                                       p: bv8, q: bv8, r: bv8, s: bv8, t: bv8, u: bv8, v: bv8, w: bv8, x: bv8, y: bv8, z: bv8)
    ensures Xor11(Xor8(a, p), Xor8(b, q), Xor8(c, r), Xor8(d, s), Xor8(e, t), Xor8(f, u), Xor8(g, v), Xor8(h, w),
                  Xor8(i, x), Xor8(j, y), Xor8(k, z))
         == Xor8(Xor11(a, b, c, d, e, f, g, h, i, j, k), Xor11(p, q, r, s, t, u, v, w, x, y, z))
  {
    hide *;
    Groups11(a, b, c, d, e, f, g, h, i, j, k);
    Groups11(p, q, r, s, t, u, v, w, x, y, z);
    Groups11(Xor8(a, p), Xor8(b, q), Xor8(c, r), Xor8(d, s), Xor8(e, t), Xor8(f, u), Xor8(g, v), Xor8(h, w),
             Xor8(i, x), Xor8(j, y), Xor8(k, z));
    Xor5Linear(a, b, c, d, e, p, q, r, s, t);
    Xor5Linear(f, g, h, i, j, u, v, w, x, y);
    Xor8Swap(Xor5(f, g, h, i, j), Xor5(u, v, w, x, y), k, z);
    Xor8Swap(Xor5(a, b, c, d, e), Xor5(p, q, r, s, t), Xor8(Xor5(f, g, h, i, j), k), Xor8(Xor5(u, v, w, x, y), z));
  }

  lemma {:induction false} RowsLinear(p: bv8, q: bv8, r: bv8, s: bv8, p': bv8, q': bv8, r': bv8, s': bv8)
    ensures MixRow(Xor8(p, p'), Xor8(q, q'), Xor8(r, r'), Xor8(s, s')) == Xor8(MixRow(p, q, r, s), MixRow(p', q', r', s'))
    ensures InvMixRow(Xor8(p, p'), Xor8(q, q'), Xor8(r, r'), Xor8(s, s')) == Xor8(InvMixRow(p, q, r, s), InvMixRow(p', q', r', s'))
  {
    hide Xtime;
    hide Xor5;
    hide Xor11;
    hide Xor8;
    PowersLinear(p, p');
    PowersLinear(q, q');
    PowersLinear(r, r');
    PowersLinear(s, s');
    Xor5Linear(Xtime(p), Xtime(q), q, r, s, Xtime(p'), Xtime(q'), q', r', s');
    Xor11Linear(Times8(p), Times4(p), Xtime(p), Times8(q), Xtime(q), q, Times8(r), Times4(r), r, Times8(s), s,
                Times8(p'), Times4(p'), Xtime(p'), Times8(q'), Xtime(q'), q', Times8(r'), Times4(r'), r', Times8(s'), s');
  }

  lemma {:induction false} PowersLinear(a: bv8, b: bv8)
    ensures Xtime(Xor8(a, b)) == Xor8(Xtime(a), Xtime(b))
    ensures Times4(Xor8(a, b)) == Xor8(Times4(a), Times4(b))
    ensures Times8(Xor8(a, b)) == Xor8(Times8(a), Times8(b))
  {
    hide Xtime;
    hide Xor8;
    XtimeXor(a, b);
    XtimeXor(Xtime(a), Xtime(b));
    XtimeXor(Times4(a), Times4(b));
  }

  lemma {:induction false} ColumnsLinear(x: bv32, y: bv32)
    ensures MixColumn(Xor(x, y)) == Xor(MixColumn(x), MixColumn(y))
    ensures InvMixColumn(Xor(x, y)) == Xor(InvMixColumn(x), InvMixColumn(y))
  {
    hide Byte0;
    hide Byte1;
    hide Byte2;
    hide Byte3;
    hide Join;
    hide Xor;
    hide Xor8;
    hide MixRow;
    hide InvMixRow;
    BytesXor(x, y);
    var a, b, c, d := Byte0(x), Byte1(x), Byte2(x), Byte3(x);
    var p, q, r, s := Byte0(y), Byte1(y), Byte2(y), Byte3(y);
    RowsLinear(a, b, c, d, p, q, r, s);
    RowsLinear(b, c, d, a, q, r, s, p);
    RowsLinear(c, d, a, b, r, s, p, q);
    RowsLinear(d, a, b, c, s, p, q, r);
    JoinXor(MixRow(a, b, c, d), MixRow(b, c, d, a), MixRow(c, d, a, b), MixRow(d, a, b, c),
            MixRow(p, q, r, s), MixRow(q, r, s, p), MixRow(r, s, p, q), MixRow(s, p, q, r));
    JoinXor(InvMixRow(a, b, c, d), InvMixRow(b, c, d, a), InvMixRow(c, d, a, b), InvMixRow(d, a, b, c),
            InvMixRow(p, q, r, s), InvMixRow(q, r, s, p), InvMixRow(r, s, p, q), InvMixRow(s, p, q, r));
  }
}
