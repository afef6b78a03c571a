// The block function of misc/mbedtls/library/aria.c under an encryption schedule
// and under the schedule mbedtls_aria_setkey_dec derives from it; section 2 of
// RFC 5794. ARIA_P1 and ARIA_P3 are the portable fallbacks.
module Aria {
  import opened Words
  import opened SBoxes
  import opened Spn

  // ---- diffusion layer

  function P1(x: bv32): bv32 { ((x >> 8) & 0x00FF00FF) ^ ((x & 0x00FF00FF) << 8) }

  function P2(x: bv32): bv32 { (x >> 16) ^ (x << 16) }

  function Xor7(a: bv8, b: bv8, c: bv8, d: bv8, e: bv8, f: bv8, g: bv8): bv8 {
    a ^ b ^ c ^ d ^ e ^ f ^ g
  }

  // The diffusion layer on bytes 0 to F: the equations of section 2.4.3 of
  // RFC 5794.
  function Mix(x0: bv8, x1: bv8, x2: bv8, x3: bv8, x4: bv8, x5: bv8, x6: bv8, x7: bv8,
               x8: bv8, x9: bv8, xA: bv8, xB: bv8, xC: bv8, xD: bv8, xE: bv8, xF: bv8): Quad {
    Quad(Join(Xor7(x3, x4, x6, x8, x9, xD, xE), Xor7(x2, x5, x7, x9, x8, xC, xF),
              Xor7(x1, x6, x4, xA, xB, xF, xC), Xor7(x0, x7, x5, xB, xA, xE, xD)),
         Join(Xor7(x0, x2, x5, x8, xB, xE, xF), Xor7(x1, x3, x4, x9, xA, xF, xE),
              Xor7(x2, x0, x7, xA, x9, xC, xD), Xor7(x3, x1, x6, xB, x8, xD, xC)),
         Join(Xor7(x0, x1, x4, x7, xA, xD, xF), Xor7(x1, x0, x5, x6, xB, xC, xE),
              Xor7(x2, x3, x6, x5, x8, xF, xD), Xor7(x3, x2, x7, x4, x9, xE, xC)),
         Join(Xor7(x1, x2, x6, x7, x9, xB, xC), Xor7(x0, x3, x7, x6, x8, xA, xD),
              Xor7(x3, x0, x4, x5, xB, x9, xE), Xor7(x2, x1, x5, x4, xA, x8, xF)))
  }

  function Diffuse(q: Quad): Quad {
    Mix(Byte0(q.a), Byte1(q.a), Byte2(q.a), Byte3(q.a), Byte0(q.b), Byte1(q.b), Byte2(q.b), Byte3(q.b),
        Byte0(q.c), Byte1(q.c), Byte2(q.c), Byte3(q.c), Byte0(q.d), Byte1(q.d), Byte2(q.d), Byte3(q.d))
  }

  lemma {:induction false} Sum7(a: bv8, b: bv8, c: bv8, d: bv8, e: bv8, f: bv8, g: bv8)
    ensures Xor7(a, b, c, d, e, f, g) == a ^ b ^ c ^ d ^ e ^ f ^ g
  {
  }

  // Every byte of the output is the sum of seven bytes of the input.
  lemma {:induction false} DiffuseIs(q: Quad)
    ensures var x, y := PutLE(q), PutLE(Diffuse(q));
      y[0] == Xor7(x[3], x[4], x[6], x[8], x[9], x[13], x[14]) && y[1] == Xor7(x[2], x[5], x[7], x[9], x[8], x[12], x[15]) &&
      y[2] == Xor7(x[1], x[6], x[4], x[10], x[11], x[15], x[12]) && y[3] == Xor7(x[0], x[7], x[5], x[11], x[10], x[14], x[13]) &&
      y[4] == Xor7(x[0], x[2], x[5], x[8], x[11], x[14], x[15]) && y[5] == Xor7(x[1], x[3], x[4], x[9], x[10], x[15], x[14]) &&
      y[6] == Xor7(x[2], x[0], x[7], x[10], x[9], x[12], x[13]) && y[7] == Xor7(x[3], x[1], x[6], x[11], x[8], x[13], x[12]) &&
      y[8] == Xor7(x[0], x[1], x[4], x[7], x[10], x[13], x[15]) && y[9] == Xor7(x[1], x[0], x[5], x[6], x[11], x[12], x[14]) &&
      y[10] == Xor7(x[2], x[3], x[6], x[5], x[8], x[15], x[13]) && y[11] == Xor7(x[3], x[2], x[7], x[4], x[9], x[14], x[12]) &&
      y[12] == Xor7(x[1], x[2], x[6], x[7], x[9], x[11], x[12]) && y[13] == Xor7(x[0], x[3], x[7], x[6], x[8], x[10], x[13]) &&
      y[14] == Xor7(x[3], x[0], x[4], x[5], x[11], x[9], x[14]) && y[15] == Xor7(x[2], x[1], x[5], x[4], x[10], x[8], x[15])
  {
    hide Join;
    hide Byte0;
    hide Byte1;
    hide Byte2;
    hide Byte3;
    hide Xor7;
    var x := PutLE(q);
    BytesJoin(Xor7(x[3], x[4], x[6], x[8], x[9], x[13], x[14]),
              Xor7(x[2], x[5], x[7], x[9], x[8], x[12], x[15]),
              Xor7(x[1], x[6], x[4], x[10], x[11], x[15], x[12]),
              Xor7(x[0], x[7], x[5], x[11], x[10], x[14], x[13]));
    BytesJoin(Xor7(x[0], x[2], x[5], x[8], x[11], x[14], x[15]),
              Xor7(x[1], x[3], x[4], x[9], x[10], x[15], x[14]),
              Xor7(x[2], x[0], x[7], x[10], x[9], x[12], x[13]),
              Xor7(x[3], x[1], x[6], x[11], x[8], x[13], x[12]));
    BytesJoin(Xor7(x[0], x[1], x[4], x[7], x[10], x[13], x[15]),
              Xor7(x[1], x[0], x[5], x[6], x[11], x[12], x[14]),
              Xor7(x[2], x[3], x[6], x[5], x[8], x[15], x[13]),
              Xor7(x[3], x[2], x[7], x[4], x[9], x[14], x[12]));
    BytesJoin(Xor7(x[1], x[2], x[6], x[7], x[9], x[11], x[12]),
              Xor7(x[0], x[3], x[7], x[6], x[8], x[10], x[13]),
              Xor7(x[3], x[0], x[4], x[5], x[11], x[9], x[14]),
              Xor7(x[2], x[1], x[5], x[4], x[10], x[8], x[15]));
  }

  // Applying the sums for byte 0 of a word twice leaves that byte. The other
  // bytes follow by permuting the bytes inside every word.
  lemma {:induction false} Cancel0(x0: bv8, x1: bv8, x2: bv8, x3: bv8, x4: bv8, x5: bv8, x6: bv8, x7: bv8,
                                   x8: bv8, x9: bv8, xA: bv8, xB: bv8, xC: bv8, xD: bv8, xE: bv8, xF: bv8)
    ensures Xor7(x0 ^ x7 ^ x5 ^ xB ^ xA ^ xE ^ xD,
                 x0 ^ x2 ^ x5 ^ x8 ^ xB ^ xE ^ xF,
                 x2 ^ x0 ^ x7 ^ xA ^ x9 ^ xC ^ xD,
                 x0 ^ x1 ^ x4 ^ x7 ^ xA ^ xD ^ xF,
                 x1 ^ x0 ^ x5 ^ x6 ^ xB ^ xC ^ xE,
                 x0 ^ x3 ^ x7 ^ x6 ^ x8 ^ xA ^ xD,
                 x3 ^ x0 ^ x4 ^ x5 ^ xB ^ x9 ^ xE) == x0
  {
  }

  lemma {:induction false} Cancel4(x0: bv8, x1: bv8, x2: bv8, x3: bv8, x4: bv8, x5: bv8, x6: bv8, x7: bv8,
                                   x8: bv8, x9: bv8, xA: bv8, xB: bv8, xC: bv8, xD: bv8, xE: bv8, xF: bv8)
    ensures Xor7(x3 ^ x4 ^ x6 ^ x8 ^ x9 ^ xD ^ xE,
                 x1 ^ x6 ^ x4 ^ xA ^ xB ^ xF ^ xC,
                 x1 ^ x3 ^ x4 ^ x9 ^ xA ^ xF ^ xE,
                 x0 ^ x1 ^ x4 ^ x7 ^ xA ^ xD ^ xF,
                 x3 ^ x2 ^ x7 ^ x4 ^ x9 ^ xE ^ xC,
                 x3 ^ x0 ^ x4 ^ x5 ^ xB ^ x9 ^ xE,
                 x2 ^ x1 ^ x5 ^ x4 ^ xA ^ x8 ^ xF) == x4
  {
  }

  lemma {:induction false} Cancel8(x0: bv8, x1: bv8, x2: bv8, x3: bv8, x4: bv8, x5: bv8, x6: bv8, x7: bv8,
                                   x8: bv8, x9: bv8, xA: bv8, xB: bv8, xC: bv8, xD: bv8, xE: bv8, xF: bv8)
    ensures Xor7(x3 ^ x4 ^ x6 ^ x8 ^ x9 ^ xD ^ xE,
                 x2 ^ x5 ^ x7 ^ x9 ^ x8 ^ xC ^ xF,
                 x0 ^ x2 ^ x5 ^ x8 ^ xB ^ xE ^ xF,
                 x3 ^ x1 ^ x6 ^ xB ^ x8 ^ xD ^ xC,
                 x2 ^ x3 ^ x6 ^ x5 ^ x8 ^ xF ^ xD,
                 x0 ^ x3 ^ x7 ^ x6 ^ x8 ^ xA ^ xD,
                 x2 ^ x1 ^ x5 ^ x4 ^ xA ^ x8 ^ xF) == x8
  {
  }

  lemma {:induction false} CancelC(x0: bv8, x1: bv8, x2: bv8, x3: bv8, x4: bv8, x5: bv8, x6: bv8, x7: bv8,
                                   x8: bv8, x9: bv8, xA: bv8, xB: bv8, xC: bv8, xD: bv8, xE: bv8, xF: bv8)
    ensures Xor7(x2 ^ x5 ^ x7 ^ x9 ^ x8 ^ xC ^ xF,
                 x1 ^ x6 ^ x4 ^ xA ^ xB ^ xF ^ xC,
                 x2 ^ x0 ^ x7 ^ xA ^ x9 ^ xC ^ xD,
                 x3 ^ x1 ^ x6 ^ xB ^ x8 ^ xD ^ xC,
                 x1 ^ x0 ^ x5 ^ x6 ^ xB ^ xC ^ xE,
                 x3 ^ x2 ^ x7 ^ x4 ^ x9 ^ xE ^ xC,
                 x1 ^ x2 ^ x6 ^ x7 ^ x9 ^ xB ^ xC) == xC
  {
  }

  lemma {:induction false} Twice0(x0: bv8, x1: bv8, x2: bv8, x3: bv8, x4: bv8, x5: bv8, x6: bv8, x7: bv8,
                                  x8: bv8, x9: bv8, xA: bv8, xB: bv8, xC: bv8, xD: bv8, xE: bv8, xF: bv8)
    ensures Xor7(Xor7(x0, x7, x5, xB, xA, xE, xD),
                 Xor7(x0, x2, x5, x8, xB, xE, xF),
                 Xor7(x2, x0, x7, xA, x9, xC, xD),
                 Xor7(x0, x1, x4, x7, xA, xD, xF),
                 Xor7(x1, x0, x5, x6, xB, xC, xE),
                 Xor7(x0, x3, x7, x6, x8, xA, xD),
                 Xor7(x3, x0, x4, x5, xB, x9, xE)) == x0
  {
    hide *;
    Cancel0(x0, x1, x2, x3, x4, x5, x6, x7, x8, x9, xA, xB, xC, xD, xE, xF);
    Sum7(x0, x7, x5, xB, xA, xE, xD);
    Sum7(x0, x2, x5, x8, xB, xE, xF);
    Sum7(x2, x0, x7, xA, x9, xC, xD);
    Sum7(x0, x1, x4, x7, xA, xD, xF);
    Sum7(x1, x0, x5, x6, xB, xC, xE);
    Sum7(x0, x3, x7, x6, x8, xA, xD);
    Sum7(x3, x0, x4, x5, xB, x9, xE);
  }

  lemma {:induction false} Twice4(x0: bv8, x1: bv8, x2: bv8, x3: bv8, x4: bv8, x5: bv8, x6: bv8, x7: bv8,
                                  x8: bv8, x9: bv8, xA: bv8, xB: bv8, xC: bv8, xD: bv8, xE: bv8, xF: bv8)
    ensures Xor7(Xor7(x3, x4, x6, x8, x9, xD, xE),
                 Xor7(x1, x6, x4, xA, xB, xF, xC),
                 Xor7(x1, x3, x4, x9, xA, xF, xE),
                 Xor7(x0, x1, x4, x7, xA, xD, xF),
                 Xor7(x3, x2, x7, x4, x9, xE, xC),
                 Xor7(x3, x0, x4, x5, xB, x9, xE),
                 Xor7(x2, x1, x5, x4, xA, x8, xF)) == x4
  {
    hide *;
    Cancel4(x0, x1, x2, x3, x4, x5, x6, x7, x8, x9, xA, xB, xC, xD, xE, xF);
    Sum7(x3, x4, x6, x8, x9, xD, xE);
    Sum7(x1, x6, x4, xA, xB, xF, xC);
    Sum7(x1, x3, x4, x9, xA, xF, xE);
    Sum7(x0, x1, x4, x7, xA, xD, xF);
    Sum7(x3, x2, x7, x4, x9, xE, xC);
    Sum7(x3, x0, x4, x5, xB, x9, xE);
    Sum7(x2, x1, x5, x4, xA, x8, xF);
  }

  lemma {:induction false} Twice8(x0: bv8, x1: bv8, x2: bv8, x3: bv8, x4: bv8, x5: bv8, x6: bv8, x7: bv8,
                                  x8: bv8, x9: bv8, xA: bv8, xB: bv8, xC: bv8, xD: bv8, xE: bv8, xF: bv8)
    ensures Xor7(Xor7(x3, x4, x6, x8, x9, xD, xE),
                 Xor7(x2, x5, x7, x9, x8, xC, xF),
                 Xor7(x0, x2, x5, x8, xB, xE, xF),
                 Xor7(x3, x1, x6, xB, x8, xD, xC),
                 Xor7(x2, x3, x6, x5, x8, xF, xD),
                 Xor7(x0, x3, x7, x6, x8, xA, xD),
                 Xor7(x2, x1, x5, x4, xA, x8, xF)) == x8
  {
    hide *;
    Cancel8(x0, x1, x2, x3, x4, x5, x6, x7, x8, x9, xA, xB, xC, xD, xE, xF);
    Sum7(x3, x4, x6, x8, x9, xD, xE);
    Sum7(x2, x5, x7, x9, x8, xC, xF);
    Sum7(x0, x2, x5, x8, xB, xE, xF);
    Sum7(x3, x1, x6, xB, x8, xD, xC);
    Sum7(x2, x3, x6, x5, x8, xF, xD);
    Sum7(x0, x3, x7, x6, x8, xA, xD);
    Sum7(x2, x1, x5, x4, xA, x8, xF);
  }

  lemma {:induction false} TwiceC(x0: bv8, x1: bv8, x2: bv8, x3: bv8, x4: bv8, x5: bv8, x6: bv8, x7: bv8,
                                  x8: bv8, x9: bv8, xA: bv8, xB: bv8, xC: bv8, xD: bv8, xE: bv8, xF: bv8)
    ensures Xor7(Xor7(x2, x5, x7, x9, x8, xC, xF),
                 Xor7(x1, x6, x4, xA, xB, xF, xC),
                 Xor7(x2, x0, x7, xA, x9, xC, xD),
                 Xor7(x3, x1, x6, xB, x8, xD, xC),
                 Xor7(x1, x0, x5, x6, xB, xC, xE),
                 Xor7(x3, x2, x7, x4, x9, xE, xC),
                 Xor7(x1, x2, x6, x7, x9, xB, xC)) == xC
  {
    hide *;
    CancelC(x0, x1, x2, x3, x4, x5, x6, x7, x8, x9, xA, xB, xC, xD, xE, xF);
    Sum7(x2, x5, x7, x9, x8, xC, xF);
    Sum7(x1, x6, x4, xA, xB, xF, xC);
    Sum7(x2, x0, x7, xA, x9, xC, xD);
    Sum7(x3, x1, x6, xB, x8, xD, xC);
    Sum7(x1, x0, x5, x6, xB, xC, xE);
    Sum7(x3, x2, x7, x4, x9, xE, xC);
    Sum7(x1, x2, x6, x7, x9, xB, xC);
  }

  lemma {:induction false} MixTwice(x0: bv8, x1: bv8, x2: bv8, x3: bv8, x4: bv8, x5: bv8, x6: bv8, x7: bv8,
                                    x8: bv8, x9: bv8, xA: bv8, xB: bv8, xC: bv8, xD: bv8, xE: bv8, xF: bv8)
    ensures Diffuse(Mix(x0, x1, x2, x3, x4, x5, x6, x7, x8, x9, xA, xB, xC, xD, xE, xF))
         == Quad(Join(x0, x1, x2, x3), Join(x4, x5, x6, x7), Join(x8, x9, xA, xB), Join(xC, xD, xE, xF))
  {
    hide Xor7;
    hide Join;
    hide Byte0;
    hide Byte1;
    hide Byte2;
    hide Byte3;
    BytesJoin(Xor7(x3, x4, x6, x8, x9, xD, xE), Xor7(x2, x5, x7, x9, x8, xC, xF),
              Xor7(x1, x6, x4, xA, xB, xF, xC), Xor7(x0, x7, x5, xB, xA, xE, xD));
    BytesJoin(Xor7(x0, x2, x5, x8, xB, xE, xF), Xor7(x1, x3, x4, x9, xA, xF, xE),
              Xor7(x2, x0, x7, xA, x9, xC, xD), Xor7(x3, x1, x6, xB, x8, xD, xC));
    BytesJoin(Xor7(x0, x1, x4, x7, xA, xD, xF), Xor7(x1, x0, x5, x6, xB, xC, xE),
              Xor7(x2, x3, x6, x5, x8, xF, xD), Xor7(x3, x2, x7, x4, x9, xE, xC));
    BytesJoin(Xor7(x1, x2, x6, x7, x9, xB, xC), Xor7(x0, x3, x7, x6, x8, xA, xD),
              Xor7(x3, x0, x4, x5, xB, x9, xE), Xor7(x2, x1, x5, x4, xA, x8, xF));
    Twice0(x0, x1, x2, x3, x4, x5, x6, x7, x8, x9, xA, xB, xC, xD, xE, xF);
    Twice0(x1, x0, x3, x2, x5, x4, x7, x6, x9, x8, xB, xA, xD, xC, xF, xE);
    Twice0(x2, x3, x0, x1, x6, x7, x4, x5, xA, xB, x8, x9, xE, xF, xC, xD);
    Twice0(x3, x2, x1, x0, x7, x6, x5, x4, xB, xA, x9, x8, xF, xE, xD, xC);
    Twice4(x0, x1, x2, x3, x4, x5, x6, x7, x8, x9, xA, xB, xC, xD, xE, xF);
    Twice4(x1, x0, x3, x2, x5, x4, x7, x6, x9, x8, xB, xA, xD, xC, xF, xE);
    Twice4(x2, x3, x0, x1, x6, x7, x4, x5, xA, xB, x8, x9, xE, xF, xC, xD);
    Twice4(x3, x2, x1, x0, x7, x6, x5, x4, xB, xA, x9, x8, xF, xE, xD, xC);
    Twice8(x0, x1, x2, x3, x4, x5, x6, x7, x8, x9, xA, xB, xC, xD, xE, xF);
    Twice8(x1, x0, x3, x2, x5, x4, x7, x6, x9, x8, xB, xA, xD, xC, xF, xE);
    Twice8(x2, x3, x0, x1, x6, x7, x4, x5, xA, xB, x8, x9, xE, xF, xC, xD);
    Twice8(x3, x2, x1, x0, x7, x6, x5, x4, xB, xA, x9, x8, xF, xE, xD, xC);
    TwiceC(x0, x1, x2, x3, x4, x5, x6, x7, x8, x9, xA, xB, xC, xD, xE, xF);
    TwiceC(x1, x0, x3, x2, x5, x4, x7, x6, x9, x8, xB, xA, xD, xC, xF, xE);
    TwiceC(x2, x3, x0, x1, x6, x7, x4, x5, xA, xB, x8, x9, xE, xF, xC, xD);
    TwiceC(x3, x2, x1, x0, x7, x6, x5, x4, xB, xA, x9, x8, xF, xE, xD, xC);
  }

  // The diffusion layer is its own inverse.
  lemma {:induction false} DiffuseInvolution(q: Quad)
    ensures Diffuse(Diffuse(q)) == q
  {
    hide Mix;
    hide Join;
    hide Byte0;
    hide Byte1;
    hide Byte2;
    hide Byte3;
    JoinBytes(q.a);
    JoinBytes(q.b);
    JoinBytes(q.c);
    JoinBytes(q.d);
    MixTwice(Byte0(q.a), Byte1(q.a), Byte2(q.a), Byte3(q.a), Byte0(q.b), Byte1(q.b), Byte2(q.b), Byte3(q.b),
             Byte0(q.c), Byte1(q.c), Byte2(q.c), Byte3(q.c), Byte0(q.d), Byte1(q.d), Byte2(q.d), Byte3(q.d));
  }

  lemma {:induction false} Sum14(a: bv8, b: bv8, c: bv8, d: bv8, e: bv8, f: bv8, g: bv8,
                                 p: bv8, q: bv8, r: bv8, s: bv8, t: bv8, u: bv8, w: bv8)
    ensures Xor7(a ^ p, b ^ q, c ^ r, d ^ s, e ^ t, f ^ u, g ^ w) == a ^ b ^ c ^ d ^ e ^ f ^ g ^ p ^ q ^ r ^ s ^ t ^ u ^ w
    ensures Xor8(a ^ b ^ c ^ d ^ e ^ f ^ g, p ^ q ^ r ^ s ^ t ^ u ^ w) == a ^ b ^ c ^ d ^ e ^ f ^ g ^ p ^ q ^ r ^ s ^ t ^ u ^ w
    ensures Xor8(a, p) == a ^ p && Xor8(b, q) == b ^ q && Xor8(c, r) == c ^ r && Xor8(d, s) == d ^ s
    ensures Xor8(e, t) == e ^ t && Xor8(f, u) == f ^ u && Xor8(g, w) == g ^ w
  {
  }

  lemma {:induction false} Xor7Linear(a: bv8, b: bv8, c: bv8, d: bv8, e: bv8, f: bv8, g: bv8,
                                      p: bv8, q: bv8, r: bv8, s: bv8, t: bv8, u: bv8, w: bv8)
    ensures Xor7(Xor8(a, p), Xor8(b, q), Xor8(c, r), Xor8(d, s), Xor8(e, t), Xor8(f, u), Xor8(g, w))
         == Xor8(Xor7(a, b, c, d, e, f, g), Xor7(p, q, r, s, t, u, w))
  {
    hide *;
    Sum14(a, b, c, d, e, f, g, p, q, r, s, t, u, w);
    Sum7(a, b, c, d, e, f, g);
    Sum7(p, q, r, s, t, u, w);
  }

  lemma {:induction false} MixLinear(x0: bv8, x1: bv8, x2: bv8, x3: bv8, x4: bv8, x5: bv8, x6: bv8, x7: bv8,
                                     x8: bv8, x9: bv8, xA: bv8, xB: bv8, xC: bv8, xD: bv8, xE: bv8, xF: bv8,
                                     y0: bv8, y1: bv8, y2: bv8, y3: bv8, y4: bv8, y5: bv8, y6: bv8, y7: bv8,
                                     y8: bv8, y9: bv8, yA: bv8, yB: bv8, yC: bv8, yD: bv8, yE: bv8, yF: bv8)
    ensures Mix(Xor8(x0, y0), Xor8(x1, y1), Xor8(x2, y2), Xor8(x3, y3),
                Xor8(x4, y4), Xor8(x5, y5), Xor8(x6, y6), Xor8(x7, y7),
                Xor8(x8, y8), Xor8(x9, y9), Xor8(xA, yA), Xor8(xB, yB),
                Xor8(xC, yC), Xor8(xD, yD), Xor8(xE, yE), Xor8(xF, yF))
         == XorQuad(Mix(x0, x1, x2, x3, x4, x5, x6, x7, x8, x9, xA, xB, xC, xD, xE, xF),
                    Mix(y0, y1, y2, y3, y4, y5, y6, y7, y8, y9, yA, yB, yC, yD, yE, yF))
  {
    hide Xor7;
    hide Xor8;
    hide Xor;
    hide Join;
    Xor7Linear(x3, x4, x6, x8, x9, xD, xE, y3, y4, y6, y8, y9, yD, yE);
    Xor7Linear(x2, x5, x7, x9, x8, xC, xF, y2, y5, y7, y9, y8, yC, yF);
    Xor7Linear(x1, x6, x4, xA, xB, xF, xC, y1, y6, y4, yA, yB, yF, yC);
    Xor7Linear(x0, x7, x5, xB, xA, xE, xD, y0, y7, y5, yB, yA, yE, yD);
    Xor7Linear(x0, x2, x5, x8, xB, xE, xF, y0, y2, y5, y8, yB, yE, yF);
    Xor7Linear(x1, x3, x4, x9, xA, xF, xE, y1, y3, y4, y9, yA, yF, yE);
    Xor7Linear(x2, x0, x7, xA, x9, xC, xD, y2, y0, y7, yA, y9, yC, yD);
    Xor7Linear(x3, x1, x6, xB, x8, xD, xC, y3, y1, y6, yB, y8, yD, yC);
    Xor7Linear(x0, x1, x4, x7, xA, xD, xF, y0, y1, y4, y7, yA, yD, yF);
    Xor7Linear(x1, x0, x5, x6, xB, xC, xE, y1, y0, y5, y6, yB, yC, yE);
    Xor7Linear(x2, x3, x6, x5, x8, xF, xD, y2, y3, y6, y5, y8, yF, yD);
    Xor7Linear(x3, x2, x7, x4, x9, xE, xC, y3, y2, y7, y4, y9, yE, yC);
    Xor7Linear(x1, x2, x6, x7, x9, xB, xC, y1, y2, y6, y7, y9, yB, yC);
    Xor7Linear(x0, x3, x7, x6, x8, xA, xD, y0, y3, y7, y6, y8, yA, yD);
    Xor7Linear(x3, x0, x4, x5, xB, x9, xE, y3, y0, y4, y5, yB, y9, yE);
    Xor7Linear(x2, x1, x5, x4, xA, x8, xF, y2, y1, y5, y4, yA, y8, yF);
    JoinXor(Xor7(x3, x4, x6, x8, x9, xD, xE), Xor7(x2, x5, x7, x9, x8, xC, xF),
            Xor7(x1, x6, x4, xA, xB, xF, xC), Xor7(x0, x7, x5, xB, xA, xE, xD),
            Xor7(y3, y4, y6, y8, y9, yD, yE), Xor7(y2, y5, y7, y9, y8, yC, yF),
            Xor7(y1, y6, y4, yA, yB, yF, yC), Xor7(y0, y7, y5, yB, yA, yE, yD));
    JoinXor(Xor7(x0, x2, x5, x8, xB, xE, xF), Xor7(x1, x3, x4, x9, xA, xF, xE),
            Xor7(x2, x0, x7, xA, x9, xC, xD), Xor7(x3, x1, x6, xB, x8, xD, xC),
            Xor7(y0, y2, y5, y8, yB, yE, yF), Xor7(y1, y3, y4, y9, yA, yF, yE),
            Xor7(y2, y0, y7, yA, y9, yC, yD), Xor7(y3, y1, y6, yB, y8, yD, yC));
    JoinXor(Xor7(x0, x1, x4, x7, xA, xD, xF), Xor7(x1, x0, x5, x6, xB, xC, xE),
            Xor7(x2, x3, x6, x5, x8, xF, xD), Xor7(x3, x2, x7, x4, x9, xE, xC),
            Xor7(y0, y1, y4, y7, yA, yD, yF), Xor7(y1, y0, y5, y6, yB, yC, yE),
            Xor7(y2, y3, y6, y5, y8, yF, yD), Xor7(y3, y2, y7, y4, y9, yE, yC));
    JoinXor(Xor7(x1, x2, x6, x7, x9, xB, xC), Xor7(x0, x3, x7, x6, x8, xA, xD),
            Xor7(x3, x0, x4, x5, xB, x9, xE), Xor7(x2, x1, x5, x4, xA, x8, xF),
            Xor7(y1, y2, y6, y7, y9, yB, yC), Xor7(y0, y3, y7, y6, y8, yA, yD),
            Xor7(y3, y0, y4, y5, yB, y9, yE), Xor7(y2, y1, y5, y4, yA, y8, yF));
  }

  // The diffusion layer is linear over exclusive or.
  lemma {:induction false} DiffuseLinear(x: Quad, y: Quad)
    ensures Diffuse(XorQuad(x, y)) == XorQuad(Diffuse(x), Diffuse(y))
  {
    hide Mix;
    hide Xor;
    hide Xor8;
    hide Byte0;
    hide Byte1;
    hide Byte2;
    hide Byte3;
    BytesXor(x.a, y.a);
    BytesXor(x.b, y.b);
    BytesXor(x.c, y.c);
    BytesXor(x.d, y.d);
    MixLinear(Byte0(x.a), Byte1(x.a), Byte2(x.a), Byte3(x.a), Byte0(x.b), Byte1(x.b), Byte2(x.b), Byte3(x.b),
              Byte0(x.c), Byte1(x.c), Byte2(x.c), Byte3(x.c), Byte0(x.d), Byte1(x.d), Byte2(x.d), Byte3(x.d),
              Byte0(y.a), Byte1(y.a), Byte2(y.a), Byte3(y.a), Byte0(y.b), Byte1(y.b), Byte2(y.b), Byte3(y.b),
              Byte0(y.c), Byte1(y.c), Byte2(y.c), Byte3(y.c), Byte0(y.d), Byte1(y.d), Byte2(y.d), Byte3(y.d));
  }

  // Byte permutations and sums of words, seen on their bytes.
  lemma {:induction false} WordsOfBytes()
    ensures forall b0: bv8, b1: bv8, b2: bv8, b3: bv8 {:trigger P1(Join(b0, b1, b2, b3))} ::
              P1(Join(b0, b1, b2, b3)) == Join(b1, b0, b3, b2)
    ensures forall b0: bv8, b1: bv8, b2: bv8, b3: bv8 {:trigger P2(Join(b0, b1, b2, b3))} ::
              P2(Join(b0, b1, b2, b3)) == Join(b2, b3, b0, b1)
    ensures forall a0: bv8, a1: bv8, a2: bv8, a3: bv8, b0: bv8, b1: bv8, b2: bv8, b3: bv8
              {:trigger Xor(Join(a0, a1, a2, a3), Join(b0, b1, b2, b3))} ::
              Xor(Join(a0, a1, a2, a3), Join(b0, b1, b2, b3)) == Join(a0 ^ b0, a1 ^ b1, a2 ^ b2, a3 ^ b3)
  {
    hide *;
    forall b0: bv8, b1: bv8, b2: bv8, b3: bv8
      ensures P1(Join(b0, b1, b2, b3)) == Join(b1, b0, b3, b2) && P2(Join(b0, b1, b2, b3)) == Join(b2, b3, b0, b1)
    {
      var x := Join(b0, b1, b2, b3);
      BytesJoin(b0, b1, b2, b3);
      P1Bytes(x);
      JoinBytes(P1(x));
      P2Bytes(x);
      JoinBytes(P2(x));
    }
    forall a0: bv8, a1: bv8, a2: bv8, a3: bv8, b0: bv8, b1: bv8, b2: bv8, b3: bv8
      ensures Xor(Join(a0, a1, a2, a3), Join(b0, b1, b2, b3)) == Join(a0 ^ b0, a1 ^ b1, a2 ^ b2, a3 ^ b3)
    {
      JoinXor(a0, a1, a2, a3, b0, b1, b2, b3);
      Xor8Is(a0, b0);
      Xor8Is(a1, b1);
      Xor8Is(a2, b2);
      Xor8Is(a3, b3);
    }
  }

  lemma {:induction false} P1Bytes(x: bv32)
    ensures Byte0(P1(x)) == Byte1(x) && Byte1(P1(x)) == Byte0(x) && Byte2(P1(x)) == Byte3(x) && Byte3(P1(x)) == Byte2(x)
  {
  }

  lemma {:induction false} P2Bytes(x: bv32)
    ensures Byte0(P2(x)) == Byte2(x) && Byte1(P2(x)) == Byte3(x) && Byte2(P2(x)) == Byte0(x) && Byte3(P2(x)) == Byte1(x)
  {
  }

  // aria_a, the four words passed by value and returned.
  method AriaA(q: Quad) returns (r: Quad)
    ensures r == Diffuse(q)
  {
    hide P1;
    hide P2;
    hide Xor;
    hide Join;
    hide Byte0;
    hide Byte1;
    hide Byte2;
    hide Byte3;
    var a, b, c, d := q.a, q.b, q.c, q.d;
    JoinBytes(a);
    JoinBytes(b);
    JoinBytes(c);
    JoinBytes(d);
    WordsOfBytes();
    var ta := b;
    b := a;
    a := P2(ta);
    var tb := P2(d);
    d := P1(c);
    c := P1(tb);
    ta := Xor(ta, d);
    var tc := P2(b);
    ta := Xor(Xor(P1(ta), tc), c);
    tb := Xor(tb, P2(d));
    tc := Xor(tc, P1(a));
    b := Xor(b, Xor(ta, tb));
    tb := Xor(P2(tb), ta);
    a := Xor(a, P1(tb));
    ta := P2(ta);
    d := Xor(d, Xor(P1(ta), tc));
    tc := P2(tc);
    c := Xor(c, Xor(P1(tc), ta));
    return Quad(a, b, c, d);
  }

  // ---- substitution layers

  // Layer SL1 for an even round, SL2 for an odd one.
  function Sub(i: nat, q: Quad): Quad {
    if i % 2 == 0 then Quad(Sl1(q.a), Sl1(q.b), Sl1(q.c), Sl1(q.d))
    else Quad(Sl2(q.a), Sl2(q.b), Sl2(q.c), Sl2(q.d))
  }

  function Sl1(x: bv32): bv32 {
    Join(Sb1(Byte0(x)), Sb2(Byte1(x)), Is1(Byte2(x)), Is2(Byte3(x)))
  }

  function Sl2(x: bv32): bv32 {
    Join(Is1(Byte0(x)), Is2(Byte1(x)), Sb1(Byte2(x)), Sb2(Byte3(x)))
  }

  // SL1 and SL2 invert each other.
  lemma {:induction false} Sl1Sl2(x: bv32)
    ensures Sl2(Sl1(x)) == x && Sl1(Sl2(x)) == x
  {
    hide *;
    Sl1Is(x);
    Sl2Is(x);
    Sl1Is(Sl2(x));
    Sl2Is(Sl1(x));
    BytesJoin(Sb1(Byte0(x)), Sb2(Byte1(x)), Is1(Byte2(x)), Is2(Byte3(x)));
    BytesJoin(Is1(Byte0(x)), Is2(Byte1(x)), Sb1(Byte2(x)), Sb2(Byte3(x)));
    Is1Sb1(Byte0(x));
    Is2Sb2(Byte1(x));
    Is1Sb1(Byte2(x));
    Is2Sb2(Byte3(x));
    JoinBytes(x);
  }

  lemma {:induction false} Sl1Is(x: bv32)
    ensures Sl1(x) == Join(Sb1(Byte0(x)), Sb2(Byte1(x)), Is1(Byte2(x)), Is2(Byte3(x)))
  {
  }

  lemma {:induction false} Sl2Is(x: bv32)
    ensures Sl2(x) == Join(Is1(Byte0(x)), Is2(Byte1(x)), Sb1(Byte2(x)), Sb2(Byte3(x)))
  {
  }

  // ---- the cipher

  function AriaLayers(): Layers {
    Layers((i: nat, x: Quad) => Sub(i, x), (x: Quad) => Diffuse(x))
  }

  // The layers undo each other when the number of rounds is even.
  lemma {:induction false} LayersUndo(nr: nat)
    requires nr % 2 == 0
    ensures Undoes(AriaLayers(), AriaLayers(), nr)
  {
    hide Sub;
    hide Diffuse;
    hide XorQuad;
    var l := AriaLayers();
    forall i: nat, x: Quad | i < nr ensures l.sub(nr - 1 - i, l.sub(i, x)) == x {
      SubSub(nr - 1 - i, i, x);
    }
    forall x: Quad ensures l.lin(l.lin(x)) == x {
      DiffuseInvolution(x);
    }
    forall x: Quad, y: Quad ensures l.lin(XorQuad(x, y)) == XorQuad(l.lin(x), l.lin(y)) {
      DiffuseLinear(x, y);
    }
  }

  lemma {:induction false} SubSub(i: nat, j: nat, x: Quad)
    requires i % 2 != j % 2
    ensures Sub(i, Sub(j, x)) == x
  {
    hide *;
    Sl1Sl2(x.a);
    Sl1Sl2(x.b);
    Sl1Sl2(x.c);
    Sl1Sl2(x.d);
    SubIs(j, x);
    SubIs(i, Sub(j, x));
  }

  lemma {:induction false} SubIs(i: nat, q: Quad)
    ensures i % 2 == 0 ==> Sub(i, q) == Quad(Sl1(q.a), Sl1(q.b), Sl1(q.c), Sl1(q.d))
    ensures i % 2 == 1 ==> Sub(i, q) == Quad(Sl2(q.a), Sl2(q.b), Sl2(q.c), Sl2(q.d))
  {
  }

  function CryptBytes(keys: seq<Quad>, input: seq<bv8>): (output: seq<bv8>)
    requires |keys| >= 2 && |input| == 16
    ensures |output| == 16
  {
    PutLE(Run(AriaLayers(), keys, GetLE(input)))
  }

  function DecryptionKeys(keys: seq<Quad>): (dk: seq<Quad>)
    requires |keys| >= 2
    ensures |dk| == |keys|
  {
    Inverted(AriaLayers().lin, keys)
  }

  // For every block, every schedule and every even number of rounds, the
  // decryption schedule takes back the encryption and the other way round.
  lemma {:induction false} DecryptUndoesEncrypt(keys: seq<Quad>, input: seq<bv8>)
    requires |keys| >= 2 && |keys| % 2 == 1 && |input| == 16
    ensures CryptBytes(DecryptionKeys(keys), CryptBytes(keys, input)) == input
    ensures CryptBytes(keys, CryptBytes(DecryptionKeys(keys), input)) == input
  {
    hide Run;
    hide Inverted;
    hide GetLE;
    hide PutLE;
    hide Undoes;
    hide AriaLayers;
    var l, x := AriaLayers(), GetLE(input);
    LayersUndo(|keys| - 1);
    GetPutLE(Run(l, keys, x));
    RunBack(l, l, keys, x);
    GetPutLE(Run(l, DecryptionKeys(keys), x));
    RunForth(l, l, keys, x);
    PutGetLE(input);
  }

  // ---- the code

  class Context {
    var nr: nat
    const rk: array<Quad>

    constructor ()
      ensures fresh(rk) && rk.Length == 17
    {
      nr := 0;
      rk := new Quad[17](_ => Quad(0, 0, 0, 0));
    }

    ghost predicate Valid()
      reads this
    {
      rk.Length == 17 && (nr == 12 || nr == 14 || nr == 16)
    }

    ghost function Keys(): (keys: seq<Quad>)
      requires Valid()
      reads this, rk
      ensures |keys| == nr + 1
    {
      rk[..nr + 1]
    }
  }

  // The part of mbedtls_aria_setkey_dec that follows the encryption schedule.
  method SetkeyDec(ctx: Context)
    requires ctx.Valid()
    modifies ctx.rk
    ensures ctx.Keys() == DecryptionKeys(old(ctx.Keys()))
  {
    hide Diffuse;
    ghost var keys := ctx.Keys();
    Flip(ctx.rk, ctx.nr);
    assert forall k :: 0 <= k <= ctx.nr ==> ctx.rk[k] == keys[ctx.nr - k];
    TransformMiddle(ctx.rk, ctx.nr);
    assert ctx.Keys() == DecryptionKeys(keys);
  }

  // A block encrypted under a schedule and decrypted after SetkeyDec has
  // turned it into the decryption schedule.
  method EncryptThenDecrypt(ctx: Context, input: seq<bv8>) returns (output: array<bv8>)
    requires ctx.Valid() && |input| == 16
    modifies ctx.rk
    ensures output[..] == input
  {
    hide CryptBytes;
    hide DecryptionKeys;
    ghost var keys := ctx.Keys();
    var middle := new bv8[16];
    output := new bv8[16];
    CryptEcb(ctx, input, middle);
    SetkeyDec(ctx);
    CryptEcb(ctx, middle[..], output);
    DecryptUndoesEncrypt(keys, input);
  }

  // Flip the order of the round keys.
  method Flip(rk: array<Quad>, nr: nat)
    requires nr < rk.Length
    modifies rk
    ensures forall k :: 0 <= k <= nr ==> rk[k] == old(rk[nr - k])
  {
    var i, j: int := 0, nr;
    while i < j
      invariant 0 <= i <= nr && j == nr - i && i <= j + 1
      invariant forall k :: 0 <= k <= nr && (k < i || k > j) ==> rk[k] == old(rk[nr - k])
      invariant forall k :: i <= k <= j ==> rk[k] == old(rk[k])
    {
      rk[i], rk[j] := rk[j], rk[i];
      i, j := i + 1, j - 1;
    }
  }

  // Apply the affine transform to the middle keys.
  method TransformMiddle(rk: array<Quad>, nr: nat)
    requires 0 < nr < rk.Length
    modifies rk
    ensures rk[0] == old(rk[0]) && rk[nr] == old(rk[nr])
    ensures forall k :: 1 <= k < nr ==> rk[k] == Diffuse(old(rk[k]))
  {
    hide Diffuse;
    var i := 1;
    while i < nr
      invariant 1 <= i <= nr
      invariant forall k :: 1 <= k < i ==> rk[k] == Diffuse(old(rk[k]))
      invariant forall k :: i <= k <= nr || k == 0 ==> rk[k] == old(rk[k])
    {
      rk[i] := AriaA(rk[i]);
      i := i + 1;
    }
  }

  // mbedtls_aria_crypt_ecb
  method CryptEcb(ctx: Context, input: seq<bv8>, output: array<bv8>)
    requires ctx.Valid() && |input| == 16 && output.Length == 16
    modifies output
    ensures output[..] == CryptBytes(ctx.Keys(), input)
  {
    hide *;
    var rk, nr := ctx.rk, ctx.nr;
    ghost var keys := ctx.Keys();
    KeysAre(ctx);
    var q := GetLE(input);
    ghost var x := q;
    var i := 0;
    RoundStarts(keys, x);
    while true
      invariant 0 <= i < nr && i % 2 == 0
      invariant XorQuad(q, keys[i]) == Rounds(AriaLayers(), keys, i, x)
      decreases nr - i
    {
      q := XorQuad(q, rk[i]);
      i := i + 1;
      RoundIs(keys, i, x);
      q := Sl(i - 1, q);
      q := AriaA(q);
      q := XorQuad(q, rk[i]);
      i := i + 1;
      q := Sl(i - 1, q);
      if i >= nr {
        break;
      }
      RoundIs(keys, i, x);
      q := AriaA(q);
    }
    q := XorQuad(q, rk[i]);
    RunIs(keys, x);
    WriteLE(q, output);
    CryptIs(keys, input);
    KeysAre(ctx);
  }

  lemma {:induction false} KeysAre(ctx: Context)
    requires ctx.Valid()
    ensures ctx.Keys() == ctx.rk[..ctx.nr + 1] && ctx.rk.Length == 17 && ctx.nr % 2 == 0 && 2 <= ctx.nr <= 16
  {
  }

  lemma {:induction false} RoundStarts(keys: seq<Quad>, x: Quad)
    requires |keys| > 0
    ensures Rounds(AriaLayers(), keys, 0, x) == XorQuad(x, keys[0])
  {
    FirstRound(AriaLayers(), keys, x);
  }

  lemma {:induction false} RoundIs(keys: seq<Quad>, i: nat, x: Quad)
    requires 0 < i < |keys|
    ensures Rounds(AriaLayers(), keys, i, x)
         == XorQuad(Diffuse(Sub(i - 1, Rounds(AriaLayers(), keys, i - 1, x))), keys[i])
  {
    hide Diffuse;
    hide Sub;
    hide XorQuad;
  }

  lemma {:induction false} RunIs(keys: seq<Quad>, x: Quad)
    requires |keys| >= 2
    ensures var nr := |keys| - 1;
            Run(AriaLayers(), keys, x) == XorQuad(Sub(nr - 1, Rounds(AriaLayers(), keys, nr - 1, x)), keys[nr])
  {
    hide Diffuse;
    hide Sub;
    hide XorQuad;
    hide Rounds;
  }

  lemma {:induction false} CryptIs(keys: seq<Quad>, input: seq<bv8>)
    requires |keys| >= 2 && |input| == 16
    ensures CryptBytes(keys, input) == PutLE(Run(AriaLayers(), keys, GetLE(input)))
  {
  }

  // aria_sl with the boxes of SL1 or SL2.
  method Sl(i: nat, q: Quad) returns (r: Quad)
    ensures r == Sub(i, q)
  {
    hide Sl1;
    hide Sl2;
    if i % 2 == 0 {
      r := Quad(Sl1(q.a), Sl1(q.b), Sl1(q.c), Sl1(q.d));
    } else {
      r := Quad(Sl2(q.a), Sl2(q.b), Sl2(q.c), Sl2(q.d));
    }
  }
}
