// 32-bit words, the bytes in them, and states of four words, for the block
// ciphers of misc/mbedtls/library.
module Words {
  function Byte0(x: bv32): bv8 { (x & 0xFF) as bv8 }

  function Byte1(x: bv32): bv8 { ((x >> 8) & 0xFF) as bv8 }

  function Byte2(x: bv32): bv8 { ((x >> 16) & 0xFF) as bv8 }

  function Byte3(x: bv32): bv8 { ((x >> 24) & 0xFF) as bv8 }

  // The word with the given bytes, least significant first.
  function Join(b0: bv8, b1: bv8, b2: bv8, b3: bv8): bv32 {
    (b0 as bv32) | ((b1 as bv32) << 8) | ((b2 as bv32) << 16) | ((b3 as bv32) << 24)
  }

  // Byte 0 is the lowest one.
  lemma {:induction false} JoinIs(b0: bv8, b1: bv8, b2: bv8, b3: bv8)
    ensures var x := Join(b0, b1, b2, b3);
      x & 0xFF == b0 as bv32 && (x >> 8) & 0xFF == b1 as bv32 && (x >> 16) & 0xFF == b2 as bv32 && x >> 24 == b3 as bv32
  {
  }

  lemma {:induction false} JoinBytes(x: bv32)
    ensures Join(Byte0(x), Byte1(x), Byte2(x), Byte3(x)) == x
  {
  }

  lemma {:induction false} BytesJoin(b0: bv8, b1: bv8, b2: bv8, b3: bv8)
    ensures var x := Join(b0, b1, b2, b3); Byte0(x) == b0 && Byte1(x) == b1 && Byte2(x) == b2 && Byte3(x) == b3
  {
  }

  function Xor(x: bv32, y: bv32): bv32 { x ^ y }

  function And(x: bv32, y: bv32): bv32 { x & y }

  function Or(x: bv32, y: bv32): bv32 { x | y }

  function Rotl1(x: bv32): bv32 { (x << 1) | (x >> 31) }

  function Rotl8(x: bv32): bv32 { (x << 8) | (x >> 24) }

  function Rotl16(x: bv32): bv32 { (x << 16) | (x >> 16) }

  function Rotl24(x: bv32): bv32 { (x << 24) | (x >> 8) }

  lemma {:induction false} Rotl8Bytes(x: bv32)
    ensures Byte0(Rotl8(x)) == Byte3(x) && Byte1(Rotl8(x)) == Byte0(x)
    ensures Byte2(Rotl8(x)) == Byte1(x) && Byte3(Rotl8(x)) == Byte2(x)
  {
  }

  lemma {:induction false} Rotl16Bytes(x: bv32)
    ensures Byte0(Rotl16(x)) == Byte2(x) && Byte1(Rotl16(x)) == Byte3(x)
    ensures Byte2(Rotl16(x)) == Byte0(x) && Byte3(Rotl16(x)) == Byte1(x)
  {
  }

  lemma {:induction false} Rotl24Bytes(x: bv32)
    ensures Byte0(Rotl24(x)) == Byte1(x) && Byte1(Rotl24(x)) == Byte2(x)
    ensures Byte2(Rotl24(x)) == Byte3(x) && Byte3(Rotl24(x)) == Byte0(x)
  {
  }

  lemma {:induction false} RotateJoin(b0: bv8, b1: bv8, b2: bv8, b3: bv8)
    ensures Rotl8(Join(b0, b1, b2, b3)) == Join(b3, b0, b1, b2)
    ensures Rotl16(Join(b0, b1, b2, b3)) == Join(b2, b3, b0, b1)
    ensures Rotl24(Join(b0, b1, b2, b3)) == Join(b1, b2, b3, b0)
  {
    hide *;
    var x := Join(b0, b1, b2, b3);
    BytesJoin(b0, b1, b2, b3);
    Rotl8Bytes(x);
    JoinBytes(Rotl8(x));
    Rotl16Bytes(x);
    JoinBytes(Rotl16(x));
    Rotl24Bytes(x);
    JoinBytes(Rotl24(x));
  }

  lemma {:induction false} XorTwice(x: bv32, y: bv32)
    ensures Xor(Xor(x, y), y) == x && Xor(x, y) == Xor(y, x)
  {
  }

  lemma {:induction false} XorAssoc(x: bv32, y: bv32, z: bv32)
    ensures Xor(Xor(x, y), z) == Xor(x, Xor(y, z))
  {
    hide *;
    XorIs(x, y);
    XorIs(y, z);
    Sum3(x, y, z);
  }

  lemma {:induction false} Sum3(x: bv32, y: bv32, z: bv32)
    ensures Xor(x ^ y, z) == x ^ y ^ z && Xor(x, y ^ z) == x ^ y ^ z
  {
  }

  lemma {:induction false} XorCancel(x: bv32, y: bv32)
    ensures Xor(y, Xor(y, x)) == x
  {
  }

  function Xor8(x: bv8, y: bv8): bv8 { x ^ y }

  lemma {:induction false} Xor8Is(x: bv8, y: bv8)
    ensures Xor8(x, y) == x ^ y
  {
  }

  lemma {:induction false} BytesXor(x: bv32, y: bv32)
    ensures Byte0(Xor(x, y)) == Xor8(Byte0(x), Byte0(y)) && Byte1(Xor(x, y)) == Xor8(Byte1(x), Byte1(y))
    ensures Byte2(Xor(x, y)) == Xor8(Byte2(x), Byte2(y)) && Byte3(Xor(x, y)) == Xor8(Byte3(x), Byte3(y))
  {
    hide *;
    XorIs(x, y);
    BytesOfSum(x, y);
    Xor8Is(Byte0(x), Byte0(y));
    Xor8Is(Byte1(x), Byte1(y));
    Xor8Is(Byte2(x), Byte2(y));
    Xor8Is(Byte3(x), Byte3(y));
  }

  lemma {:induction false} XorIs(x: bv32, y: bv32)
    ensures Xor(x, y) == x ^ y
  {
  }

  lemma {:induction false} BytesOfSum(x: bv32, y: bv32)
    ensures Byte0(x ^ y) == Byte0(x) ^ Byte0(y) && Byte1(x ^ y) == Byte1(x) ^ Byte1(y)
    ensures Byte2(x ^ y) == Byte2(x) ^ Byte2(y) && Byte3(x ^ y) == Byte3(x) ^ Byte3(y)
  {
  }

  lemma {:induction false} JoinXor(a0: bv8, a1: bv8, a2: bv8, a3: bv8, b0: bv8, b1: bv8, b2: bv8, b3: bv8)
    ensures Xor(Join(a0, a1, a2, a3), Join(b0, b1, b2, b3)) == Join(Xor8(a0, b0), Xor8(a1, b1), Xor8(a2, b2), Xor8(a3, b3))
  {
  }

  // A word XORed with a rotated word, byte by byte.
  lemma {:induction false} XorRotl(a0: bv8, a1: bv8, a2: bv8, a3: bv8, b0: bv8, b1: bv8, b2: bv8, b3: bv8)
    ensures Xor(Join(a0, a1, a2, a3), Rotl8(Join(b0, b1, b2, b3))) == Join(Xor8(a0, b3), Xor8(a1, b0), Xor8(a2, b1), Xor8(a3, b2))
    ensures Xor(Join(a0, a1, a2, a3), Rotl16(Join(b0, b1, b2, b3))) == Join(Xor8(a0, b2), Xor8(a1, b3), Xor8(a2, b0), Xor8(a3, b1))
    ensures Xor(Join(a0, a1, a2, a3), Rotl24(Join(b0, b1, b2, b3))) == Join(Xor8(a0, b1), Xor8(a1, b2), Xor8(a2, b3), Xor8(a3, b0))
  {
    hide *;
    RotateJoin(b0, b1, b2, b3);
    JoinXor(a0, a1, a2, a3, b3, b0, b1, b2);
    JoinXor(a0, a1, a2, a3, b2, b3, b0, b1);
    JoinXor(a0, a1, a2, a3, b1, b2, b3, b0);
  }

  lemma {:induction false} Xor8Comm(x: bv8, y: bv8)
    ensures Xor8(x, y) == Xor8(y, x)
  {
  }

  lemma {:induction false} Xor8Assoc(x: bv8, y: bv8, z: bv8)
    ensures Xor8(Xor8(x, y), z) == Xor8(x, Xor8(y, z))
  {
    hide *;
    Xor8Is(x, y);
    Xor8Is(y, z);
    ThreeBytes(x, y, z);
  }

  lemma {:induction false} ThreeBytes(x: bv8, y: bv8, z: bv8)
    ensures Xor8(x ^ y, z) == x ^ y ^ z && Xor8(x, y ^ z) == x ^ y ^ z
  {
  }

  datatype Quad = Quad(a: bv32, b: bv32, c: bv32, d: bv32)

  function XorQuad(x: Quad, y: Quad): Quad {
    Quad(Xor(x.a, y.a), Xor(x.b, y.b), Xor(x.c, y.c), Xor(x.d, y.d))
  }

  lemma {:induction false} XorQuadIs(x: Quad, y: Quad)
    ensures XorQuad(x, y) == Quad(x.a ^ y.a, x.b ^ y.b, x.c ^ y.c, x.d ^ y.d)
  {
    hide Xor;
    XorIs(x.a, y.a);
    XorIs(x.b, y.b);
    XorIs(x.c, y.c);
    XorIs(x.d, y.d);
  }

  lemma {:induction false} XorQuadTwice(x: Quad, y: Quad)
    ensures XorQuad(XorQuad(x, y), y) == x
  {
    hide Xor;
    XorTwice(x.a, y.a);
    XorTwice(x.b, y.b);
    XorTwice(x.c, y.c);
    XorTwice(x.d, y.d);
  }

  // Four words from 16 bytes, least significant byte first.
  function GetLE(s: seq<bv8>): Quad
    requires |s| == 16
  {
    Quad(Join(s[0], s[1], s[2], s[3]), Join(s[4], s[5], s[6], s[7]),
         Join(s[8], s[9], s[10], s[11]), Join(s[12], s[13], s[14], s[15]))
  }

  lemma {:induction false} GetLEIs(s: seq<bv8>)
    requires |s| == 16
    ensures var q := GetLE(s);
      q.a & 0xFF == s[0] as bv32 && (q.a >> 8) & 0xFF == s[1] as bv32 && (q.a >> 16) & 0xFF == s[2] as bv32 && q.a >> 24 == s[3] as bv32 &&
      q.b & 0xFF == s[4] as bv32 && (q.b >> 8) & 0xFF == s[5] as bv32 && (q.b >> 16) & 0xFF == s[6] as bv32 && q.b >> 24 == s[7] as bv32 &&
      q.c & 0xFF == s[8] as bv32 && (q.c >> 8) & 0xFF == s[9] as bv32 && (q.c >> 16) & 0xFF == s[10] as bv32 && q.c >> 24 == s[11] as bv32 &&
      q.d & 0xFF == s[12] as bv32 && (q.d >> 8) & 0xFF == s[13] as bv32 && (q.d >> 16) & 0xFF == s[14] as bv32 && q.d >> 24 == s[15] as bv32
  {
    hide Join;
    JoinIs(s[0], s[1], s[2], s[3]);
    JoinIs(s[4], s[5], s[6], s[7]);
    JoinIs(s[8], s[9], s[10], s[11]);
    JoinIs(s[12], s[13], s[14], s[15]);
  }

  function PutLE(q: Quad): (s: seq<bv8>)
    ensures |s| == 16
  {
    [Byte0(q.a), Byte1(q.a), Byte2(q.a), Byte3(q.a), Byte0(q.b), Byte1(q.b), Byte2(q.b), Byte3(q.b),
     Byte0(q.c), Byte1(q.c), Byte2(q.c), Byte3(q.c), Byte0(q.d), Byte1(q.d), Byte2(q.d), Byte3(q.d)]
  }

  // PUT_UINT32_LE of the four words.
  method WriteLE(q: Quad, output: array<bv8>)
    requires output.Length == 16
    modifies output
    ensures output[..] == PutLE(q)
  {
    hide PutLE;
    var r := PutLE(q);
    forall k | 0 <= k < 16 { output[k] := r[k]; }
    assert output[..] == r;
  }

  lemma {:induction false} GetPutLE(q: Quad)
    ensures GetLE(PutLE(q)) == q
  {
    hide Join;
    hide Byte0;
    hide Byte1;
    hide Byte2;
    hide Byte3;
    JoinBytes(q.a);
    JoinBytes(q.b);
    JoinBytes(q.c);
    JoinBytes(q.d);
  }

  lemma {:induction false} PutGetLE(s: seq<bv8>)
    requires |s| == 16
    ensures PutLE(GetLE(s)) == s
  {
    var t := PutLE(GetLE(s));
    hide Join;
    hide Byte0;
    hide Byte1;
    hide Byte2;
    hide Byte3;
    BytesJoin(s[0], s[1], s[2], s[3]);
    BytesJoin(s[4], s[5], s[6], s[7]);
    BytesJoin(s[8], s[9], s[10], s[11]);
    BytesJoin(s[12], s[13], s[14], s[15]);
    assert t[0] == s[0] && t[1] == s[1] && t[2] == s[2] && t[3] == s[3];
    assert t[4] == s[4] && t[5] == s[5] && t[6] == s[6] && t[7] == s[7];
    assert t[8] == s[8] && t[9] == s[9] && t[10] == s[10] && t[11] == s[11];
    assert t[12] == s[12] && t[13] == s[13] && t[14] == s[14] && t[15] == s[15];
  }

  // Four words from 16 bytes, most significant byte first.
  function GetBE(s: seq<bv8>): Quad
    requires |s| == 16
  {
    Quad(Join(s[3], s[2], s[1], s[0]), Join(s[7], s[6], s[5], s[4]),
         Join(s[11], s[10], s[9], s[8]), Join(s[15], s[14], s[13], s[12]))
  }

  lemma {:induction false} GetBEIs(s: seq<bv8>)
    requires |s| == 16
    ensures var q := GetBE(s);
      q.a >> 24 == s[0] as bv32 && (q.a >> 16) & 0xFF == s[1] as bv32 && (q.a >> 8) & 0xFF == s[2] as bv32 && q.a & 0xFF == s[3] as bv32 &&
      q.b >> 24 == s[4] as bv32 && (q.b >> 16) & 0xFF == s[5] as bv32 && (q.b >> 8) & 0xFF == s[6] as bv32 && q.b & 0xFF == s[7] as bv32 &&
      q.c >> 24 == s[8] as bv32 && (q.c >> 16) & 0xFF == s[9] as bv32 && (q.c >> 8) & 0xFF == s[10] as bv32 && q.c & 0xFF == s[11] as bv32 &&
      q.d >> 24 == s[12] as bv32 && (q.d >> 16) & 0xFF == s[13] as bv32 && (q.d >> 8) & 0xFF == s[14] as bv32 && q.d & 0xFF == s[15] as bv32
  {
    hide Join;
    JoinIs(s[3], s[2], s[1], s[0]);
    JoinIs(s[7], s[6], s[5], s[4]);
    JoinIs(s[11], s[10], s[9], s[8]);
    JoinIs(s[15], s[14], s[13], s[12]);
  }

  function PutBE(q: Quad): (s: seq<bv8>)
    ensures |s| == 16
  {
    [Byte3(q.a), Byte2(q.a), Byte1(q.a), Byte0(q.a), Byte3(q.b), Byte2(q.b), Byte1(q.b), Byte0(q.b),
     Byte3(q.c), Byte2(q.c), Byte1(q.c), Byte0(q.c), Byte3(q.d), Byte2(q.d), Byte1(q.d), Byte0(q.d)]
  }

  lemma {:induction false} GetPutBE(q: Quad)
    ensures GetBE(PutBE(q)) == q
  {
    hide Join;
    hide Byte0;
    hide Byte1;
    hide Byte2;
    hide Byte3;
    JoinBytes(q.a);
    JoinBytes(q.b);
    JoinBytes(q.c);
    JoinBytes(q.d);
  }

  lemma {:induction false} PutGetBE(s: seq<bv8>)
    requires |s| == 16
    ensures PutBE(GetBE(s)) == s
  {
    var t := PutBE(GetBE(s));
    hide Join;
    hide Byte0;
    hide Byte1;
    hide Byte2;
    hide Byte3;
    BytesJoin(s[3], s[2], s[1], s[0]);
    BytesJoin(s[7], s[6], s[5], s[4]);
    BytesJoin(s[11], s[10], s[9], s[8]);
    BytesJoin(s[15], s[14], s[13], s[12]);
    assert t[0] == s[0] && t[1] == s[1] && t[2] == s[2] && t[3] == s[3];
    assert t[4] == s[4] && t[5] == s[5] && t[6] == s[6] && t[7] == s[7];
    assert t[8] == s[8] && t[9] == s[9] && t[10] == s[10] && t[11] == s[11];
    assert t[12] == s[12] && t[13] == s[13] && t[14] == s[14] && t[15] == s[15];
  }
}
