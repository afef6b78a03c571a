// Multiplication by x in GF(2^128) on little-endian blocks:
// mbedtls_gf128mul_x_ble of misc/mbedtls/library/aes.c.
module Gf128 {
  import Bytes
  import opened Bits
  import opened Field
  import opened Blocks
  import WordVector

  const WORD64: nat := 0x1_0000_0000_0000_0000

  // The number a byte string denotes, least significant byte first.
  function LittleEndian(s: seq<bv8>): nat {
    if s == [] then 0 else s[0] as nat + 256 * LittleEndian(s[1..])
  }

  lemma {:induction false} LittleEndianFirst(b: bv8, s: seq<bv8>)
    ensures LittleEndian([]) == 0 && LittleEndian([b] + s) == b as nat + 256 * LittleEndian(s)
  {
    assert ([b] + s)[1..] == s;
  }

  // The n lowest bytes of v.
  function Digits(v: nat, n: nat): (s: seq<bv8>)
    ensures |s| == n
  {
    if n == 0 then [] else [ToByte(v % 256)] + Digits(v / 256, n - 1)
  }

  lemma {:induction false} DigitsOf(v: nat, n: nat)
    requires v < Bytes.Radix(n)
    ensures LittleEndian(Digits(v, n)) == v
  {
    if n > 0 {
      DigitsOf(v / 256, n - 1);
      var s := Digits(v, n);
      assert s[1..] == Digits(v / 256, n - 1);
      ByteOf(v % 256);
    }
  }

  lemma {:induction false} LittleEndianBound(s: seq<bv8>)
    ensures LittleEndian(s) < Bytes.Radix(|s|)
  {
    if s != [] { LittleEndianBound(s[1..]); }
  }

  lemma {:induction false} LittleEndianInjective(s: seq<bv8>, t: seq<bv8>)
    requires |s| == |t| && LittleEndian(s) == LittleEndian(t)
    ensures s == t
  {
    if s != [] {
      LastDigit(LittleEndian(s[1..]), LittleEndian(t[1..]), s[0], t[0]);
      LittleEndianInjective(s[1..], t[1..]);
      assert s == [s[0]] + s[1..] && t == [t[0]] + t[1..];
    }
  }

  lemma {:induction false} LittleEndianJoin(s: seq<bv8>, t: seq<bv8>)
    ensures LittleEndian(s + t) == LittleEndian(s) + Shl(LittleEndian(t), 8 * |s|)
  {
    if s == [] {
      assert s + t == t;
    } else {
      LittleEndianJoin(s[1..], t);
      assert (s + t)[1..] == s[1..] + t;
      WordVector.Shl8(Shl(LittleEndian(t), 8 * |s[1..]|));
      ShlShl(LittleEndian(t), 8 * |s[1..]|, 8);
    }
  }

  lemma {:induction false} Radix8()
    ensures Bytes.Radix(8) == WORD64 && Pow2(64) == WORD64
    ensures Bytes.Radix(16) == Pow2(128) == WORD64 * WORD64
  {
    assert Bytes.Radix(4) == 0x1_0000_0000;
    assert Bytes.Radix(8) == WORD64;
    assert Bytes.Radix(12) == WORD64 * 0x1_0000_0000;
    Shl64(1);
    Shl64(Shl(1, 64));
    ShlShl(1, 64, 64);
  }

  lemma {:induction false} Shl64(a: nat)
    ensures Shl(a, 64) == WORD64 * a
  {
    WordVector.Shl32(a);
    WordVector.Shl32(Shl(a, 32));
    ShlShl(a, 32, 32);
  }

  // x^128 + x^7 + x^2 + x + 1
  function Polynomial(): nat {
    WORD64 * WORD64 + 0x87
  }

  lemma {:induction false} PolynomialIs()
    ensures Modulus(Polynomial(), 128) && Polynomial() == Pow2(128) + 0x87
    ensures Polynomial() < 2 * Pow2(128)
  {
    hide Shl;
    hide BitLen;
    Radix8();
    BitLenBound(Polynomial(), 128);
    BitLenBound(Polynomial(), 129);
    assert Pow2(129) == 2 * Pow2(128) by { ShlShl(1, 128, 1); OneMore(Pow2(128)); }
  }

  lemma {:induction false} OneMore(a: nat)
    ensures Shl(a, 1) == 2 * a
  {
  }

  // The two result words of the code.
  function LowWord(a: nat, b: nat): nat
    requires b < WORD64
  {
    Xor(2 * a % WORD64, Shr(0x87, 8 - 8 * (b / 0x8000_0000_0000_0000)))
  }

  function HighWord(a: nat, b: nat): nat {
    Or(2 * b % WORD64, a / 0x8000_0000_0000_0000)
  }

  // Together they are the reduced double.
  lemma {:induction false} WordsDouble(a: nat, b: nat)
    requires a < WORD64 && b < WORD64
    ensures LowWord(a, b) < WORD64 && HighWord(a, b) < WORD64
    ensures LowWord(a, b) + WORD64 * HighWord(a, b) == Mod(2 * (a + WORD64 * b), Polynomial(), 128)
  {
    hide Xor;
    hide Or;
    hide Shl;
    hide Shr;
    hide Mod;
    hide Bytes.Radix;
    hide Polynomial;
    hide LowWord;
    hide HighWord;
    var top, carry := b / HALF64, a / HALF64;
    var lo, d := 2 * a % WORD64, 2 * b % WORD64;
    Halves(a, b);
    HighIs(b, carry);
    ShiftedConstant(top);
    WordsAre(a, b);
    DoubleWords(a + WORD64 * b, lo, d + carry, top);
  }

  lemma {:induction false} DoubleWords(v: nat, lo: nat, hi: nat, top: nat)
    requires lo < WORD64 && hi < WORD64 && top <= 1 && v < WORD64 * WORD64
    requires 2 * v == lo + WORD64 * hi + WORD64 * WORD64 * top
    ensures var c := if top == 1 then 0x87 else 0;
            Xor(lo, c) < WORD64 && Xor(lo, c) + WORD64 * hi == Mod(2 * v, Polynomial(), 128)
  {
    hide Xor;
    hide Or;
    hide Shl;
    hide Shr;
    hide Mod;
    hide Bytes.Radix;
    hide Polynomial;
    hide LowWord;
    hide HighWord;
    var c := if top == 1 then 0x87 else 0;
    Radix8();
    XorWords(lo, hi, c);
    DoubleMod(v, lo + WORD64 * hi, top);
    XorZero(lo);
  }

  lemma {:induction false} XorWords(lo: nat, hi: nat, c: nat)
    requires lo < WORD64 && c < WORD64
    ensures Xor(lo, c) < WORD64
    ensures Xor(lo + WORD64 * hi, c) == Xor(lo, c) + WORD64 * hi
  {
    hide Xor;
    hide Shl;
    Radix8();
    Shl64(hi);
    Shl64(0);
    XorZero(hi);
    XorParts(lo, hi, c, 0, 64);
  }

  const HALF64: nat := 0x8000_0000_0000_0000

  lemma {:induction false} WordsAre(a: nat, b: nat)
    requires b < WORD64
    ensures b / HALF64 <= 1
    ensures LowWord(a, b) == Xor(2 * a % WORD64, Shr(0x87, 8 - 8 * (b / HALF64)))
    ensures HighWord(a, b) == Or(2 * b % WORD64, a / HALF64)
  {
  }

  lemma {:induction false} Halves(a: nat, b: nat)
    requires a < WORD64 && b < WORD64
    ensures a / HALF64 <= 1 && b / HALF64 <= 1 && a + WORD64 * b < WORD64 * WORD64
    ensures 2 * b % WORD64 + a / HALF64 < WORD64
    ensures 2 * (a + WORD64 * b) == 2 * a % WORD64 + WORD64 * (2 * b % WORD64 + a / HALF64) + WORD64 * WORD64 * (b / HALF64)
  {
  }

  lemma {:induction false} HighIs(b: nat, carry: nat)
    requires b < WORD64 && carry <= 1
    ensures Or(2 * b % WORD64, carry) == 2 * b % WORD64 + carry
  {
    var q := b % HALF64;
    assert 2 * b % WORD64 == 2 * q;
    assert Shl(q, 1) == 2 * Shl(q, 0);
    assert Pow2(0) == 1;
    assert Pow2(1) == 2 * Pow2(0);
    OrDisjoint(q, carry, 1);
  }

  lemma {:induction false} ShiftedConstant(top: nat)
    requires top <= 1
    ensures Shr(0x87, 8 - 8 * top) == if top == 1 then 0x87 else 0
  {
    if top == 0 {
      assert Shr(0x87, 8) == Shr(0x43, 7) == Shr(0x21, 6) == Shr(0x10, 5) == Shr(8, 4) == Shr(4, 3) == Shr(2, 2) == Shr(1, 1) == Shr(0, 0);
    }
  }

  lemma {:induction false} Constant()
    ensures 0x87 < Pow2(64) && 0x87 < Pow2(128) && 0 < Pow2(64)
  {
    hide Shl;
    Radix8();
  }

  lemma {:induction false} BitAt(r: nat, q: nat, n: nat)
    requires r < Pow2(n)
    ensures Bit(r + Shl(q, n), n) <==> q % 2 == 1
  {
    if n > 0 {
      Half(r, Shl(q, n - 1));
      BitAt(r / 2, q, n - 1);
    }
  }

  // Reducing a double whose bit 128 is top and whose other bits are low.
  lemma {:induction false} DoubleMod(v: nat, low: nat, top: nat)
    requires top <= 1 && low < Pow2(128) && v < Pow2(128) && 2 * v == low + WORD64 * WORD64 * top
    ensures Mod(2 * v, Polynomial(), 128) == if top == 1 then Xor(low, 0x87) else low
  {
    hide Shl;
    hide Xor;
    hide Mod;
    hide Bit;
    var f := Polynomial();
    Radix8();
    PolynomialIs();
    ModSmall(v, f, 128);
    ModDouble(v, f, 128);
    ShlOf(128, top);
    BitAt(low, top, 128);
    if top == 1 {
      ShlOf(128, 1);
      Constant();
      XorParts(low, 1, 0x87, 1, 128);
      XorSelf(1);
      ShlOf(128, 0);
    }
  }

  lemma {:induction false} ShlOf(n: nat, top: nat)
    requires top <= 1
    ensures Shl(top, n) == Pow2(n) * top
  {
    if top == 0 { BitLenShl(0, n); }
  }

  // ---- the code

  // GET_UINT64_LE
  method Load64(x: array<bv8>, i: nat) returns (n: nat)
    requires i + 8 <= x.Length
    ensures n == LittleEndian(x[i..i + 8]) < WORD64
  {
    n := 0;
    var k := 8;
    while k > 0
      invariant 0 <= k <= 8
      invariant n == LittleEndian(x[i + k..i + 8])
    {
      k := k - 1;
      n := x[i + k] as nat + 256 * n;
      assert x[i + k..i + 8][1..] == x[i + k + 1..i + 8];
    }
    LittleEndianBound(x[i..i + 8]);
    Radix8();
  }

  // mbedtls_gf128mul_x_ble; r and x may be one array.
  method Gf128MulXBle(r: array<bv8>, x: array<bv8>)
    requires r.Length == 16 && x.Length == 16
    modifies r
    ensures LittleEndian(r[..]) == Mod(2 * LittleEndian(old(x[..])), Polynomial(), 128)
  {
    hide Xor;
    hide Or;
    hide Shl;
    hide Shr;
    hide Mod;
    hide Bytes.Radix;
    hide Polynomial;
    hide LowWord;
    hide HighWord;
    hide LittleEndian;
    hide Digits;
    ghost var t := x[..];
    var a := Load64(x, 0);
    var b := Load64(x, 8);
    assert t == x[0..8] + x[8..16];
    WordsDouble(a, b);
    var ra, rb := LowWord(a, b), HighWord(a, b);
    var lo, hi := Digits(ra, 8), Digits(rb, 8);
    Store(r, 0, lo);
    Store(r, 8, hi);
    assert r[..] == lo + hi;
    Radix8();
    DigitsOf(ra, 8);
    DigitsOf(rb, 8);
    Shl64(rb);
    Shl64(b);
    LittleEndianJoin(lo, hi);
    LittleEndianJoin(x[0..8], x[8..16]);
    LittleEndianJoin(t[..8], t[8..]);
    assert t == t[..8] + t[8..];
  }

  // PUT_UINT64_LE
  method Store(r: array<bv8>, i: nat, d: seq<bv8>)
    requires i + |d| <= r.Length
    modifies r
    ensures r[..] == old(r[..i]) + d + old(r[i + |d|..])
  {
    WriteBytes(r, i, d);
  }
}
