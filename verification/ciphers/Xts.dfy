// XTS: mbedtls_aes_crypt_xts of misc/mbedtls/library/aes.c. Input and output do
// not overlap.
module Xts {
  import Bytes
  import opened Blocks
  import opened Gf128
  import Bits
  import Field

  datatype Mode = Encrypt | Decrypt

  // The block that denotes x times the element denoted by t.
  function TimesX(t: Block): Block {
    Digits(Field.Mod(2 * LittleEndian(t), Polynomial(), 128), 16)
  }

  // The tweak of block k, t0 being the encrypted data unit number.
  function Tweak(t0: Block, k: nat): Block {
    if k == 0 then t0 else TimesX(Tweak(t0, k - 1))
  }

  function Code(c: Cipher, mode: Mode, b: Block): Block {
    if mode == Encrypt then c.enc(b) else c.dec(b)
  }

  function Tweaked(c: Cipher, mode: Mode, t: Block, b: Block): Block {
    XorBytes(Code(c, mode, XorBytes(b, t)), t)
  }

  // The data unit from block k on. With leftover bytes the last full block and
  // the leftover use two tweaks: in order when encrypting, swapped when
  // decrypting.
  function Crypt(c: Cipher, mode: Mode, t0: Block, k: nat, x: seq<bv8>): (y: seq<bv8>)
    requires |x| >= 16
    ensures |y| == |x|
    decreases |x|
  {
    if |x| == 16 then Tweaked(c, mode, Tweak(t0, k), x)
    else if |x| < 32 then Stolen(c, mode, t0, k, x)
    else Tweaked(c, mode, Tweak(t0, k), x[..16]) + Crypt(c, mode, t0, k + 1, x[16..])
  }

  // A full block k and fewer than 16 leftover bytes: ciphertext stealing.
  function Stolen(c: Cipher, mode: Mode, t0: Block, k: nat, x: seq<bv8>): (y: seq<bv8>)
    requires 16 < |x| < 32
    ensures |y| == |x|
  {
    var first, second := if mode == Encrypt then k else k + 1, if mode == Encrypt then k + 1 else k;
    var z := Tweaked(c, mode, Tweak(t0, first), x[..16]);
    Tweaked(c, mode, Tweak(t0, second), x[16..] + z[|x| - 16..]) + z[..|x| - 16]
  }

  // ---- properties

  lemma {:induction false} TweakedBack(c: Cipher, t: Block, b: Block)
    requires c.Inverse()
    ensures Tweaked(c, Decrypt, t, Tweaked(c, Encrypt, t, b)) == b
  {
    hide XorBytes;
    XorBytesTwice(c.enc(XorBytes(b, t)), t);
    XorBytesTwice(b, t);
  }

  // Decryption of the encryption is the data unit, whatever its length.
  lemma {:induction false} DecryptEncrypt(c: Cipher, t0: Block, k: nat, x: seq<bv8>)
    requires c.Inverse() && |x| >= 16
    ensures Crypt(c, Decrypt, t0, k, Crypt(c, Encrypt, t0, k, x)) == x
    decreases |x|
  {
    hide Tweaked;
    hide Tweak;
    hide Stolen;
    var t := Tweak(t0, k);
    var y := Crypt(c, Encrypt, t0, k, x);
    if |x| == 16 {
      TweakedBack(c, t, x);
    } else if |x| < 32 {
      StolenBack(c, t0, k, x);
    } else {
      var b := x[..16];
      assert y[..16] == Tweaked(c, Encrypt, t, b) && y[16..] == Crypt(c, Encrypt, t0, k + 1, x[16..]);
      TweakedBack(c, t, b);
      DecryptEncrypt(c, t0, k + 1, x[16..]);
      assert x == b + x[16..];
    }
  }

  lemma {:induction false} StolenBack(c: Cipher, t0: Block, k: nat, x: seq<bv8>)
    requires c.Inverse() && 16 < |x| < 32
    ensures Stolen(c, Decrypt, t0, k, Stolen(c, Encrypt, t0, k, x)) == x
  {
    hide Tweaked;
    hide Tweak;
    var r, t, u := |x| - 16, Tweak(t0, k), Tweak(t0, k + 1);
    var z := Tweaked(c, Encrypt, t, x[..16]);
    var last := x[16..] + z[r..];
    var y := Stolen(c, Encrypt, t0, k, x);
    assert y[..16] == Tweaked(c, Encrypt, u, last) && y[16..] == z[..r];
    TweakedBack(c, u, last);
    assert last[r..] == z[r..] && last[..r] == x[16..];
    assert z[..r] + z[r..] == z;
    TweakedBack(c, t, x[..16]);
    assert x == x[..16] + x[16..];
  }

  lemma {:induction false} TimesXIs(t: Block)
    ensures LittleEndian(TimesX(t)) == Field.Mod(2 * LittleEndian(t), Polynomial(), 128)
  {
    hide LittleEndian;
    hide Digits;
    hide Field.Mod;
    hide Bytes.Radix;
    hide Polynomial;
    var v := 2 * LittleEndian(t);
    PolynomialIs();
    Field.ModSmall(v, Polynomial(), 128);
    Radix8();
    DigitsOf(Field.Mod(v, Polynomial(), 128), 16);
  }

  // The tweak of block k is alpha^k times the first one.
  lemma {:induction false} TweakIs(t0: Block, k: nat)
    ensures LittleEndian(Tweak(t0, k)) == Field.Mul(Bits.Pow2(k), LittleEndian(t0), Polynomial(), 128)
  {
    hide LittleEndian;
    hide Field.Mod;
    hide Field.PMul;
    hide Polynomial;
    hide TimesX;
    var v, f := LittleEndian(t0), Polynomial();
    PolynomialIs();
    Field.PMulShl(1, v, k);
    Field.PMulComm(1, v);
    Field.PMulOne(v);
    TweakShift(t0, k);
  }

  lemma {:induction false} TweakShift(t0: Block, k: nat)
    ensures LittleEndian(Tweak(t0, k)) == Field.Mod(Bits.Shl(LittleEndian(t0), k), Polynomial(), 128)
  {
    hide LittleEndian;
    hide Field.Mod;
    hide Polynomial;
    hide TimesX;
    var v, f := LittleEndian(t0), Polynomial();
    PolynomialIs();
    if k == 0 {
      hide Bytes.Radix;
      LittleEndianBound(t0);
      Radix8();
      Field.ModSmall(v, f, 128);
    } else {
      TweakShift(t0, k - 1);
      var w := Bits.Shl(v, k - 1);
      TimesXIs(Tweak(t0, k - 1));
      Field.ModIdem(w, f, 128);
      Field.ModDouble(w, f, 128);
      Field.ModDouble(Field.Mod(w, f, 128), f, 128);
    }
  }

  // ---- the code

  // The first j blocks, each under its own tweak.
  function Plain(c: Cipher, mode: Mode, t0: Block, k: nat, x: seq<bv8>, j: nat): (y: seq<bv8>)
    requires 16 * j <= |x|
    ensures |y| == 16 * j
    decreases j
  {
    if j == 0 then [] else Tweaked(c, mode, Tweak(t0, k), x[..16]) + Plain(c, mode, t0, k + 1, x[16..], j - 1)
  }

  lemma {:induction false} PlainNext(c: Cipher, mode: Mode, t0: Block, k: nat, x: seq<bv8>, j: nat)
    requires 16 * j + 16 <= |x|
    ensures Plain(c, mode, t0, k, x, j + 1)
         == Plain(c, mode, t0, k, x, j) + Tweaked(c, mode, Tweak(t0, k + j), x[16 * j..16 * j + 16])
    decreases j
  {
    hide Tweaked;
    hide Tweak;
    if j == 0 {
      assert Plain(c, mode, t0, k + 1, x[16..], 0) == [];
    } else {
      PlainNext(c, mode, t0, k + 1, x[16..], j - 1);
      assert x[16..][16 * (j - 1)..16 * (j - 1) + 16] == x[16 * j..16 * j + 16];
    }
  }

  lemma {:induction false} CryptSplit(c: Cipher, mode: Mode, t0: Block, k: nat, x: seq<bv8>, j: nat)
    requires 16 * j + 16 <= |x|
    ensures Crypt(c, mode, t0, k, x) == Plain(c, mode, t0, k, x, j) + Crypt(c, mode, t0, k + j, x[16 * j..])
    decreases j
  {
    hide Tweaked;
    hide Tweak;
    hide Stolen;
    if j == 0 {
      assert x[0..] == x;
    } else {
      CryptSplit(c, mode, t0, k + 1, x[16..], j - 1);
      assert x[16..][16 * (j - 1)..] == x[16 * j..];
    }
  }

  // ---- what the blocks are, section 5.3 of IEEE Std 1619 in the terms of the code

  // The tweak of block j is the block that denotes x^j times the first one.
  lemma {:induction false} TweakOf(t0: Block, j: nat, t: Block)
    requires LittleEndian(t) == Field.Mul(Bits.Pow2(j), LittleEndian(t0), Bits.Pow2(128) + 0x87, 128)
    ensures t == Tweak(t0, j)
  {
    hide LittleEndian;
    hide Tweak;
    hide Field.Mul;
    PolynomialIs();
    TweakIs(t0, j);
    LittleEndianInjective(t, Tweak(t0, j));
  }

  lemma {:induction false} TweakedIs(c: Cipher, mode: Mode, t: Block, b: Block)
    ensures XorBytes(Tweaked(c, mode, t, b), t) == if mode == Encrypt then c.enc(XorBytes(b, t)) else c.dec(XorBytes(b, t))
  {
    hide XorBytes;
    XorBytesTwice(Code(c, mode, XorBytes(b, t)), t);
  }

  // Every block before the stealing step.
  lemma {:induction false} BlockIs(c: Cipher, mode: Mode, t0: Block, x: seq<bv8>, j: nat, t: Block)
    requires 16 * j + 16 <= |x| && (|x| % 16 == 0 || 16 * j + 32 <= |x|)
    requires LittleEndian(t) == Field.Mul(Bits.Pow2(j), LittleEndian(t0), Bits.Pow2(128) + 0x87, 128)
    ensures var xj, yj := x[16 * j..16 * j + 16], Crypt(c, mode, t0, 0, x)[16 * j..16 * j + 16];
            XorBytes(yj, t) == if mode == Encrypt then c.enc(XorBytes(xj, t)) else c.dec(XorBytes(xj, t))
  {
    hide *;
    TweakOf(t0, j, t);
    CryptSplit(c, mode, t0, 0, x, j);
    FirstOf(c, mode, t0, j, x[16 * j..]);
    TweakedIs(c, mode, t, x[16 * j..16 * j + 16]);
    assert x[16 * j..][..16] == x[16 * j..16 * j + 16];
    Inside(Plain(c, mode, t0, 0, x, j), Crypt(c, mode, t0, j, x[16 * j..]));
  }

  lemma {:induction false} FirstOf(c: Cipher, mode: Mode, t0: Block, k: nat, x: seq<bv8>)
    requires |x| == 16 || |x| >= 32
    ensures Crypt(c, mode, t0, k, x)[..16] == Tweaked(c, mode, Tweak(t0, k), x[..16])
  {
    hide Tweaked;
    hide Tweak;
    assert |x| == 16 ==> x[..16] == x;
  }

  lemma {:induction false} Inside(a: seq<bv8>, b: seq<bv8>)
    requires |b| >= 16
    ensures (a + b)[|a|..|a| + 16] == b[..16] && (a + b)[|a| + 16..] == b[16..]
  {
  }

  // The stealing step: m full blocks and r leftover bytes. Block m - 1 becomes z,
  // whose first r bytes are the end of the output; the leftover bytes, filled
  // up with the other bytes of z, become the block before them. Encryption
  // uses the tweaks in order, decryption in the other order.
  lemma {:induction false} StealingIs(c: Cipher, mode: Mode, t0: Block, x: seq<bv8>, m: nat, t: Block, u: Block) returns (z: Block)
    requires m > 0 && 16 * m < |x| < 16 * m + 16
    requires LittleEndian(t) == Field.Mul(Bits.Pow2(m - 1), LittleEndian(t0), Bits.Pow2(128) + 0x87, 128)
    requires LittleEndian(u) == Field.Mul(Bits.Pow2(m), LittleEndian(t0), Bits.Pow2(128) + 0x87, 128)
    ensures var p, r := 16 * m, |x| - 16 * m;
            var y, v: Block := Crypt(c, mode, t0, 0, x), x[16 * m..] + z[r..];
            && y[p..] == z[..r]
            && (mode == Encrypt ==> XorBytes(z, t) == c.enc(XorBytes(x[p - 16..p], t)) && XorBytes(y[p - 16..p], u) == c.enc(XorBytes(v, u)))
            && (mode == Decrypt ==> XorBytes(z, u) == c.dec(XorBytes(x[p - 16..p], u)) && XorBytes(y[p - 16..p], t) == c.dec(XorBytes(v, t)))
  {
    hide LittleEndian;
    hide Tweak;
    hide Tweaked;
    hide XorBytes;
    hide Field.Mul;
    var p, r := 16 * m, |x| - 16 * m;
    TweakOf(t0, m - 1, t);
    TweakOf(t0, m, u);
    CryptSplit(c, mode, t0, 0, x, m - 1);
    var w := x[16 * (m - 1)..];
    assert w[..16] == x[p - 16..p] && w[16..] == x[p..];
    var first, second := if mode == Encrypt then t else u, if mode == Encrypt then u else t;
    z := Tweaked(c, mode, first, x[p - 16..p]);
    TweakedIs(c, mode, first, x[p - 16..p]);
    TweakedIs(c, mode, second, x[p..] + z[r..]);
    Inside(Plain(c, mode, t0, 0, x, m - 1), Crypt(c, mode, t0, m - 1, w));
    StolenIs(c, mode, t0, m - 1, w);
  }

  lemma {:induction false} StolenIs(c: Cipher, mode: Mode, t0: Block, k: nat, x: seq<bv8>)
    requires 16 < |x| < 32
    ensures var first, second := if mode == Encrypt then k else k + 1, if mode == Encrypt then k + 1 else k;
            var z := Tweaked(c, mode, Tweak(t0, first), x[..16]);
            var y := Crypt(c, mode, t0, k, x);
            y[..16] == Tweaked(c, mode, Tweak(t0, second), x[16..] + z[|x| - 16..]) && y[16..] == z[..|x| - 16]
  {
    hide Tweaked;
    hide Tweak;
  }

  // The XORs around one call of the block cipher.
  method CodeBlock(c: Cipher, mode: Mode, t: array<bv8>, x: Block) returns (y: Block)
    requires t.Length == 16
    ensures y == Tweaked(c, mode, t[..], x)
  {
    hide XorBytes;
    var tmp := XorBytes(x, t[..]);
    var code := Code(c, mode, tmp);
    y := XorBytes(code, t[..]);
  }

  // mbedtls_aes_crypt_xts; enc is encryption under the tweak key and -0x22 the
  // invalid-length error.
  method AesCryptXts(c: Cipher, enc: Block -> Block, mode: Mode, dataUnit: Block, input: seq<bv8>, output: array<bv8>)
    returns (ret: int)
    requires |input| <= output.Length
    modifies output
    ensures ret == if |input| < 16 || |input| > 0x100_0000 then -0x22 else 0
    ensures ret != 0 ==> output[..] == old(output[..])
    ensures ret == 0 ==> output[..] == Crypt(c, mode, enc(dataUnit), 0, input) + old(output[|input|..])
  {
    if |input| < 16 {
      return -0x22;
    }
    if |input| > 0x100_0000 {
      return -0x22;
    }
    CryptUnit(c, enc(dataUnit), mode, input, output);
    return 0;
  }

  // The call after the length checks; t0 is the first tweak.
  method CryptUnit(c: Cipher, t0: Block, mode: Mode, input: seq<bv8>, output: array<bv8>)
    requires 16 <= |input| <= output.Length
    modifies output
    ensures output[..] == Crypt(c, mode, t0, 0, input) + old(output[|input|..])
  {
    hide *;
    ghost var out0 := output[..];
    var tweak, prevTweak := new bv8[16], new bv8[16];
    WriteBytes(tweak, 0, t0);
    Nothing(c, mode, t0, input);
    var p := FullBlocks(c, mode, tweak, prevTweak, input, output, t0, out0);
    if |input| % 16 > 0 {
      LeftoverBytes(c, mode, tweak, prevTweak, input, output, p, t0, out0);
    } else {
      BetweenPlain(c, mode, tweak[..], prevTweak[..], input, output[..], p / 16, t0, out0);
      PlainAll(c, mode, t0, input, p / 16 - 1);
    }
  }

  lemma {:induction false} BetweenPlain(c: Cipher, mode: Mode, tweak: seq<bv8>, prevTweak: seq<bv8>, input: seq<bv8>,
                                        output: seq<bv8>, m: nat, t0: Block, out0: seq<bv8>)
    requires 0 < m && 16 * m == |input| <= |out0|
    requires Between(c, mode, tweak, prevTweak, input, output, m, t0, out0)
    ensures output == Plain(c, mode, t0, 0, input, m) + out0[|input|..]
  {
    hide Plain;
    hide Tweak;
    hide Tweaked;
  }

  // The loop over the full blocks.
  method FullBlocks(c: Cipher, mode: Mode, tweak: array<bv8>, prevTweak: array<bv8>, input: seq<bv8>, output: array<bv8>,
                    ghost t0: Block, ghost out0: seq<bv8>) returns (p: nat)
    requires tweak.Length == prevTweak.Length == 16
    requires tweak != prevTweak && tweak != output && prevTweak != output
    requires 16 <= |input| <= output.Length == |out0|
    requires tweak[..] == t0 == Tweak(t0, 0) && output[..] == out0 && Plain(c, mode, t0, 0, input, 0) == []
    modifies tweak, prevTweak, output
    ensures p == |input| - |input| % 16 && Between(c, mode, tweak[..], prevTweak[..], input, output[..], p / 16, t0, out0)
  {
    hide *;
    var blocks, leftover := |input| / 16, |input| % 16;
    ghost var m := blocks;
    WholeBlocks(|input|, m, leftover);
    p := 0;
    while blocks > 0
      invariant 0 <= blocks <= m && p == 16 * (m - blocks)
      invariant blocks > 0 ==> tweak[..] == Tweak(t0, m - blocks) && output[..] == Plain(c, mode, t0, 0, input, m - blocks) + out0[p..]
      invariant blocks == 0 ==> Between(c, mode, tweak[..], prevTweak[..], input, output[..], m, t0, out0)
    {
      blocks := blocks - 1;
      FullBlock(c, mode, blocks, leftover, tweak, prevTweak, input, output, p, t0, m, out0);
      p := p + 16;
    }
  }

  // The body of that loop; the swapped tweaks are for the last block.
  method FullBlock(c: Cipher, mode: Mode, blocks: nat, leftover: nat, tweak: array<bv8>, prevTweak: array<bv8>, input: seq<bv8>, output: array<bv8>,
                   p: nat, ghost t0: Block, ghost m: nat, ghost out0: seq<bv8>)
    requires tweak.Length == prevTweak.Length == 16
    requires tweak != prevTweak && tweak != output && prevTweak != output
    requires |input| == 16 * m + leftover <= output.Length == |out0| && leftover < 16 && blocks < m && p == 16 * (m - 1 - blocks)
    requires tweak[..] == Tweak(t0, m - 1 - blocks) && output[..] == Plain(c, mode, t0, 0, input, m - 1 - blocks) + out0[p..]
    modifies tweak, prevTweak, output
    ensures blocks > 0 ==> tweak[..] == Tweak(t0, m - blocks) && output[..] == Plain(c, mode, t0, 0, input, m - blocks) + out0[p + 16..]
    ensures blocks == 0 ==> Between(c, mode, tweak[..], prevTweak[..], input, output[..], m, t0, out0)
  {
    hide *;
    Turn(c, mode, leftover > 0 && mode == Decrypt && blocks == 0, tweak, prevTweak, input, output, p, t0, m - 1 - blocks, out0);
    if blocks == 0 {
      BetweenIs(c, mode, tweak[..], prevTweak[..], input, output[..], m, leftover, t0, out0);
    }
  }

  lemma {:induction false} WholeBlocks(n: nat, m: nat, leftover: nat)
    requires m == n / 16 && leftover == n % 16
    ensures n == 16 * m + leftover && leftover < 16 && 16 * m / 16 == m
  {
  }

  lemma {:induction false} BetweenIs(c: Cipher, mode: Mode, tweak: seq<bv8>, prevTweak: seq<bv8>, input: seq<bv8>, output: seq<bv8>,
                                     m: nat, leftover: nat, t0: Block, out0: seq<bv8>)
    requires 0 < m && 16 * m + leftover == |input| <= |out0| && leftover < 16
    requires var p, swapped := 16 * m, leftover > 0 && mode == Decrypt;
             if swapped then
               && prevTweak == Tweak(t0, m - 1)
               && output == Plain(c, mode, t0, 0, input, m - 1) + Tweaked(c, mode, Tweak(t0, m), input[p - 16..p]) + out0[p..]
             else tweak == Tweak(t0, m) && output == Plain(c, mode, t0, 0, input, m) + out0[p..]
    ensures Between(c, mode, tweak, prevTweak, input, output, m, t0, out0)
  {
    hide Plain;
    hide Tweak;
    hide Tweaked;
  }

  // The state between the full blocks and the leftover bytes.
  ghost predicate Between(c: Cipher, mode: Mode, tweak: seq<bv8>, prevTweak: seq<bv8>, input: seq<bv8>, output: seq<bv8>,
                          m: nat, t0: Block, out0: seq<bv8>)
    requires 0 < m && 16 * m <= |input| <= |out0|
  {
    var p := 16 * m;
    if |input| % 16 > 0 && mode == Decrypt then
      && prevTweak == Tweak(t0, m - 1)
      && output == Plain(c, mode, t0, 0, input, m - 1) + Tweaked(c, mode, Tweak(t0, m), input[p - 16..p]) + out0[p..]
    else
      tweak == Tweak(t0, m) && output == Plain(c, mode, t0, 0, input, m) + out0[p..]
  }

  // The final round over the leftover bytes.
  method LeftoverBytes(c: Cipher, mode: Mode, tweak: array<bv8>, prevTweak: array<bv8>, input: seq<bv8>, output: array<bv8>,
                       p: nat, ghost t0: Block, ghost out0: seq<bv8>)
    requires tweak.Length == prevTweak.Length == 16 && tweak != output && prevTweak != output
    requires 16 <= p < |input| < p + 16 && p % 16 == 0 && |input| <= output.Length == |out0|
    requires Between(c, mode, tweak[..], prevTweak[..], input, output[..], p / 16, t0, out0)
    modifies output
    ensures output[..] == Crypt(c, mode, t0, 0, input) + out0[|input|..]
  {
    hide Plain;
    hide Tweak;
    hide Tweaked;
    hide Crypt;
    ghost var j := p / 16 - 1;
    var t := if mode == Decrypt then prevTweak else tweak;
    PlainNext(c, mode, t0, 0, input, j);
    ghost var z := Tweaked(c, mode, Tweak(t0, if mode == Encrypt then j else j + 1), input[16 * j..p]);
    Steal(c, mode, t, input[p..], output, p, Plain(c, mode, t0, 0, input, j), z, out0);
    StolenLast(c, mode, t0, input, j);
  }

  // One turn of the loop; swap says that this is the last full block of a
  // decryption with leftover bytes.
  method Turn(c: Cipher, mode: Mode, swap: bool, tweak: array<bv8>, prevTweak: array<bv8>, input: seq<bv8>, output: array<bv8>,
              p: nat, ghost t0: Block, ghost j: nat, ghost out0: seq<bv8>)
    requires tweak.Length == prevTweak.Length == 16
    requires tweak != prevTweak && tweak != output && prevTweak != output
    requires p == 16 * j && p + 16 <= |input| <= output.Length == |out0|
    requires tweak[..] == Tweak(t0, j) && output[..] == Plain(c, mode, t0, 0, input, j) + out0[p..]
    modifies tweak, prevTweak, output
    ensures !swap ==> tweak[..] == Tweak(t0, j + 1) && output[..] == Plain(c, mode, t0, 0, input, j + 1) + out0[p + 16..]
    ensures swap ==> prevTweak[..] == Tweak(t0, j)
    ensures swap ==> output[..] == Plain(c, mode, t0, 0, input, j) + Tweaked(c, mode, Tweak(t0, j + 1), input[p..p + 16]) + out0[p + 16..]
  {
    hide *;
    ghost var before := output[..];
    if swap {
      WriteBytes(prevTweak, 0, tweak[..]);
      NextTweak(tweak, t0, j);
    }
    var y := CodeBlock(c, mode, tweak, input[p..p + 16]);
    WriteBytes(output, p, y);
    Placed(before, Plain(c, mode, t0, 0, input, j), y, out0);
    PlainNext(c, mode, t0, 0, input, j);
    NextTweak(tweak, t0, if swap then j + 1 else j);
  }

  lemma {:induction false} Nothing(c: Cipher, mode: Mode, t0: Block, x: seq<bv8>)
    ensures Plain(c, mode, t0, 0, x, 0) == [] && Tweak(t0, 0) == t0
  {
  }

  lemma {:induction false} Placed(before: seq<bv8>, done: seq<bv8>, y: Block, out0: seq<bv8>)
    requires |done| + 16 <= |out0| && before == done + out0[|done|..]
    ensures before[..|done|] + y + before[|done| + 16..] == done + y + out0[|done| + 16..]
  {
  }

  method NextTweak(tweak: array<bv8>, ghost t0: Block, ghost k: nat)
    requires tweak.Length == 16 && tweak[..] == Tweak(t0, k)
    modifies tweak
    ensures tweak[..] == Tweak(t0, k + 1)
  {
    hide *;
    ghost var t: Block := tweak[..];
    Gf128MulXBle(tweak, tweak);
    TimesXIs(t);
    LittleEndianInjective(tweak[..], TimesX(t));
    TweakStep(t0, k);
  }

  lemma {:induction false} TweakStep(t0: Block, k: nat)
    ensures Tweak(t0, k + 1) == TimesX(Tweak(t0, k))
  {
    hide TimesX;
  }

  // The final round: the leftover bytes swap places with the head of the
  // previous output block.
  method Steal(c: Cipher, mode: Mode, t: array<bv8>, input: seq<bv8>, output: array<bv8>, p: nat,
               ghost done: seq<bv8>, ghost z: Block, ghost out0: seq<bv8>)
    requires t.Length == 16 && t != output && 0 < |input| < 16 && p + |input| <= output.Length == |out0|
    requires |done| + 16 == p && output[..] == done + z + out0[p..]
    modifies output
    ensures output[..] == done + (Tweaked(c, mode, t[..], input + z[|input|..]) + z[..|input|]) + out0[p + |input|..]
  {
    hide *;
    var leftover := |input|;
    ghost var after := out0[p + leftover..];
    Pieces(output[..], done, z, out0, leftover);
    var head, tail := output[p - 16..p - 16 + leftover], output[p - 16 + leftover..p];
    WriteBytes(output, p, head);
    var y := CodeBlock(c, mode, t, input + tail);
    WriteBytes(output, p - 16, y);
    Swapped(output[..], done, y, z, after, leftover);
  }

  lemma {:induction false} Pieces(o: seq<bv8>, done: seq<bv8>, z: Block, out0: seq<bv8>, r: nat)
    requires |out0| >= |done| + 16 + r && r < 16 && o == done + z + out0[|done| + 16..]
    ensures var p := |done| + 16;
            && o[p - 16..p - 16 + r] == z[..r] && o[p - 16 + r..p] == z[r..]
            && o[..p] + z[..r] + o[p + r..] == done + z + z[..r] + out0[p + r..]
  {
  }

  lemma {:induction false} Swapped(o: seq<bv8>, done: seq<bv8>, y: Block, z: Block, after: seq<bv8>, r: nat)
    requires r < 16
    requires var w := done + z + z[..r] + after;
             o == w[..|done|] + y + w[|done| + 16..]
    ensures o == done + (y + z[..r]) + after
  {
  }

  lemma {:induction false} StolenLast(c: Cipher, mode: Mode, t0: Block, x: seq<bv8>, j: nat)
    requires 16 * j + 16 < |x| < 16 * j + 32
    ensures var p := 16 * j + 16;
            var z := Tweaked(c, mode, Tweak(t0, if mode == Encrypt then j else j + 1), x[16 * j..p]);
            var second := Tweak(t0, if mode == Encrypt then j + 1 else j);
            Crypt(c, mode, t0, 0, x) == Plain(c, mode, t0, 0, x, j) + (Tweaked(c, mode, second, x[p..] + z[|x| - p..]) + z[..|x| - p])
  {
    hide Tweaked;
    hide Tweak;
    hide Plain;
    CryptSplit(c, mode, t0, 0, x, j);
    var w := x[16 * j..];
    assert w[..16] == x[16 * j..16 * j + 16] && w[16..] == x[16 * j + 16..];
  }

  lemma {:induction false} PlainAll(c: Cipher, mode: Mode, t0: Block, x: seq<bv8>, j: nat)
    requires |x| == 16 * j + 16
    ensures Crypt(c, mode, t0, 0, x) == Plain(c, mode, t0, 0, x, j + 1)
  {
    hide Tweaked;
    hide Tweak;
    hide Plain;
    CryptSplit(c, mode, t0, 0, x, j);
    PlainNext(c, mode, t0, 0, x, j);
    assert x[16 * j..16 * j + 16] == x[16 * j..];
  }
}
