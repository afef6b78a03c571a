// Cipher block chaining: mbedtls_aes_crypt_cbc of misc/mbedtls/library/aes.c;
// section 6.2 of NIST SP 800-38A.
module Cbc {
  import opened Blocks

  datatype Mode = Encrypt | Decrypt

  function Encrypted(c: Cipher, iv: Block, x: seq<bv8>): (y: seq<bv8>)
    requires |x| % 16 == 0
    ensures |y| == |x|
    decreases |x|
  {
    if x == [] then [] else
      var b := c.enc(XorBytes(x[..16], iv));
      b + Encrypted(c, b, x[16..])
  }

  function Decrypted(c: Cipher, iv: Block, y: seq<bv8>): (x: seq<bv8>)
    requires |y| % 16 == 0
    ensures |x| == |y|
    decreases |y|
  {
    if y == [] then [] else XorBytes(c.dec(y[..16]), iv) + Decrypted(c, y[..16], y[16..])
  }

  function Crypt(c: Cipher, mode: Mode, iv: Block, x: seq<bv8>): (y: seq<bv8>)
    requires |x| % 16 == 0
    ensures |y| == |x|
  {
    if mode == Encrypt then Encrypted(c, iv, x) else Decrypted(c, iv, x)
  }

  // The chaining value after ciphertext y.
  function Chained(iv: Block, y: seq<bv8>): Block
    requires |y| % 16 == 0
  {
    if y == [] then iv else y[|y| - 16..]
  }

  // The chaining value after a call.
  function Next(c: Cipher, mode: Mode, iv: Block, x: seq<bv8>): Block
    requires |x| % 16 == 0
  {
    Chained(iv, if mode == Encrypt then Encrypted(c, iv, x) else x)
  }

  // Decryption with the same initial vector returns the plaintext.
  lemma {:induction false} DecryptEncrypt(c: Cipher, iv: Block, x: seq<bv8>)
    requires |x| % 16 == 0 && c.Inverse()
    ensures Decrypted(c, iv, Encrypted(c, iv, x)) == x
    decreases |x|
  {
    hide XorBytes;
    if x != [] {
      var y := Encrypted(c, iv, x);
      var b := c.enc(XorBytes(x[..16], iv));
      assert y[..16] == b && y[16..] == Encrypted(c, b, x[16..]);
      DecryptEncrypt(c, b, x[16..]);
      XorBytesTwice(x[..16], iv);
      assert x == x[..16] + x[16..];
    }
  }

  // Calls on x and then on y with the carried value are one call on x + y.
  lemma {:induction false} Joined(c: Cipher, mode: Mode, iv: Block, x: seq<bv8>, y: seq<bv8>)
    requires |x| % 16 == 0 && |y| % 16 == 0
    ensures |x + y| % 16 == 0
    ensures Crypt(c, mode, iv, x + y) == Crypt(c, mode, iv, x) + Crypt(c, mode, Next(c, mode, iv, x), y)
    ensures Next(c, mode, iv, x + y) == Next(c, mode, Next(c, mode, iv, x), y)
    decreases |x|
  {
    hide *;
    if x == [] {
      assert x + y == y;
      NoBlock(c, mode, iv);
    } else {
      var b: Block := if mode == Encrypt then c.enc(XorBytes(x[..16], iv)) else x[..16];
      var h := if mode == Encrypt then b else XorBytes(c.dec(x[..16]), iv);
      var x' := x[16..];
      assert (x + y)[..16] == x[..16] && (x + y)[16..] == x' + y;
      Joined(c, mode, b, x', y);
      FirstBlock(c, mode, iv, x);
      FirstBlock(c, mode, iv, x + y);
      var p, q := Crypt(c, mode, b, x'), Crypt(c, mode, Next(c, mode, b, x'), y);
      assert h + (p + q) == (h + p) + q;
    }
  }

  lemma {:induction false} NoBlock(c: Cipher, mode: Mode, iv: Block)
    ensures Crypt(c, mode, iv, []) == [] && Next(c, mode, iv, []) == iv
  {
  }

  lemma {:induction false} FirstBlock(c: Cipher, mode: Mode, iv: Block, x: seq<bv8>)
    requires |x| % 16 == 0 && x != []
    ensures var b: Block := if mode == Encrypt then c.enc(XorBytes(x[..16], iv)) else x[..16];
            && Crypt(c, mode, iv, x) == (if mode == Encrypt then b else XorBytes(c.dec(x[..16]), iv)) + Crypt(c, mode, b, x[16..])
            && Next(c, mode, iv, x) == Next(c, mode, b, x[16..])
  {
    hide XorBytes;
    var b: Block := if mode == Encrypt then c.enc(XorBytes(x[..16], iv)) else x[..16];
    var rest := if mode == Encrypt then Encrypted(c, b, x[16..]) else x[16..];
    if rest == [] {
      assert x[16..] == [];
    } else {
      assert (b + rest)[|b + rest| - 16..] == rest[|rest| - 16..];
    }
    if mode == Decrypt { assert x == b + rest; }
  }

  // mbedtls_aes_crypt_cbc; -0x22 is the error for a length that is not a
  // multiple of 16. The input is read before the output is written.
  method AesCryptCbc(c: Cipher, mode: Mode, iv: array<bv8>, input: seq<bv8>, output: array<bv8>) returns (ret: int)
    requires iv.Length == 16 && iv != output && |input| <= output.Length
    modifies iv, output
    ensures ret == if |input| % 16 != 0 then -0x22 else 0
    ensures |input| % 16 != 0 ==> iv[..] == old(iv[..]) && output[..] == old(output[..])
    ensures |input| % 16 == 0 ==> iv[..] == Next(c, mode, old(iv[..]), input)
    ensures |input| % 16 == 0 ==> output[..] == Crypt(c, mode, old(iv[..]), input) + old(output[|input|..])
  {
    if |input| % 16 != 0 {
      return -0x22;
    }
    AllBlocks(c, mode, iv, input, output);
    return 0;
  }

  // Either loop.
  method AllBlocks(c: Cipher, mode: Mode, iv: array<bv8>, input: seq<bv8>, output: array<bv8>)
    requires iv.Length == 16 && iv != output && |input| <= output.Length && |input| % 16 == 0
    modifies iv, output
    ensures iv[..] == Next(c, mode, old(iv[..]), input)
    ensures output[..] == Crypt(c, mode, old(iv[..]), input) + old(output[|input|..])
  {
    hide *;
    ghost var iv0, out0 := iv[..], output[..];
    var p := 0;
    assert input[..0] == [];
    NoBlock(c, mode, iv0);
    while p < |input|
      invariant 0 <= p <= |input| && p % 16 == 0
      invariant iv[..] == Next(c, mode, iv0, input[..p])
      invariant output[..] == Crypt(c, mode, iv0, input[..p]) + out0[p..]
    {
      ghost var done, before := Crypt(c, mode, iv0, input[..p]), output[..];
      var x := input[p..p + 16];
      ghost var y := Crypt(c, mode, iv[..], x);
      NextBlock(c, mode, iv, x, output, p);
      Joined(c, mode, iv0, input[..p], x);
      assert input[..p + 16] == input[..p] + x;
      Placed(before, done, y, out0);
      p := p + 16;
    }
    assert input[..p] == input;
  }

  lemma {:induction false} Placed(before: seq<bv8>, done: seq<bv8>, y: seq<bv8>, out0: seq<bv8>)
    requires |y| == 16 && |done| + 16 <= |out0| && before == done + out0[|done|..]
    ensures before[..|done|] + y + before[|done| + 16..] == done + y + out0[|done| + 16..]
  {
  }

  // One turn of either loop.
  method NextBlock(c: Cipher, mode: Mode, iv: array<bv8>, x: seq<bv8>, output: array<bv8>, p: nat)
    requires iv.Length == 16 && iv != output && |x| == 16 && p + 16 <= output.Length
    modifies iv, output
    ensures iv[..] == Next(c, mode, old(iv[..]), x)
    ensures output[..] == old(output[..p]) + Crypt(c, mode, old(iv[..]), x) + old(output[p + 16..])
  {
    hide XorBytes;
    FirstBlock(c, mode, iv[..], x);
    assert x[..16] == x && x[16..] == [];
    if mode == Decrypt {
      var temp := x;
      var b := c.dec(x);
      WriteBytes(output, p, XorBytes(b, iv[..]));
      WriteBytes(iv, 0, temp);
    } else {
      var b := c.enc(XorBytes(x, iv[..]));
      WriteBytes(output, p, b);
      WriteBytes(iv, 0, b);
    }
  }
}
