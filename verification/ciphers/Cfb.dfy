// Cipher feedback with 128-bit segments: mbedtls_aes_crypt_cfb128 of
// misc/mbedtls/library/aes.c; section 6.3 of NIST SP 800-38A.
module Cfb {
  import opened Words
  import opened Blocks

  datatype Mode = Encrypt | Decrypt

  // What is carried between calls: the offset and the feedback block, whose
  // first n bytes are ciphertext and whose other bytes are still key stream.
  datatype State = State(n: nat, iv: Block) {
    predicate Valid() { n < 16 }
  }

  function Fresh(c: Cipher, s: State): Block { if s.n == 0 then c.enc(s.iv) else s.iv }

  // The key stream byte for the next position.
  function Mask(c: Cipher, s: State): bv8
    requires s.Valid()
  {
    Fresh(c, s)[s.n]
  }

  // The state after ciphertext byte b.
  function Absorb(c: Cipher, s: State, b: bv8): (t: State)
    requires s.Valid()
    ensures t.Valid()
  {
    State((s.n + 1) % 16, Fresh(c, s)[s.n := b])
  }

  function Encrypted(c: Cipher, s: State, x: seq<bv8>): (y: seq<bv8>)
    requires s.Valid()
    ensures |y| == |x|
    decreases |x|
  {
    if x == [] then [] else
      var b := Xor8(x[0], Mask(c, s));
      [b] + Encrypted(c, Absorb(c, s, b), x[1..])
  }

  function Decrypted(c: Cipher, s: State, y: seq<bv8>): (x: seq<bv8>)
    requires s.Valid()
    ensures |x| == |y|
    decreases |y|
  {
    if y == [] then [] else [Xor8(y[0], Mask(c, s))] + Decrypted(c, Absorb(c, s, y[0]), y[1..])
  }

  function Crypt(c: Cipher, mode: Mode, s: State, x: seq<bv8>): (y: seq<bv8>)
    requires s.Valid()
    ensures |y| == |x|
  {
    if mode == Encrypt then Encrypted(c, s, x) else Decrypted(c, s, x)
  }

  // The state after the bytes x: both directions feed back ciphertext.
  function After(c: Cipher, mode: Mode, s: State, x: seq<bv8>): (t: State)
    requires s.Valid()
    ensures t.Valid()
    decreases |x|
  {
    if x == [] then s else
      After(c, mode, Absorb(c, s, if mode == Encrypt then Xor8(x[0], Mask(c, s)) else x[0]), x[1..])
  }

  // Decryption from the same state returns the plaintext and ends in the same
  // state.
  lemma {:induction false} DecryptEncrypt(c: Cipher, s: State, x: seq<bv8>)
    requires s.Valid()
    ensures Decrypted(c, s, Encrypted(c, s, x)) == x
    ensures After(c, Decrypt, s, Encrypted(c, s, x)) == After(c, Encrypt, s, x)
    decreases |x|
  {
    hide Xor8;
    hide Mask;
    hide Absorb;
    if x != [] {
      var b := Xor8(x[0], Mask(c, s));
      var y := Encrypted(c, s, x);
      assert y[0] == b && y[1..] == Encrypted(c, Absorb(c, s, b), x[1..]);
      DecryptEncrypt(c, Absorb(c, s, b), x[1..]);
      Xor8Twice(x[0], Mask(c, s));
    }
  }

  // Calls on x and then on y with the carried state are one call on x + y.
  lemma {:induction false} Joined(c: Cipher, mode: Mode, s: State, x: seq<bv8>, y: seq<bv8>)
    requires s.Valid()
    ensures Crypt(c, mode, s, x + y) == Crypt(c, mode, s, x) + Crypt(c, mode, After(c, mode, s, x), y)
    ensures After(c, mode, s, x + y) == After(c, mode, After(c, mode, s, x), y)
    decreases |x|
  {
    hide Xor8;
    hide Mask;
    hide Absorb;
    if x == [] {
      assert x + y == y;
    } else {
      assert (x + y)[0] == x[0] && (x + y)[1..] == x[1..] + y;
      Joined(c, mode, Absorb(c, s, if mode == Encrypt then Xor8(x[0], Mask(c, s)) else x[0]), x[1..], y);
    }
  }

  // From a block boundary, a whole block is XORed with the encrypted feedback
  // block, and the resulting ciphertext is the next one.
  lemma {:induction false} WholeBlock(c: Cipher, iv: Block, x: Block)
    ensures var y := XorBytes(x, c.enc(iv));
            Encrypted(c, State(0, iv), x) == y && After(c, Encrypt, State(0, iv), x) == State(0, y)
  {
    hide Xor8;
    hide Crypt;
    hide Encrypted;
    hide After;
    var y, s := XorBytes(x, c.enc(iv)), State(0, iv);
    EncryptedPrefix(c, iv, x, 16);
    assert x[..16] == x && y[..16] == y;
    assert y[..16] + c.enc(iv)[16..] == y;
  }

  lemma {:induction false} EncryptedPrefix(c: Cipher, iv: Block, x: Block, k: nat)
    requires k <= 16
    ensures var y, s := XorBytes(x, c.enc(iv)), State(0, iv);
            && Encrypted(c, s, x[..k]) == y[..k]
            && After(c, Encrypt, s, x[..k]) == State(k % 16, if k == 0 then iv else y[..k] + c.enc(iv)[k..])
  {
    hide Xor8;
    hide XorBytes;
    hide Encrypted;
    hide After;
    hide Mask;
    hide Absorb;
    var e, s := c.enc(iv), State(0, iv);
    var y := XorBytes(x, e);
    if k == 0 {
      Nothing(c, s);
      assert x[..0] == [] && y[..0] == [];
    } else {
      EncryptedPrefix(c, iv, x, k - 1);
      var t := After(c, Encrypt, s, x[..k - 1]);
      assert x[..k] == x[..k - 1] + [x[k - 1]];
      Joined(c, Encrypt, s, x[..k - 1], [x[k - 1]]);
      SingleByte(c, Encrypt, t, x[k - 1]);
      PrefixStep(c, iv, x, k, t);
      assert y[..k] == y[..k - 1] + [y[k - 1]];
    }
  }

  lemma {:induction false} PrefixStep(c: Cipher, iv: Block, x: Block, k: nat, t: State)
    requires 0 < k <= 16
    requires var e := c.enc(iv);
             t == State(k - 1, if k == 1 then iv else XorBytes(x, e)[..k - 1] + e[k - 1..])
    ensures var e, y := c.enc(iv), XorBytes(x, c.enc(iv));
            && Xor8(x[k - 1], Mask(c, t)) == y[k - 1]
            && Absorb(c, t, y[k - 1]) == State(k % 16, y[..k] + e[k..])
  {
    hide Xor8;
    hide XorBytes;
    hide Mask;
    hide Absorb;
    hide Fresh;
    var e, y := c.enc(iv), XorBytes(x, c.enc(iv));
    var f := y[..k - 1] + e[k - 1..];
    FreshIs(c, t, iv, y, k);
    AbsorbIs(c, t, f, y[k - 1]);
    Overwrite(x, e, k);
  }

  lemma {:induction false} FreshIs(c: Cipher, t: State, iv: Block, y: Block, k: nat)
    requires 0 < k <= 16
    requires t == State(k - 1, if k == 1 then iv else y[..k - 1] + c.enc(iv)[k - 1..])
    ensures Fresh(c, t) == y[..k - 1] + c.enc(iv)[k - 1..]
  {
    if k == 1 {
      var e := c.enc(iv);
      assert y[..0] + e[0..] == e;
    }
  }

  lemma {:induction false} AbsorbIs(c: Cipher, t: State, f: Block, b: bv8)
    requires t.Valid() && Fresh(c, t) == f
    ensures Mask(c, t) == f[t.n] && Absorb(c, t, b) == State((t.n + 1) % 16, f[t.n := b])
  {
  }

  lemma {:induction false} Nothing(c: Cipher, s: State)
    requires s.Valid()
    ensures Encrypted(c, s, []) == [] && After(c, Encrypt, s, []) == s
  {
  }

  lemma {:induction false} Overwrite(x: Block, e: Block, k: nat)
    requires 0 < k <= 16
    ensures var y := XorBytes(x, e);
            var f := y[..k - 1] + e[k - 1..];
            && f[k - 1] == e[k - 1] && y[k - 1] == Xor8(x[k - 1], e[k - 1])
            && f[k - 1 := y[k - 1]] == y[..k] + e[k..]
            && y[..k - 1] + [y[k - 1]] == y[..k]
  {
    hide Xor8;
  }

  lemma {:induction false} SingleByte(c: Cipher, mode: Mode, s: State, b: bv8)
    requires s.Valid()
    ensures Crypt(c, mode, s, [b]) == [Xor8(b, Mask(c, s))]
    ensures After(c, mode, s, [b]) == Absorb(c, s, if mode == Encrypt then Xor8(b, Mask(c, s)) else b)
  {
    hide Xor8;
    hide Mask;
    hide Absorb;
    assert [b][1..] == [];
  }

  // mbedtls_aes_crypt_cfb128; -0x21 is the bad-input error.
  method AesCryptCfb128(c: Cipher, mode: Mode, ivOff: nat, iv: array<bv8>, input: seq<bv8>, output: array<bv8>)
    returns (ret: int, ivOff': nat)
    requires iv.Length == 16 && iv != output && |input| <= output.Length
    modifies iv, output
    ensures ret == if ivOff > 15 then -0x21 else 0
    ensures ivOff > 15 ==> ivOff' == ivOff && iv[..] == old(iv[..]) && output[..] == old(output[..])
    ensures ivOff <= 15 ==> var s := State(ivOff, old(iv[..]));
              && output[..] == Crypt(c, mode, s, input) + old(output[|input|..])
              && State(ivOff', iv[..]) == After(c, mode, s, input)
  {
    var n := ivOff;
    if n > 15 {
      return -0x21, ivOff;
    }
    ghost var s, out0 := State(n, iv[..]), output[..];
    var k := 0;
    assert input[..0] == [];
    while k < |input|
      invariant 0 <= k <= |input| && 0 <= n < 16
      invariant State(n, iv[..]) == After(c, mode, s, input[..k])
      invariant output[..] == Crypt(c, mode, s, input[..k]) + out0[k..]
    {
      hide Crypt;
      hide After;
      hide Mask;
      hide Absorb;
      hide Xor8;
      ghost var before, done := output[..], Crypt(c, mode, s, input[..k]);
      n := NextByte(c, mode, n, iv, input[k], output, k);
      Extend(c, mode, s, input, k);
      PutNext(before, done, out0, k, output[k]);
      k := k + 1;
    }
    assert input[..k] == input;
    return 0, n;
  }

  lemma {:induction false} PutNext(t: seq<bv8>, p: seq<bv8>, out0: seq<bv8>, k: nat, b: bv8)
    requires |p| == k < |out0| && t == p + out0[k..]
    ensures t[k := b] == p + [b] + out0[k + 1..]
  {
  }

  lemma {:induction false} Extend(c: Cipher, mode: Mode, s: State, input: seq<bv8>, k: nat)
    requires s.Valid() && k < |input|
    ensures var t := After(c, mode, s, input[..k]);
            && t.Valid()
            && Crypt(c, mode, s, input[..k + 1]) == Crypt(c, mode, s, input[..k]) + [Xor8(input[k], Mask(c, t))]
            && After(c, mode, s, input[..k + 1]) == Absorb(c, t, if mode == Encrypt then Xor8(input[k], Mask(c, t)) else input[k])
  {
    hide Xor8;
    hide Mask;
    hide Absorb;
    hide Crypt;
    hide After;
    var t := After(c, mode, s, input[..k]);
    assert input[..k + 1] == input[..k] + [input[k]];
    Joined(c, mode, s, input[..k], [input[k]]);
    SingleByte(c, mode, t, input[k]);
  }

  // The loop body of either direction.
  method NextByte(c: Cipher, mode: Mode, n: nat, iv: array<bv8>, b: bv8, output: array<bv8>, k: nat) returns (n': nat)
    requires iv.Length == 16 && iv != output && n < 16 && k < output.Length
    modifies iv, output
    ensures var s := State(n, old(iv[..]));
            && output[..] == old(output[..])[k := Xor8(b, Mask(c, s))]
            && State(n', iv[..]) == Absorb(c, s, if mode == Encrypt then Xor8(b, Mask(c, s)) else b)
  {
    hide Xor8;
    if n == 0 {
      var e := c.enc(iv[..]);
      WriteBytes(iv, 0, e);
    }
    ghost var f := iv[..];
    assert f == Fresh(c, State(n, old(iv[..])));
    if mode == Decrypt {
      output[k] := Xor8(b, iv[n]);
      iv[n] := b;
    } else {
      iv[n] := Xor8(b, iv[n]);
      output[k] := iv[n];
    }
    n' := (n + 1) % 16;
  }
}
