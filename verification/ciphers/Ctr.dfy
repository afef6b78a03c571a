// Counter mode: mbedtls_aes_crypt_ctr of misc/mbedtls/library/aes.c; section
// 6.5 of NIST SP 800-38A.
module Ctr {
  import Bytes
  import opened Words
  import opened Blocks

  // What is carried from one call to the next: the offset in the current
  // stream block, the next counter and the stream block.
  datatype State = State(n: nat, counter: Block, stream: Block)

  // The counter plus one, with carries from the last byte up.
  function Increment(s: seq<bv8>): (t: seq<bv8>)
    ensures |t| == |s|
  {
    if s == [] then []
    else if s[|s| - 1] == 255 then Increment(s[..|s| - 1]) + [0]
    else s[..|s| - 1] + [s[|s| - 1] + 1]
  }

  function Step(c: Cipher, s: State): State {
    var r := if s.n == 0 then s.(counter := Increment(s.counter), stream := c.enc(s.counter)) else s;
    r.(n := (s.n + 1) % 16)
  }

  function After(c: Cipher, s: State, len: nat): State {
    if len == 0 then s else Step(c, After(c, s, len - 1))
  }

  // Byte k of the key stream from a state.
  function Key(c: Cipher, s: State, k: nat): bv8
    requires s.n < 16
  {
    AfterOffset(c, s, k);
    Step(c, After(c, s, k)).stream[After(c, s, k).n]
  }

  function Crypt(c: Cipher, s: State, input: seq<bv8>): (output: seq<bv8>)
    requires s.n < 16
    ensures |output| == |input|
  {
    seq(|input|, k requires 0 <= k < |input| => Xor8(input[k], Key(c, s, k)))
  }

  lemma {:induction false} AfterOffset(c: Cipher, s: State, len: nat)
    requires s.n < 16
    ensures After(c, s, len).n == (s.n + len) % 16 < 16
  {
    if len > 0 { AfterOffset(c, s, len - 1); }
  }

  // The loop over the counter bytes.
  method IncrementCounter(counter: array<bv8>)
    requires counter.Length == 16
    modifies counter
    ensures counter[..] == Increment(old(counter[..]))
  {
    hide Increment;
    ghost var s := counter[..];
    var i := 16;
    while i > 0
      invariant 0 <= i <= 16
      invariant forall k :: 0 <= k < i ==> counter[k] == s[k]
      invariant forall k :: i <= k < 16 ==> s[k] == 255 && counter[k] == 0
    {
      counter[i - 1] := counter[i - 1] + 1;
      if counter[i - 1] != 0 {
        Carries(s, i);
        assert counter[..] == Increment(s);
        return;
      }
      i := i - 1;
    }
    Carries(s, 0);
    assert counter[..] == Increment(s);
  }

  // Bytes that are all ones from i on turn into zeros; the byte before them
  // takes the carry.
  lemma {:induction false} Carries(s: seq<bv8>, i: nat)
    requires i <= |s| && forall k :: i <= k < |s| ==> s[k] == 255
    ensures var t := Increment(s);
            && (forall k :: i <= k < |s| ==> t[k] == 0)
            && (i > 0 && s[i - 1] != 255 ==> t[i - 1] == s[i - 1] + 1 && forall k :: 0 <= k < i - 1 ==> t[k] == s[k])
  {
    if i < |s| {
      var p := s[..|s| - 1];
      Carries(p, i);
      assert Increment(s) == Increment(p) + [0];
    }
  }

  // mbedtls_aes_crypt_ctr; -0x21 is MBEDTLS_ERR_AES_BAD_INPUT_DATA.
  method AesCryptCtr(c: Cipher, ncOff: nat, nonceCounter: array<bv8>, streamBlock: array<bv8>, input: seq<bv8>, output: array<bv8>)
    returns (ret: int, ncOff': nat)
    requires nonceCounter.Length == streamBlock.Length == 16 && |input| <= output.Length
    requires nonceCounter != streamBlock && nonceCounter != output && streamBlock != output
    modifies nonceCounter, streamBlock, output
    ensures ret == if ncOff > 15 then -0x21 else 0
    ensures ncOff > 15 ==> nonceCounter[..] == old(nonceCounter[..]) && streamBlock[..] == old(streamBlock[..]) && output[..] == old(output[..])
    ensures ncOff <= 15 ==> var s := State(ncOff, old(nonceCounter[..]), old(streamBlock[..]));
              && output[..|input|] == Crypt(c, s, input) && output[|input|..] == old(output[|input|..])
              && State(ncOff', nonceCounter[..], streamBlock[..]) == After(c, s, |input|)
  {
    var n := ncOff;
    if n > 0x0F {
      return -0x21, ncOff;
    }
    ghost var s := State(ncOff, nonceCounter[..], streamBlock[..]);
    var k := 0;
    while k < |input|
      invariant 0 <= k <= |input| && 0 <= n < 16
      invariant State(n, nonceCounter[..], streamBlock[..]) == After(c, s, k)
      invariant forall j :: 0 <= j < k ==> output[j] == Xor8(input[j], Key(c, s, j))
      invariant output[|input|..] == old(output[|input|..])
    {
      hide Xor8;
      if n == 0 {
        NextBlock(c, nonceCounter, streamBlock);
      }
      output[k] := Xor8(input[k], streamBlock[n]);
      n := (n + 1) % 16;
      k := k + 1;
    }
    return 0, n;
  }

  method NextBlock(c: Cipher, nonceCounter: array<bv8>, streamBlock: array<bv8>)
    requires nonceCounter.Length == streamBlock.Length == 16 && nonceCounter != streamBlock
    modifies nonceCounter, streamBlock
    ensures streamBlock[..] == c.enc(old(nonceCounter[..]))
    ensures nonceCounter[..] == Increment(old(nonceCounter[..]))
  {
    var e := c.enc(nonceCounter[..]);
    WriteBytes(streamBlock, 0, e);
    IncrementCounter(nonceCounter);
  }

  // ---- properties

  lemma {:induction false} AfterAfter(c: Cipher, s: State, a: nat, b: nat)
    ensures After(c, s, a + b) == After(c, After(c, s, a), b)
  {
    if b > 0 { AfterAfter(c, s, a, b - 1); }
  }

  // Two calls that carry the state over are one call on the joined input.
  lemma {:induction false} CryptJoined(c: Cipher, s: State, x: seq<bv8>, y: seq<bv8>)
    requires s.n < 16
    ensures After(c, s, |x|).n < 16
    ensures Crypt(c, s, x + y) == Crypt(c, s, x) + Crypt(c, After(c, s, |x|), y)
    ensures After(c, s, |x + y|) == After(c, After(c, s, |x|), |y|)
  {
    hide Xor8;
    AfterOffset(c, s, |x|);
    AfterAfter(c, s, |x|, |y|);
    var t := After(c, s, |x|);
    forall k | 0 <= k < |x + y| ensures Crypt(c, s, x + y)[k] == (Crypt(c, s, x) + Crypt(c, t, y))[k] {
      if k >= |x| { AfterAfter(c, s, |x|, k - |x|); }
    }
  }

  // Decryption is the same call from the same state.
  lemma {:induction false} CryptTwice(c: Cipher, s: State, x: seq<bv8>)
    requires s.n < 16
    ensures Crypt(c, s, Crypt(c, s, x)) == x
  {
    hide Xor8;
    forall k | 0 <= k < |x| ensures Crypt(c, s, Crypt(c, s, x))[k] == x[k] {
      Xor8Twice(x[k], Key(c, s, k));
    }
  }

  lemma {:induction false} IncrementIs(s: seq<bv8>)
    ensures BigEndian(Increment(s)) == if BigEndian(s) + 1 == Bytes.Radix(|s|) then 0 else BigEndian(s) + 1
  {
    BigEndianBound(s);
    if s != [] {
      var p, b, t := s[..|s| - 1], s[|s| - 1], Increment(s);
      IncrementIs(p);
      BigEndianBound(p);
      NextByte(b);
      if b == 255 {
        assert t[..|t| - 1] == Increment(p) && t[|t| - 1] == 0;
      } else {
        assert t[..|t| - 1] == p && t[|t| - 1] == b + 1;
      }
    }
  }

  lemma {:induction false} NextByte(b: bv8)
    ensures b == 255 ==> b as nat == 255
    ensures b != 255 ==> b as nat < 255 && (b + 1) as nat == b as nat + 1
  {
  }

  // j increments of a counter add j modulo 2^128.
  function Advance(s: Block, j: nat): Block {
    if j == 0 then s else Increment(Advance(s, j - 1))
  }

  lemma {:induction false} AdvanceIs(s: Block, j: nat)
    ensures BigEndian(Advance(s, j)) == (BigEndian(s) + j) % Bytes.Radix(16)
  {
    hide Bytes.Radix;
    hide BigEndian;
    hide Increment;
    BigEndianBound(s);
    if j > 0 {
      AdvanceIs(s, j - 1);
      IncrementIs(Advance(s, j - 1));
      Bytes.ModPlus(BigEndian(s) + j - 1, 1, Bytes.Radix(16));
    } else {
      SmallModulo(BigEndian(s), Bytes.Radix(16));
    }
  }

  lemma {:induction false} SmallModulo(a: nat, m: nat)
    requires a < m
    ensures a % m == a
  {
  }

  lemma {:induction false} NextAdvance(s: Block, j: nat)
    ensures Advance(s, j + 1) == Increment(Advance(s, j))
  {
    hide Increment;
  }

  lemma {:induction false} FirstAdvance(s: Block)
    ensures Advance(s, 0) == s
  {
    hide Increment;
  }

  lemma {:induction false} Sixteenths(k: nat)
    requires k > 0
    ensures (k - 1) % 16 == 0 ==> (k + 15) / 16 == (k + 14) / 16 + 1 && (k - 1) / 16 == (k + 14) / 16
    ensures (k - 1) % 16 != 0 ==> k > 1 && (k + 15) / 16 == (k + 14) / 16 && (k - 1) / 16 == (k - 2) / 16
    ensures k % 16 == ((k - 1) % 16 + 1) % 16
  {
  }

  lemma {:induction false} StreamAt(c: Cipher, s: State, k: nat)
    requires s.n == 0
    ensures After(c, s, k).n == k % 16
    ensures After(c, s, k).counter == Advance(s.counter, (k + 15) / 16)
    ensures k > 0 ==> After(c, s, k).stream == c.enc(Advance(s.counter, (k - 1) / 16))
  {
    hide Increment;
    hide Advance;
    if k > 0 {
      StreamAt(c, s, k - 1);
      Sixteenths(k);
      if (k - 1) % 16 == 0 { NextAdvance(s.counter, (k + 14) / 16); }
    } else {
      FirstAdvance(s.counter);
    }
  }

  // From offset 0, byte k of the key stream is byte k mod 16 of the encryption
  // of the block that denotes nonce + k/16 modulo 2^128.
  lemma {:induction false} KeyStream(c: Cipher, s: State, k: nat, b: Block)
    requires s.n == 0
    requires BigEndian(b) == (BigEndian(s.counter) + k / 16) % Bytes.Radix(16)
    ensures Key(c, s, k) == c.enc(b)[k % 16]
  {
    hide Bytes.Radix;
    hide BigEndian;
    hide Increment;
    StreamAt(c, s, k);
    StreamAt(c, s, k + 1);
    AdvanceIs(s.counter, k / 16);
    BigEndianInjective(b, Advance(s.counter, k / 16));
  }

  // Counter mode, section 6.5 of NIST SP 800-38A: from offset 0 output byte k is
  // input byte k masked with that byte of the key stream.
  lemma {:induction false} CryptByte(c: Cipher, s: State, x: seq<bv8>, k: nat, b: Block)
    requires s.n == 0 && k < |x|
    requires BigEndian(b) == (BigEndian(s.counter) + k / 16) % Bytes.Radix(16)
    ensures Crypt(c, s, x)[k] == x[k] ^ c.enc(b)[k % 16]
  {
    hide Key;
    hide BigEndian;
    hide Bytes.Radix;
    KeyStream(c, s, k, b);
    Masked(x[k], c.enc(b)[k % 16]);
  }

  lemma {:induction false} Masked(a: bv8, b: bv8)
    ensures Xor8(a, b) == a ^ b
  {
  }

  // From another offset the rest of the stream block comes first.
  lemma {:induction false} CryptRest(c: Cipher, s: State, x: seq<bv8>, k: nat)
    requires 0 < s.n < 16 && k < |x| && s.n + k < 16
    ensures Crypt(c, s, x)[k] == x[k] ^ s.stream[s.n + k]
  {
    hide Key;
    RestAt(c, s, k);
    Masked(x[k], s.stream[s.n + k]);
  }

  lemma {:induction false} RestAt(c: Cipher, s: State, k: nat)
    requires 0 < s.n && s.n + k < 16
    ensures After(c, s, k) == s.(n := s.n + k)
    ensures Key(c, s, k) == s.stream[s.n + k]
  {
    if k > 0 { RestAt(c, s, k - 1); }
  }
}
