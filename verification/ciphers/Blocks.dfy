// Blocks of 16 bytes and block ciphers on them, for the modes of operation of
// misc/mbedtls/library/aes.c.
module Blocks {
  import Bytes
  import opened Words

  type Block = b: seq<bv8> | |b| == 16 witness [0, 0, 0, 0, 0, 0, 0, 0, 0, 0, 0, 0, 0, 0, 0, 0]

  // A keyed block cipher: encryption and decryption of one block.
  datatype Cipher = Cipher(enc: Block -> Block, dec: Block -> Block) {
    ghost predicate Inverse() {
      forall b: Block {:trigger enc(b)} :: dec(enc(b)) == b
    }
  }

  lemma {:induction false} Xor8Twice(a: bv8, b: bv8)
    ensures Xor8(Xor8(a, b), b) == a
  {
    hide *;
    Xor8Is(a, b);
    SumTwice(a, b);
  }

  lemma {:induction false} SumTwice(a: bv8, b: bv8)
    ensures Xor8(a ^ b, b) == a
  {
  }

  function XorBytes(a: seq<bv8>, b: seq<bv8>): (r: seq<bv8>)
    requires |a| == |b|
    ensures |r| == |a|
  {
    seq(|a|, i requires 0 <= i < |a| => Xor8(a[i], b[i]))
  }

  lemma {:induction false} XorBytesTwice(a: seq<bv8>, b: seq<bv8>)
    requires |a| == |b|
    ensures XorBytes(XorBytes(a, b), b) == a
  {
    hide Xor8;
    forall i | 0 <= i < |a| ensures XorBytes(XorBytes(a, b), b)[i] == a[i] {
      Xor8Twice(a[i], b[i]);
    }
  }

  // memcpy(a + k, s, |s|)
  lemma {:induction false} XorBytesAt(a: seq<bv8>, b: seq<bv8>, i: nat)
    requires |a| == |b| && i < |a|
    ensures XorBytes(a, b)[i] == a[i] ^ b[i]
  {
  }

  method WriteBytes(a: array<bv8>, k: nat, s: seq<bv8>)
    requires k + |s| <= a.Length
    modifies a
    ensures a[..] == old(a[..k]) + s + old(a[k + |s|..])
  {
    ghost var t := a[..];
    var i := 0;
    while i < |s|
      invariant 0 <= i <= |s|
      invariant forall j :: 0 <= j < a.Length ==> a[j] == if k <= j < k + i then s[j - k] else t[j]
    {
      a[k + i] := s[i];
      i := i + 1;
    }
  }

  // The number a block denotes, most significant byte first.
  function BigEndian(s: seq<bv8>): nat {
    if s == [] then 0 else 256 * BigEndian(s[..|s| - 1]) + s[|s| - 1] as nat
  }

  lemma {:induction false} BigEndianLast(s: seq<bv8>, b: bv8)
    ensures BigEndian([]) == 0 && BigEndian(s + [b]) == 256 * BigEndian(s) + b as nat
  {
    assert (s + [b])[..|s|] == s;
  }

  lemma {:induction false} BigEndianBound(s: seq<bv8>)
    ensures BigEndian(s) < Bytes.Radix(|s|)
  {
    if s != [] { BigEndianBound(s[..|s| - 1]); }
  }

  lemma {:induction false} BigEndianInjective(s: seq<bv8>, t: seq<bv8>)
    requires |s| == |t| && BigEndian(s) == BigEndian(t)
    ensures s == t
  {
    if s != [] {
      var p, q, a, b := s[..|s| - 1], t[..|t| - 1], s[|s| - 1], t[|t| - 1];
      LastDigit(BigEndian(p), BigEndian(q), a, b);
      BigEndianInjective(p, q);
      assert s == p + [a] && t == q + [b];
    }
  }

  lemma {:induction false} LastDigit(x: nat, y: nat, a: bv8, b: bv8)
    requires 256 * x + a as nat == 256 * y + b as nat
    ensures x == y && a == b
  {
    var m, n := a as nat, b as nat;
    assert m == n;
    assert a == m as bv8 && b == n as bv8;
  }

  // The byte with value d.
  function ToByte(d: nat): bv8
    requires d < 256
  {
    if d == 0 then 0 else ToByte(d - 1) + 1
  }

  lemma {:induction false} ByteOf(d: nat)
    requires d < 256
    ensures ToByte(d) as nat == d
  {
    if d > 0 {
      ByteOf(d - 1);
      Successor(ToByte(d - 1));
    }
  }

  lemma {:induction false} Successor(b: bv8)
    ensures b as nat < 255 ==> (b + 1) as nat == b as nat + 1
  {
  }
}
