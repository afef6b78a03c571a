// Vectors of 32-bit words, least significant word first: the bit-vector
// routines of misc/tinyECDH/ecdh.c, each proved against the number the vector
// denotes.
module WordVector {
  import opened Bits

  const WORD_MAX: nat := 0xFFFF_FFFF

  type Word = w: nat | w < 0x1_0000_0000

  // The number denoted by a vector.
  function Value(s: seq<Word>): nat {
    if s == [] then 0 else s[0] + 0x1_0000_0000 * Value(s[1..])
  }

  function Val(a: array<Word>): nat
    reads a
  {
    Value(a[..])
  }

  // The lowest n digits.
  function Low(a: nat, n: nat): nat {
    if n == 0 then 0 else a % 2 + 2 * Low(a / 2, n - 1)
  }

  function And(a: nat, b: nat): nat {
    if a == 0 then 0 else (if a % 2 == 1 && b % 2 == 1 then 1 else 0) + 2 * And(a / 2, b / 2)
  }

  // ---- shifts by a word

  lemma {:induction false} Shl8(a: nat)
    ensures Shl(a, 8) == 256 * a
  {
    assert Shl(a, 1) == 2 * a;
    assert Shl(a, 2) == 4 * a;
    assert Shl(a, 3) == 8 * a;
    assert Shl(a, 4) == 16 * a;
    assert Shl(a, 5) == 32 * a;
    assert Shl(a, 6) == 64 * a;
    assert Shl(a, 7) == 128 * a;
  }

  lemma {:induction false} Shl32(a: nat)
    ensures Shl(a, 32) == 0x1_0000_0000 * a
  {
    Shl8(a);
    Shl8(Shl(a, 8));
    ShlShl(a, 8, 8);
    Shl8(Shl(a, 16));
    ShlShl(a, 16, 8);
    Shl8(Shl(a, 24));
    ShlShl(a, 24, 8);
  }

  lemma {:induction false} WordPow()
    ensures Pow2(32) == 0x1_0000_0000
  {
    Shl32(1);
  }

  // ---- the lowest digits

  lemma {:induction false} LowBound(a: nat, n: nat)
    ensures Low(a, n) < Pow2(n)
    ensures a < Pow2(n) ==> Low(a, n) == a
    ensures forall k: nat :: Bit(Low(a, n), k) <==> k < n && Bit(a, k)
  {
    if n > 0 {
      LowBound(a / 2, n - 1);
      var l := Low(a, n);
      assert l / 2 == Low(a / 2, n - 1) && l % 2 == a % 2;
      forall k: nat ensures Bit(l, k) <==> k < n && Bit(a, k) {
        if k > 0 { assert Bit(l, k) == Bit(l / 2, k - 1); }
      }
    } else {
      forall k: nat ensures !Bit(0, k) { BitZero(k); }
    }
  }

  // Digits cut at position j.
  lemma {:induction false} LowParts(l: nat, h: nat, j: nat, n: nat)
    requires l < Pow2(j)
    ensures Low(l + Shl(h, j), j + n) == l + Shl(Low(h, n), j)
  {
    if j > 0 {
      LowParts(l / 2, h, j - 1, n);
      var a := l + Shl(h, j);
      assert a % 2 == l % 2 && a / 2 == l / 2 + Shl(h, j - 1);
    }
  }

  lemma {:induction false} LowShl(a: nat, j: nat, n: nat)
    ensures Low(Shl(a, j), j + n) == Shl(Low(a, n), j)
  {
    BitLenBound(0, j);
    LowParts(0, a, j, n);
  }

  lemma {:induction false} LowLow(a: nat, n: nat, d: nat)
    ensures Low(Low(a, n + d), n) == Low(a, n)
  {
    if n > 0 {
      LowLow(a / 2, n - 1, d);
      var l := Low(a, n + d);
      assert l / 2 == Low(a / 2, n - 1 + d) && l % 2 == a % 2;
    }
  }

  lemma {:induction false} ShlLow(a: nat, j: nat, n: nat)
    ensures Low(Shl(Low(a, n), j), n) == Low(Shl(a, j), n)
  {
    LowShl(a, j, n);
    LowLow(Shl(a, j), n, j);
    assert j + n == n + j;
  }

  // ---- values

  lemma {:induction false} ValueBound(s: seq<Word>)
    ensures Value(s) < Pow2(32 * |s|)
  {
    if s != [] {
      ValueBound(s[1..]);
      var n := 32 * |s[1..]|;
      ShlMono(Value(s[1..]) + 1, Pow2(n), 32);
      ShlShl(1, n, 32);
      Shl32(Value(s[1..]) + 1);
    } else {
      assert 32 * |s| == 0;
    }
  }

  lemma {:induction false} ValueAppend(s: seq<Word>, t: seq<Word>)
    ensures Value(s + t) == Value(s) + Shl(Value(t), 32 * |s|)
  {
    if s == [] {
      assert s + t == t;
    } else {
      ValueAppend(s[1..], t);
      assert (s + t)[1..] == s[1..] + t;
      var h := Shl(Value(t), 32 * |s[1..]|);
      Shl32(h);
      ShlShl(Value(t), 32 * |s[1..]|, 32);
    }
  }

  lemma {:induction false} ValueZeros(s: seq<Word>)
    requires forall i :: 0 <= i < |s| ==> s[i] == 0
    ensures Value(s) == 0
  {
    if s != [] { ValueZeros(s[1..]); }
  }

  lemma {:induction false} ValueIsZero(s: seq<Word>)
    ensures Value(s) == 0 <==> forall i :: 0 <= i < |s| ==> s[i] == 0
  {
    if s != [] {
      ValueIsZero(s[1..]);
      assert forall i :: 1 <= i < |s| ==> s[i] == s[1..][i - 1];
    }
  }

  lemma {:induction false} ValueInjective(s: seq<Word>, t: seq<Word>)
    requires |s| == |t| && Value(s) == Value(t)
    ensures s == t
  {
    if s != [] {
      ValueInjective(s[1..], t[1..]);
      assert s == [s[0]] + s[1..] && t == [t[0]] + t[1..];
    }
  }

  lemma {:induction false} ValueDiffers(s: seq<Word>, t: seq<Word>, i: nat)
    requires |s| == |t| && i < |s| && s[i] != t[i]
    ensures Value(s) != Value(t)
  {
    if Value(s) == Value(t) { ValueInjective(s, t); }
  }

  lemma {:induction false} ValueBit(s: seq<Word>, k: nat)
    requires k < 32 * |s|
    ensures Bit(Value(s), k) <==> Bit(s[k / 32], k % 32)
  {
    WordPow();
    if k < 32 {
      Shl32(Value(s[1..]));
      BitLowPart(s[0], Value(s[1..]), 32, k);
    } else {
      ValueBit(s[1..], k - 32);
      Shl32(Value(s[1..]));
      BitHighPart(s[0], Value(s[1..]), 32, k - 32);
      assert (k - 32) / 32 == k / 32 - 1 && (k - 32) % 32 == k % 32;
    }
  }

  lemma {:induction false} BitLowPart(l: nat, h: nat, n: nat, k: nat)
    requires l < Pow2(n) && k < n
    ensures Bit(l + Shl(h, n), k) <==> Bit(l, k)
  {
    var a := l + Shl(h, n);
    assert a % 2 == l % 2 && a / 2 == l / 2 + Shl(h, n - 1);
    if k > 0 { BitLowPart(l / 2, h, n - 1, k - 1); }
  }

  lemma {:induction false} BitHighPart(l: nat, h: nat, n: nat, k: nat)
    requires l < Pow2(n)
    ensures Bit(l + Shl(h, n), n + k) <==> Bit(h, k)
  {
    if n > 0 {
      var a := l + Shl(h, n);
      assert a / 2 == l / 2 + Shl(h, n - 1);
      BitHighPart(l / 2, h, n - 1, k);
    }
  }

  lemma {:induction false} ShrBit(a: nat, k: nat)
    ensures Bit(a, k) <==> Shr(a, k) % 2 == 1
  {
    if k > 0 { ShrBit(a / 2, k - 1); }
  }

  lemma {:induction false} ShrBound(a: nat, n: nat, k: nat)
    requires a < Pow2(n + k)
    ensures Shr(a, k) < Pow2(n)
  {
    if k > 0 { ShrBound(a / 2, n, k - 1); }
  }

  lemma {:induction false} AndPow(a: nat, k: nat)
    ensures And(a, Pow2(k)) == 0 <==> !Bit(a, k)
  {
    if a == 0 {
      BitZero(k);
    } else if k == 0 {
      AndZero(a / 2);
    } else {
      AndPow(a / 2, k - 1);
    }
  }

  lemma {:induction false} AndZero(a: nat)
    ensures And(a, 0) == 0
  {
    if a > 0 { AndZero(a / 2); }
  }

  lemma {:induction false} AndBit(a: nat, b: nat, k: nat)
    ensures Bit(And(a, b), k) <==> Bit(a, k) && Bit(b, k)
    decreases k
  {
    if a == 0 {
      BitZero(k);
    } else if k > 0 {
      assert And(a, b) / 2 == And(a / 2, b / 2);
      AndBit(a / 2, b / 2, k - 1);
    }
  }

  lemma {:induction false} AndLess(a: nat, b: nat)
    ensures And(a, b) <= a
  {
    if a > 0 { AndLess(a / 2, b / 2); }
  }

  // All digits below n except digit k.
  lemma {:induction false} ComplementBit(n: nat, k: nat, j: nat)
    requires k < n
    ensures Pow2(k) < Pow2(n)
    ensures Bit(Pow2(n) - 1 - Pow2(k), j) <==> j < n && j != k
  {
    ShlMono(1, 1, k);
    ShlMono(1, 2, n - k - 1);
    PowMono(k, n);
    if k == 0 {
      OnesBit(n - 1, j);
    } else {
      ComplementBit(n - 1, k - 1, if j > 0 then j - 1 else 0);
      var c := Pow2(n) - 1 - Pow2(k);
      assert c == 1 + 2 * (Pow2(n - 1) - 1 - Pow2(k - 1));
    }
  }

  lemma {:induction false} PowMono(k: nat, n: nat)
    requires k < n
    ensures Pow2(k) < Pow2(n)
  {
    if k == 0 {
      ShlMono(1, 2, n - 1);
      ShlDouble(1, n - 1);
      ShlMono(0, 1, n - 1);
    } else {
      PowMono(k - 1, n - 1);
    }
  }

  lemma {:induction false} OnesBit(n: nat, j: nat)
    ensures Pow2(n) > 0
    ensures Bit(2 * (Pow2(n) - 1), j) <==> 0 < j <= n
  {
    ShlMono(0, 1, n);
    if j > 0 {
      if n == 0 {
        BitZero(j);
      } else {
        OnesBit(n - 1, if j > 1 then j - 1 else 0);
        var a := 2 * (Pow2(n) - 1);
        assert a / 2 == 1 + 2 * (Pow2(n - 1) - 1);
        if j > 1 { assert Bit(a, j) == Bit(a / 2 / 2, j - 2); assert Bit(2 * (Pow2(n - 1) - 1), j - 1) == Bit(Pow2(n - 1) - 1, j - 2); }
      }
    }
  }

  lemma {:induction false} ValueXor(s: seq<Word>, t: seq<Word>, r: seq<Word>)
    requires |s| == |t| == |r|
    requires forall i :: 0 <= i < |s| ==> r[i] == Xor(s[i], t[i])
    ensures Value(r) == Xor(Value(s), Value(t))
  {
    hide Xor;
    hide Shl;
    if s == [] {
      XorZero(0);
    } else {
      ValueXor(s[1..], t[1..], r[1..]);
      WordPow();
      Shl32(Value(s[1..]));
      Shl32(Value(t[1..]));
      Shl32(Value(r[1..]));
      XorParts(s[0], Value(s[1..]), t[0], Value(t[1..]), 32);
    }
  }

  // Leading zero words do not count; the first other word gives the length.
  lemma {:induction false} ValueBitLen(s: seq<Word>, j: nat)
    requires j < |s| && s[j] != 0
    requires forall i :: j < i < |s| ==> s[i] == 0
    ensures BitLen(Value(s)) == 32 * j + BitLen(s[j])
  {
    assert s == s[..j] + [s[j]] + s[j + 1..];
    ValueAppend(s[..j] + [s[j]], s[j + 1..]);
    ValueZeros(s[j + 1..]);
    ValueAppend(s[..j], [s[j]]);
    ValueBound(s[..j]);
    BitLenShl(0, 32 * |s[..j] + [s[j]]|);
    assert Value([s[j]]) == s[j];
    BitLenParts(Value(s[..j]), s[j], 32 * j);
  }

  lemma {:induction false} BitLenParts(l: nat, h: nat, n: nat)
    requires l < Pow2(n) && h > 0
    ensures BitLen(l + Shl(h, n)) == n + BitLen(h)
  {
    if n > 0 {
      BitLenParts(l / 2, h, n - 1);
      var a := l + Shl(h, n);
      assert a / 2 == l / 2 + Shl(h, n - 1);
      BitLenShl(h, n);
    }
  }

  // ---- bits of a vector

  method GetBit(x: array<Word>, idx: nat) returns (r: nat)
    requires idx < 32 * x.Length
    ensures r == if Bit(Val(x), idx) then 1 else 0
  {
    r := Shr(x[idx / 32], idx % 32) % 2;
    ShrBit(x[idx / 32], idx % 32);
    ValueBit(x[..], idx);
  }

  method ClearBit(x: array<Word>, idx: nat)
    requires idx < 32 * x.Length
    modifies x
    ensures forall k: nat :: Bit(Val(x), k) <==> Bit(old(Val(x)), k) && k != idx
  {
    ghost var s := x[..];
    var j, w := idx / 32, x[idx / 32];
    WordPow();
    ComplementBit(32, idx % 32, 0);
    AndLess(w, WORD_MAX - Pow2(idx % 32));
    x[j] := And(w, WORD_MAX - Pow2(idx % 32));
    forall k: nat ensures Bit(Value(x[..]), k) <==> Bit(Value(s), k) && k != idx {
      if k < 32 * |s| {
        ValueBit(s, k);
        ValueBit(x[..], k);
        if k / 32 == j {
          AndBit(w, WORD_MAX - Pow2(idx % 32), k % 32);
          ComplementBit(32, idx % 32, k % 32);
        }
      } else {
        BitBeyond(s, k);
        BitBeyond(x[..], k);
      }
    }
  }

  lemma {:induction false} BitBeyond(s: seq<Word>, k: nat)
    requires k >= 32 * |s|
    ensures !Bit(Value(s), k)
  {
    ValueBound(s);
    BitLenBound(Value(s), 32 * |s|);
    BitLenTop(Value(s));
  }

  // ---- copying and comparing

  method Copy(x: array<Word>, y: array<Word>)
    requires x.Length == y.Length
    modifies x
    ensures x[..] == old(y[..])
  {
    var i := 0;
    while i < x.Length
      invariant 0 <= i <= x.Length
      invariant x[..i] == old(y[..])[..i]
      invariant y[..] == old(y[..])
    {
      x[i] := y[i];
      i := i + 1;
    }
  }

  method Swap(x: array<Word>, y: array<Word>)
    requires x.Length == y.Length
    modifies x, y
    ensures x[..] == old(y[..]) && y[..] == old(x[..])
  {
    var tmp := new Word[x.Length];
    Copy(tmp, x);
    Copy(x, y);
    Copy(y, tmp);
  }

  method Equal(x: array<Word>, y: array<Word>) returns (r: bool)
    requires x.Length == y.Length
    ensures r <==> Val(x) == Val(y)
  {
    var i := 0;
    while i < x.Length
      invariant 0 <= i <= x.Length
      invariant forall k :: 0 <= k < i ==> x[k] == y[k]
    {
      if x[i] != y[i] {
        ValueDiffers(x[..], y[..], i);
        return false;
      }
      i := i + 1;
    }
    assert x[..] == y[..];
    return true;
  }

  method SetZero(x: array<Word>)
    modifies x
    ensures Val(x) == 0
  {
    var i := 0;
    while i < x.Length
      invariant 0 <= i <= x.Length
      invariant forall k :: 0 <= k < i ==> x[k] == 0
    {
      x[i] := 0;
      i := i + 1;
    }
    ValueZeros(x[..]);
  }

  method IsZero(x: array<Word>) returns (r: bool)
    ensures r <==> Val(x) == 0
  {
    var i := 0;
    while i < x.Length
      invariant 0 <= i <= x.Length
      invariant forall k :: 0 <= k < i ==> x[k] == 0
    {
      if x[i] != 0 { break; }
      i := i + 1;
    }
    ValueIsZero(x[..]);
    assert i < x.Length ==> x[..][i] != 0;
    return i == x.Length;
  }

  // ---- length

  method Degree(x: array<Word>) returns (i: nat)
    ensures i == BitLen(Val(x))
  {
    i := x.Length * 32;
    var j := x.Length;
    while i > 0 && x[j - 1] == 0
      invariant 0 <= j <= x.Length && i == 32 * j
      invariant forall k :: j <= k < x.Length ==> x[k] == 0
    {
      i := i - 32;
      j := j - 1;
    }
    if i != 0 {
      var w := x[j - 1];
      var mask := 0x8000_0000;
      ghost var k := 31;
      WordPow();
      BitLenBound(w, 32);
      while And(w, mask) == 0
        invariant 0 <= k <= 31 && mask == Pow2(k)
        invariant i == 32 * (j - 1) + k + 1
        invariant BitLen(w) <= k + 1
        decreases k
      {
        AndPow(w, k);
        BitLenTop(w);
        mask := mask / 2;
        i := i - 1;
        k := k - 1;
      }
      AndPow(w, k);
      BitLenTop(w);
      ValueBitLen(x[..], j - 1);
    } else {
      ValueZeros(x[..]);
    }
  }

  // ---- left shift

  // Word of a shifted vector: bits of two neighbours.
  function ShiftWord(hi: Word, lo: Word, nbits: nat): nat
    requires nbits <= 32
  {
    Or(Shl(hi, nbits) % 0x1_0000_0000, Shr(lo, 32 - nbits))
  }

  // The word below position i.
  function Below(s: seq<Word>, lo: Word, i: nat): Word
    requires i < |s|
  {
    if i == 0 then lo else s[i - 1]
  }

  // A word shifted left: what stays and what moves to the next word.
  lemma {:induction false} ShiftSplit(w: Word, nbits: nat)
    requires nbits <= 32
    ensures Shl(w, nbits) == Shl(w, nbits) % 0x1_0000_0000 + 0x1_0000_0000 * Shr(w, 32 - nbits)
    ensures exists a: nat :: Shl(w, nbits) % 0x1_0000_0000 == Shl(a, nbits)
  {
    var r := ShrSplit(w, 32 - nbits);
    var q := Shr(w, 32 - nbits);
    ShlAdd(r, Shl(q, 32 - nbits), nbits);
    ShlShl(q, 32 - nbits, nbits);
    Shl32(q);
    ShlMono(r, Pow2(32 - nbits), nbits);
    ShlShl(1, 32 - nbits, nbits);
    WordPow();
    assert Shl(w, nbits) == Shl(r, nbits) + 0x1_0000_0000 * q;
    assert Shl(w, nbits) % 0x1_0000_0000 == Shl(r, nbits);
  }

  lemma {:induction false} ShiftWordSum(hi: Word, lo: Word, nbits: nat)
    requires nbits <= 32
    ensures ShiftWord(hi, lo, nbits) == Shl(hi, nbits) % 0x1_0000_0000 + Shr(lo, 32 - nbits) < 0x1_0000_0000
  {
    ShiftSplit(hi, nbits);
    var a: nat :| Shl(hi, nbits) % 0x1_0000_0000 == Shl(a, nbits);
    WordPow();
    ShrBound(lo, nbits, 32 - nbits);
    OrDisjoint(a, Shr(lo, 32 - nbits), nbits);
    // a multiple of 2^nbits below 2^32 leaves room for nbits more digits
    ShlShl(1, 32 - nbits, nbits);
    if a >= Pow2(32 - nbits) { ShlMono(Pow2(32 - nbits), a, nbits); }
    ShlMono(a + 1, Pow2(32 - nbits), nbits);
    ShlAdd(a, 1, nbits);
  }

  // Shifting one word below a number: the word out and the carry into the rest.
  lemma {:induction false} ShiftCarry(w: Word, lo: Word, v: nat, nbits: nat)
    requires nbits <= 32
    ensures Shl(w + 0x1_0000_0000 * v, nbits) + Shr(lo, 32 - nbits)
            == ShiftWord(w, lo, nbits) + Shl(Shl(v, nbits) + Shr(w, 32 - nbits), 32)
  {
    ShiftSplit(w, nbits);
    ShiftWordSum(w, lo, nbits);
    ShlAdd(w, 0x1_0000_0000 * v, nbits);
    Shl32(v);
    ShlShl(v, 32, nbits);
    ShlShl(v, nbits, 32);
    Shl32(Shl(v, nbits) + Shr(w, 32 - nbits));
    Shl32(Shl(v, nbits));
  }

  lemma {:induction false} ShiftSeqValue(s: seq<Word>, lo: Word, nbits: nat, r: seq<Word>)
    requires nbits <= 32 && |r| == |s|
    requires forall i :: 0 <= i < |s| ==> r[i] == ShiftWord(s[i], Below(s, lo, i), nbits)
    ensures Value(r) == Low(Shl(Value(s), nbits) + Shr(lo, 32 - nbits), 32 * |s|)
    decreases |s|
  {
    if s != [] {
      assert forall i :: 0 <= i < |s[1..]| ==> r[1..][i] == r[i + 1] && Below(s[1..], s[0], i) == Below(s, lo, i + 1);
      ShiftSeqValue(s[1..], s[0], nbits, r[1..]);
      ShiftSeqStep(s[0], lo, nbits, Value(s[1..]), r[0], Value(r[1..]), 32 * |s[1..]|);
      assert 32 + 32 * |s[1..]| == 32 * |s|;
    } else {
      assert 32 * |s| == 0;
    }
  }

  lemma {:induction false} ShiftSeqStep(w: Word, lo: Word, nbits: nat, v: nat, r: Word, rest: nat, n: nat)
    requires nbits <= 32 && r == ShiftWord(w, lo, nbits)
    requires rest == Low(Shl(v, nbits) + Shr(w, 32 - nbits), n)
    ensures r + 0x1_0000_0000 * rest == Low(Shl(w + 0x1_0000_0000 * v, nbits) + Shr(lo, 32 - nbits), 32 + n)
  {
    ShiftWordSum(w, lo, nbits);
    ShiftCarry(w, lo, v, nbits);
    WordPow();
    LowParts(r, Shl(v, nbits) + Shr(w, 32 - nbits), 32, n);
    Shl32(rest);
  }

  // Whole words moved up.
  lemma {:induction false} MoveValue(y: seq<Word>, k: nat, r: seq<Word>)
    requires k <= |y| == |r|
    requires forall i :: 0 <= i < k ==> r[i] == 0
    requires forall i :: k <= i < |y| ==> r[i] == y[i - k]
    ensures Value(r) == Low(Shl(Value(y), 32 * k), 32 * |y|)
  {
    var n := |y| - k;
    assert r == r[..k] + y[..n];
    ValueAppend(r[..k], y[..n]);
    ValueZeros(r[..k]);
    assert y == y[..n] + y[n..];
    ValueAppend(y[..n], y[n..]);
    ValueBound(y[..n]);
    LowParts(Value(y[..n]), Value(y[n..]), 32 * n, 0);
    BitLenShl(0, 32 * n);
    LowShl(Value(y), 32 * k, 32 * n);
    assert 32 * k + 32 * n == 32 * |y|;
  }

  // A vector shifted onto itself by a word or more reads words that are
  // overwritten already, and becomes 0.
  method Lshift(x: array<Word>, y: array<Word>, nbits: nat)
    requires x.Length == y.Length > 0
    requires nbits / 32 <= x.Length
    modifies x
    ensures Val(x) == if x == y && nbits >= 32 then 0 else Low(Shl(old(Val(y)), nbits), 32 * x.Length)
  {
    var nwords := nbits / 32;
    MoveWords(x, y, nwords);
    var rest := nbits % 32;
    ghost var a := if x == y && nwords > 0 then 0 else Shl(old(Val(y)), 32 * nwords);
    if rest != 0 {
      ShiftWords(x, rest);
    } else {
      LowLow(a, 32 * x.Length, 0);
    }
    ShlLow(a, rest, 32 * x.Length);
    ShlShl(old(Val(y)), 32 * nwords, rest);
    BitLenShl(0, rest);
    LowBound(0, 32 * x.Length);
    BitLenBound(0, 32 * x.Length);
  }

  // First half of the shift: whole words.
  method MoveWords(x: array<Word>, y: array<Word>, nwords: nat)
    requires x.Length == y.Length && nwords <= x.Length
    modifies x
    ensures Val(x) == Low(if x == y && nwords > 0 then 0 else Shl(old(Val(y)), 32 * nwords), 32 * x.Length)
  {
    ghost var same := x == y && nwords > 0;
    var i := 0;
    while i < nwords
      invariant 0 <= i <= nwords
      invariant forall k :: 0 <= k < i ==> x[k] == 0
      invariant !same ==> y[..] == old(y[..])
    {
      x[i] := 0;
      i := i + 1;
    }
    var j := 0;
    while i < x.Length
      invariant nwords <= i <= x.Length && j == i - nwords
      invariant forall k :: 0 <= k < nwords ==> x[k] == 0
      invariant same ==> forall k :: 0 <= k < i ==> x[k] == 0
      invariant !same ==> forall k :: nwords <= k < i ==> x[k] == old(y[..])[k - nwords]
      invariant !same ==> y[..] == old(y[..])
    {
      assert !same ==> y[..][j] == old(y[..])[j];
      x[i] := y[j];
      i := i + 1;
      j := j + 1;
    }
    if same {
      ValueZeros(x[..]);
      LowBound(0, 32 * x.Length);
      BitLenBound(0, 32 * x.Length);
    } else {
      MoveValue(old(y[..]), nwords, x[..]);
    }
  }

  // Second half of the shift: the remaining bits, from the top word down.
  method ShiftWords(x: array<Word>, nbits: nat)
    requires x.Length > 0 && 0 < nbits < 32
    modifies x
    ensures Val(x) == Low(Shl(old(Val(x)), nbits), 32 * x.Length)
  {
    ghost var s := x[..];
    var i := x.Length - 1;
    while i > 0
      invariant 0 <= i < x.Length
      invariant forall k :: 0 <= k <= i ==> x[k] == s[k]
      invariant forall k :: i < k < x.Length ==> x[k] == ShiftWord(s[k], Below(s, 0, k), nbits)
    {
      ShiftWordSum(x[i], x[i - 1], nbits);
      x[i] := Or(Shl(x[i], nbits) % 0x1_0000_0000, Shr(x[i - 1], 32 - nbits));
      i := i - 1;
    }
    ShrZero(32 - nbits);
    OrZero(Shl(s[0], nbits) % 0x1_0000_0000);
    x[0] := Shl(x[0], nbits) % 0x1_0000_0000;
    assert x[0] == ShiftWord(s[0], 0, nbits);
    ShiftSeqValue(s, 0, nbits, x[..]);
  }

  lemma {:induction false} ShrZero(n: nat)
    ensures Shr(0, n) == 0
  {
    if n > 0 { ShrZero(n - 1); }
  }
}
