// Base64: misc/mbedtls/library/base64.c; section 5.2 of RFC 1521.
module Base64 {
  import opened Bytes

  const SIZE_MAX: nat := 0xFFFF_FFFF_FFFF_FFFF
  const BUFFER_TOO_SMALL: int := -0x2A
  const INVALID_CHARACTER: int := -0x2C

  const LF: byte := 10
  const CR: byte := 13
  const SPACE: byte := 32
  const PAD: byte := 61

  // base64_enc_map
  function EncMap(v: nat): byte
    requires v < 64
  {
    if v < 26 then 65 + v else if v < 52 then 71 + v else if v < 62 then v - 4 else if v == 62 then 43 else 47
  }

  // base64_dec_map: 64 for the padding character and 127 for any other one
  // that is not in the alphabet.
  function DecMap(c: byte): (v: nat)
    ensures v <= 64 || v == 127
  {
    if 65 <= c <= 90 then c - 65 else if 97 <= c <= 122 then c - 71 else if 48 <= c <= 57 then c + 4
    else if c == 43 then 62 else if c == 47 then 63 else if c == PAD then 64 else 127
  }

  lemma {:induction false} MapsInverse(v: nat)
    requires v < 64
    ensures DecMap(EncMap(v)) == v && EncMap(v) < 128 && EncMap(v) != PAD
  {
  }

  const ALPHABET: string := "ABCDEFGHIJKLMNOPQRSTUVWXYZ" + "abcdefghijklmnopqrstuvwxyz" + "0123456789+/"

  lemma {:induction false} AlphabetIs(v: nat)
    requires v < 64
    ensures |ALPHABET| == 64 && EncMap(v) == ALPHABET[v] as int
  {
    hide ALPHABET;
    if v < 26 {
      Capitals(v);
    } else if v < 52 {
      SmallLetters(v - 26);
    } else {
      Others(v - 52);
    }
  }

  lemma {:induction false} Capitals(v: nat)
    requires v < 26
    ensures |ALPHABET| == 64 && ALPHABET[v] as int == 'A' as int + v
  {
    assert ALPHABET[v] == "ABCDEFGHIJKLMNOPQRSTUVWXYZ"[v];
  }

  lemma {:induction false} SmallLetters(v: nat)
    requires v < 26
    ensures |ALPHABET| == 64 && ALPHABET[26 + v] as int == 'a' as int + v
  {
    assert ALPHABET[26 + v] == "abcdefghijklmnopqrstuvwxyz"[v];
  }

  lemma {:induction false} Others(v: nat)
    requires v < 12
    ensures |ALPHABET| == 64 && ALPHABET[52 + v] as int == (if v < 10 then '0' as int + v else if v == 10 then '+' as int else '/' as int)
  {
    assert ALPHABET[52 + v] == "0123456789+/"[v];
  }

  // The decoding table knows the alphabet, the padding and nothing else.
  lemma {:induction false} DecMapIs(c: byte)
    ensures DecMap(c) < 64 ==> EncMap(DecMap(c)) == c
    ensures DecMap(c) == 64 <==> c == '=' as int
  {
  }

  // ---- encoding

  function Quad(a: byte, b: byte, c: byte): (q: seq<byte>)
    ensures |q| == 4
  {
    [EncMap(a / 4), EncMap(a % 4 * 16 + b / 16), EncMap(b % 16 * 4 + c / 64), EncMap(c % 64)]
  }

  function Encoded(s: seq<byte>): (t: seq<byte>)
    ensures |t| == 4 * ((|s| + 2) / 3)
  {
    if |s| == 0 then []
    else if |s| == 1 then Quad(s[0], 0, 0)[..2] + [PAD, PAD]
    else if |s| == 2 then Quad(s[0], s[1], 0)[..3] + [PAD]
    else Quad(s[0], s[1], s[2]) + Encoded(s[3..])
  }

  lemma {:induction false} EncodedJoin(s: seq<byte>, t: seq<byte>)
    requires |s| % 3 == 0
    ensures Encoded(s + t) == Encoded(s) + Encoded(t)
    decreases |s|
  {
    hide EncMap;
    hide Quad;
    if s == [] {
      assert s + t == t;
    } else {
      EncodedJoin(s[3..], t);
      assert (s + t)[3..] == s[3..] + t;
    }
  }

  // mbedtls_base64_encode
  method Encode(dst: array?<byte>, dlen: nat, src: seq<byte>) returns (ret: int, olen: nat)
    requires dst != null ==> dlen <= dst.Length
    requires |src| <= SIZE_MAX
    modifies if dst == null then {} else {dst}
    ensures src == [] ==> ret == 0 && olen == 0
    ensures src != [] && |Encoded(src)| >= SIZE_MAX ==> ret == BUFFER_TOO_SMALL && olen == SIZE_MAX
    ensures src != [] && |Encoded(src)| < SIZE_MAX && (dst == null || dlen <= |Encoded(src)|) ==>
              ret == BUFFER_TOO_SMALL && olen == |Encoded(src)| + 1
    ensures src != [] && |Encoded(src)| < SIZE_MAX && dst != null && dlen > |Encoded(src)| ==>
              && ret == 0 && olen == |Encoded(src)|
              && dst[..] == Encoded(src) + [0] + old(dst[olen + 1..])
    ensures dst != null && (src == [] || ret != 0) ==> dst[..] == old(dst[..])
  {
    hide Encoded;
    Lengths(src);
    var slen := |src|;
    if slen == 0 {
      return 0, 0;
    }
    var n := slen / 3 + if slen % 3 != 0 then 1 else 0;
    if n > (SIZE_MAX - 1) / 4 {
      return BUFFER_TOO_SMALL, SIZE_MAX;
    }
    n := 4 * n;
    if dlen < n + 1 || dst == null {
      return BUFFER_TOO_SMALL, n + 1;
    }
    ghost var dst0 := dst[..];
    olen := EncodeAll(dst, src);
    dst[olen] := 0;
    Terminated(dst[..], Encoded(src), dst0);
    ret := 0;
  }

  lemma {:induction false} Terminated(t: seq<byte>, e: seq<byte>, dst0: seq<byte>)
    requires |e| < |dst0| && t == (e + dst0[|e|..])[|e| := 0]
    ensures t == e + [0] + dst0[|e| + 1..]
  {
  }

  // The loop over the full triples and the remainder after it.
  method EncodeAll(dst: array<byte>, src: seq<byte>) returns (p: nat)
    requires |Encoded(src)| < dst.Length
    modifies dst
    ensures p == |Encoded(src)| && dst[..] == Encoded(src) + old(dst[p..])
  {
    hide *;
    ghost var dst0 := dst[..];
    var slen := |src|;
    var n := slen / 3 * 3;
    ghost var k, q := 0, slen / 3;
    RoomFor(src, q);
    var i := 0;
    p := 0;
    Lengths(src);
    while i < n
      invariant 0 <= k <= q && n == 3 * q && i == 3 * k && p == 4 * k
      invariant dst[..] == Encoded(src[..i]) + dst0[p..] && |Encoded(src[..i])| == p
    {
      Triple(i, k);
      EncodeTriple(dst, src, i, p, dst0);
      i, p, k := i + 3, p + 4, k + 1;
    }
    Triple(i, k);
    if i < slen {
      p := EncodeRest(dst, src, i, p, dst0);
    } else {
      assert src[..i] == src;
    }
  }

  lemma {:induction false} RoomFor(src: seq<byte>, q: nat)
    requires q == |src| / 3
    ensures 3 * q <= |src| < 3 * q + 3 && 4 * q <= |Encoded(src)|
    ensures 3 * q < |src| ==> 4 * q + 4 <= |Encoded(src)|
  {
  }

  lemma {:induction false} Triple(i: nat, k: nat)
    requires i == 3 * k
    ensures i % 3 == 0
  {
  }

  lemma {:induction false} Lengths(src: seq<byte>)
    ensures src[..0] == [] && Encoded([]) == []
    ensures |Encoded(src)| == 4 * ((|src| + 2) / 3)
  {
  }

  method EncodeTriple(dst: array<byte>, src: seq<byte>, i: nat, p: nat, ghost dst0: seq<byte>)
    requires i % 3 == 0 && i + 3 <= |src| && p + 4 <= dst.Length == |dst0|
    requires |Encoded(src[..i])| == p && dst[..] == Encoded(src[..i]) + dst0[p..]
    modifies dst
    ensures |Encoded(src[..i + 3])| == p + 4 && dst[..] == Encoded(src[..i + 3]) + dst0[p + 4..]
  {
    hide EncMap;
    hide Encoded;
    hide Quad;
    var c1, c2, c3 := src[i], src[i + 1], src[i + 2];
    Digit(c1, c2, c3);
    Put4(dst, p, EncMap(c1 / 4 % 64), EncMap((c1 % 4 * 16 + c2 / 16) % 64), EncMap((c2 % 16 * 4 + c3 / 64) % 64), EncMap(c3 % 64));
    QuadIs(c1, c2, c3);
    NextTriple(src, i);
    Appended(Encoded(src[..i]), Quad(c1, c2, c3), dst0);
  }

  lemma {:induction false} QuadIs(c1: byte, c2: byte, c3: byte)
    ensures Quad(c1, c2, c3)
         == [EncMap(c1 / 4 % 64), EncMap((c1 % 4 * 16 + c2 / 16) % 64), EncMap((c2 % 16 * 4 + c3 / 64) % 64), EncMap(c3 % 64)]
  {
    hide EncMap;
    Digit(c1, c2, c3);
  }

  // Four times *p++ = .
  method Put4(dst: array<byte>, p: nat, a: byte, b: byte, c: byte, d: byte)
    requires p + 4 <= dst.Length
    modifies dst
    ensures dst[..] == old(dst[..p]) + [a, b, c, d] + old(dst[p + 4..])
  {
    dst[p], dst[p + 1], dst[p + 2], dst[p + 3] := a, b, c, d;
  }

  lemma {:induction false} Appended(done: seq<byte>, q: seq<byte>, dst0: seq<byte>)
    requires |done| + |q| <= |dst0|
    ensures var t := done + dst0[|done|..];
            t[..|done|] + q + t[|done| + |q|..] == done + q + dst0[|done| + |q|..]
  {
  }

  lemma {:induction false} Digit(c1: byte, c2: byte, c3: byte)
    ensures c1 / 4 < 64 && c1 % 4 * 16 + c2 / 16 < 64 && c2 % 16 * 4 + c3 / 64 < 64
  {
  }

  lemma {:induction false} NextTriple(src: seq<byte>, i: nat)
    requires i % 3 == 0 && i + 3 <= |src|
    ensures Encoded(src[..i + 3]) == Encoded(src[..i]) + Quad(src[i], src[i + 1], src[i + 2])
  {
    hide Quad;
    var t := src[i..i + 3];
    assert src[..i + 3] == src[..i] + t;
    EncodedJoin(src[..i], t);
    assert t[3..] == [];
  }

  method EncodeRest(dst: array<byte>, src: seq<byte>, i: nat, p: nat, ghost dst0: seq<byte>) returns (p': nat)
    requires i % 3 == 0 && i < |src| < i + 3 && p + 4 <= dst.Length == |dst0|
    requires |Encoded(src[..i])| == p && dst[..] == Encoded(src[..i]) + dst0[p..]
    modifies dst
    ensures p' == p + 4 == |Encoded(src)| && dst[..] == Encoded(src) + dst0[p + 4..]
  {
    hide EncMap;
    hide Encoded;
    var c1, c2 := src[i], if i + 1 < |src| then src[i + 1] else 0;
    Digit(c1, c2, 0);
    var third := if i + 1 < |src| then EncMap(c2 % 16 * 4 % 64) else PAD;
    Put4(dst, p, EncMap(c1 / 4 % 64), EncMap((c1 % 4 * 16 + c2 / 16) % 64), third, PAD);
    p' := p + 4;
    LastGroup(src, i);
    RestIs(src[i..], c1, c2);
    Appended(Encoded(src[..i]), Encoded(src[i..]), dst0);
  }

  lemma {:induction false} RestIs(s: seq<byte>, c1: byte, c2: byte)
    requires 0 < |s| < 3 && s[0] == c1 && c2 == if |s| == 2 then s[1] else 0
    ensures Encoded(s) == [EncMap(c1 / 4), EncMap(c1 % 4 * 16 + c2 / 16), if |s| == 2 then EncMap(c2 % 16 * 4) else PAD, PAD]
  {
    hide EncMap;
  }

  lemma {:induction false} LastGroup(src: seq<byte>, i: nat)
    requires i % 3 == 0 && i <= |src|
    ensures Encoded(src) == Encoded(src[..i]) + Encoded(src[i..])
  {
    assert src == src[..i] + src[i..];
    EncodedJoin(src[..i], src[i..]);
  }

  // ---- decoding: the checking pass

  datatype Scan = Invalid | Valid(n: nat, pads: nat)

  predicate Blank(c: byte) { c == SPACE || c == CR || c == LF }

  // The checking pass over the rest of the source: n characters and j padding
  // characters were counted so far, and spaced says that spaces came just
  // before.
  function Scanned(t: seq<byte>, n: nat, j: nat, spaced: bool): Scan {
    if t == [] then Valid(n, j)
    else if t[0] == SPACE then Scanned(t[1..], n, j, true)
    else if |t| >= 2 && t[0] == CR && t[1] == LF then Scanned(t[1..], n, j, false)
    else if t[0] == LF then Scanned(t[1..], n, j, false)
    else if spaced then Invalid
    else
      var k := if t[0] == PAD then j + 1 else j;
      if t[0] == PAD && k > 2 then Invalid
      else if t[0] > 127 || DecMap(t[0]) == 127 then Invalid
      else if DecMap(t[0]) < 64 && k != 0 then Invalid
      else Scanned(t[1..], n + 1, k, false)
  }

  // The first loop; ok is false for the invalid-character error.
  method Check(src: seq<byte>) returns (ok: bool, n: nat, j: nat)
    ensures Scanned(src, 0, 0, false) == if ok then Valid(n, j) else Invalid
  {
    var i, slen := 0, |src|;
    n, j := 0, 0;
    assert src[0..] == src;
    while i < slen
      invariant 0 <= i <= slen
      invariant Scanned(src, 0, 0, false) == Scanned(src[i..], n, j, false)
    {
      var x := 0;
      while i < slen && src[i] == SPACE
        invariant 0 <= i <= slen && x >= 0
        invariant Scanned(src, 0, 0, false) == Scanned(src[i..], n, j, x > 0)
      {
        assert src[i..][1..] == src[i + 1..];
        i, x := i + 1, x + 1;
      }
      if i == slen {
        break;
      }
      assert src[i..][1..] == src[i + 1..];
      if slen - i >= 2 && src[i] == CR && src[i + 1] == LF {
        i := i + 1;
        continue;
      }
      if src[i] == LF {
        i := i + 1;
        continue;
      }
      if x != 0 {
        return false, n, j;
      }
      if src[i] == PAD {
        j := j + 1;
        if j > 2 {
          return false, n, j;
        }
      }
      if src[i] > 127 || DecMap(src[i]) == 127 {
        return false, n, j;
      }
      if DecMap(src[i]) < 64 && j != 0 {
        return false, n, j;
      }
      n, i := n + 1, i + 1;
    }
    ok := true;
  }

  // The characters that are not blanks.
  function Filtered(t: seq<byte>): seq<byte> {
    if t == [] then [] else (if Blank(t[0]) then [] else [t[0]]) + Filtered(t[1..])
  }

  function Pads(cs: seq<byte>): nat {
    if cs == [] then 0 else (if cs[0] == PAD then 1 else 0) + Pads(cs[1..])
  }

  // Alphabet characters followed by at most 2 - j padding characters; only
  // padding when j > 0.
  predicate WellFormed(cs: seq<byte>, j: nat) {
    cs == [] || (if cs[0] == PAD then j < 2 && WellFormed(cs[1..], j + 1)
                 else j == 0 && DecMap(cs[0]) < 64 && WellFormed(cs[1..], 0))
  }

  // That is: the paddings are the last characters, at most 2 - j, and all
  // others are in the alphabet.
  lemma {:induction false} WellFormedIs(cs: seq<byte>, j: nat)
    requires j <= 2
    ensures var k := Pads(cs);
            WellFormed(cs, j) <==>
              && k <= 2 - j && k <= |cs| && (j == 0 || k == |cs|)
              && (forall i :: 0 <= i < |cs| ==> if i < |cs| - k then DecMap(cs[i]) < 64 else cs[i] == PAD)
  {
    hide WellFormed;
    hide DecMap;
    hide Pads;
    var k := Pads(cs);
    if WellFormed(cs, j) {
      PaddingCounts(cs, j);
    } else if k <= 2 - j && k <= |cs| && (j == 0 || k == |cs|)
           && (forall i :: 0 <= i < |cs| ==> if i < |cs| - k then DecMap(cs[i]) < 64 else cs[i] == PAD) {
      PaddedWellFormed(cs, j, k);
    }
  }

  lemma {:induction false} PaddingCounts(cs: seq<byte>, j: nat)
    requires WellFormed(cs, j) && j <= 2
    ensures Pads(cs) <= 2 - j && Pads(cs) <= |cs| && (j == 0 || Pads(cs) == |cs|)
    ensures forall i :: 0 <= i < |cs| ==> if i < |cs| - Pads(cs) then DecMap(cs[i]) < 64 else cs[i] == PAD
  {
    hide DecMap;
    if cs != [] {
      PaddingCounts(cs[1..], if cs[0] == PAD then j + 1 else 0);
      assert forall i :: 1 <= i < |cs| ==> cs[1..][i - 1] == cs[i];
    }
  }

  lemma {:induction false} PaddedWellFormed(cs: seq<byte>, j: nat, k: nat)
    requires j + k <= 2 && k <= |cs| && (j == 0 || k == |cs|)
    requires forall i :: 0 <= i < |cs| ==> if i < |cs| - k then DecMap(cs[i]) < 64 else cs[i] == PAD
    ensures WellFormed(cs, j)
  {
    hide DecMap;
    PadIs(PAD);
    if cs != [] {
      var pad := cs[0] == PAD;
      PaddedWellFormed(cs[1..], if pad then j + 1 else 0, if pad then k - 1 else k);
    }
  }

  // What the checking pass accepts and counts.
  lemma {:induction false} ScanAccepts(t: seq<byte>, n: nat, j: nat, spaced: bool)
    requires Scanned(t, n, j, spaced).Valid?
    ensures WellFormed(Filtered(t), j)
    ensures Scanned(t, n, j, spaced) == Valid(n + |Filtered(t)|, j + Pads(Filtered(t)))
  {
    if t != [] {
      var cs, rest := Filtered(t), Filtered(t[1..]);
      if Blank(t[0]) {
        assert cs == rest;
        ScanAccepts(t[1..], n, j, t[0] == SPACE);
      } else {
        ScanAccepts(t[1..], n + 1, if t[0] == PAD then j + 1 else j, false);
        assert cs[1..] == rest;
      }
    }
  }

  // The size the checking pass announces, in the form that cannot overflow.
  function Size(n: nat, j: nat): int {
    6 * (n / 8) + (6 * (n % 8) + 7) / 8 - j
  }

  lemma {:induction false} SizeIs(n: nat, j: nat)
    ensures Size(n, j) == (6 * n + 7) / 8 - j
    ensures 6 * (n / 8) + (6 * (n % 8) + 7) / 8 <= n
    ensures j <= 2 && n >= j ==> Size(n, j) >= 0
  {
    var q, r := n / 8, n % 8;
    assert n == 8 * q + r && (6 * n + 7) == 8 * (6 * q) + (6 * r + 7);
  }

  // ---- decoding: the writing pass

  // The low six bits of a table entry.
  function Value(c: byte): nat { DecMap(c) % 64 }

  function Word24(a: byte, b: byte, c: byte, d: byte): nat {
    ((Value(a) * 64 + Value(b)) * 64 + Value(c)) * 64 + Value(d)
  }

  // The bytes of a group when k of them are wanted.
  function Group(x: nat, k: nat): (r: seq<byte>)
    requires k <= 3
    ensures |r| == k
  {
    [x / 65536 % 256, x / 256 % 256, x % 256][..k]
  }

  // The bytes of the groups of four characters, after e padding characters.
  function Decoded(cs: seq<byte>, e: nat): seq<byte> {
    if |cs| < 4 then [] else
      var f := e + Pads(cs[..4]);
      Group(Word24(cs[0], cs[1], cs[2], cs[3]), if f <= 3 then 3 - f else 0) + Decoded(cs[4..], f)
  }

  lemma {:induction false} PadsJoin(a: seq<byte>, b: seq<byte>)
    ensures Pads(a + b) == Pads(a) + Pads(b)
  {
    if a == [] {
      assert a + b == b;
    } else {
      assert (a + b)[1..] == a[1..] + b;
      PadsJoin(a[1..], b);
    }
  }

  lemma {:induction false} PadsBound(cs: seq<byte>, e: nat)
    requires WellFormed(cs, e) && e <= 2
    ensures e + Pads(cs) <= 2
    ensures e > 0 ==> |cs| == Pads(cs)
    ensures Pads(cs) <= |cs|
  {
    if cs != [] { PadsBound(cs[1..], if cs[0] == PAD then e + 1 else 0); }
  }

  lemma {:induction false} WellFormedTail(cs: seq<byte>, k: nat, e: nat)
    requires WellFormed(cs, e) && k <= |cs| && e <= 2
    ensures WellFormed(cs[k..], e + Pads(cs[..k]))
    decreases k
  {
    if k == 0 {
      assert cs[0..] == cs && cs[..0] == [];
    } else {
      WellFormedTail(cs[1..], k - 1, if cs[0] == PAD then e + 1 else 0);
      assert cs[1..][k - 1..] == cs[k..] && cs[..k][1..] == cs[1..][..k - 1];
    }
  }

  lemma {:induction false} DecodedJoin(a: seq<byte>, b: seq<byte>, e: nat)
    requires |a| % 4 == 0
    ensures Decoded(a + b, e) == Decoded(a, e) + Decoded(b, e + Pads(a))
    decreases |a|
  {
    hide Group;
    hide Word24;
    hide Pads;
    if a == [] {
      assert a + b == b;
      NoPads();
    } else {
      var f := e + Pads(a[..4]);
      assert (a + b)[..4] == a[..4] && (a + b)[4..] == a[4..] + b && a == a[..4] + a[4..];
      DecodedJoin(a[4..], b, f);
      PadsJoin(a[..4], a[4..]);
    }
  }

  lemma {:induction false} NoPads()
    ensures Pads([]) == 0
  {
  }

  // How many bytes the writing pass produces.
  lemma {:induction false} DecodedLength(cs: seq<byte>)
    requires WellFormed(cs, 0)
    ensures var r := |cs| % 4;
            |Decoded(cs, 0)| == 3 * (|cs| / 4) - if Pads(cs) > r then Pads(cs) - r else 0
    decreases |cs|
  {
    hide Group;
    hide Word24;
    hide Pads;
    PadsBound(cs, 0);
    if |cs| >= 4 {
      var f, rest := Pads(cs[..4]), cs[4..];
      assert cs == cs[..4] + rest;
      PadsJoin(cs[..4], rest);
      WellFormedTail(cs, 4, 0);
      if f == 0 {
        DecodedLength(rest);
      } else {
        PadsBound(rest, f);
      }
    }
  }

  // The writing pass never produces more bytes than the checking pass
  // announces, and the same number exactly when the last group is complete or
  // lacks no more characters than there is padding.
  lemma {:induction false} SizeSuffices(t: seq<byte>)
    requires Scanned(t, 0, 0, false).Valid?
    ensures var v := Scanned(t, 0, 0, false);
            && 0 <= Size(v.n, v.pads)
            && |Decoded(Filtered(t), 0)| <= Size(v.n, v.pads)
            && (|Decoded(Filtered(t), 0)| == Size(v.n, v.pads) <==> v.n % 4 <= v.pads)
  {
    var cs := Filtered(t);
    ScanAccepts(t, 0, 0, false);
    DecodedLength(cs);
    PadsBound(cs, 0);
    SizeIs(|cs|, Pads(cs));
    var q, r := |cs| / 4, |cs| % 4;
    assert 6 * |cs| + 7 == 8 * (3 * q) + 6 * r + 7;
  }

  // Two characters without padding: two bytes are announced, none is written.
  lemma {:induction false} ShortGroup()
    ensures var t := [65, 65]; // "AA"
            && Scanned(t, 0, 0, false) == Valid(2, 0)
            && Size(2, 0) == 2 && Decoded(Filtered(t), 0) == []
  {
    var t: seq<byte> := [65, 65];
    assert t[1..] == [65] && t[1..][1..] == [];
  }

  // ---- decoding what was encoded

  lemma {:induction false} PadsOfGroup(q: seq<byte>)
    requires |q| == 4
    ensures Pads(q) == (if q[0] == PAD then 1 else 0) + (if q[1] == PAD then 1 else 0)
                     + (if q[2] == PAD then 1 else 0) + (if q[3] == PAD then 1 else 0)
  {
    assert q[1..][1..] == q[2..] && q[2..][1..] == q[3..] && q[3..][1..] == [];
    assert Pads(q[3..]) == if q[3] == PAD then 1 else 0;
    assert Pads(q[2..]) == (if q[2] == PAD then 1 else 0) + Pads(q[3..]);
    assert Pads(q[1..]) == (if q[1] == PAD then 1 else 0) + Pads(q[2..]);
  }

  lemma {:induction false} GroupWord(a: byte, b: byte, c: byte)
    ensures var x := ((a / 4 * 64 + (a % 4 * 16 + b / 16)) * 64 + (b % 16 * 4 + c / 64)) * 64 + c % 64;
            x == (a as int) * 65536 + (b as int) * 256 + (c as int)
            && x / 65536 % 256 == a && x / 256 % 256 == b && x % 256 == c
  {
    Pieces(a / 4, a % 4, b / 16, b % 16, c / 64, c % 64);
    hide *;
    ThreeBytes(a, b, c, (a as int) * 65536 + (b as int) * 256 + (c as int));
  }

  lemma {:induction false} Pieces(a: nat, a': nat, b: nat, b': nat, c: nat, c': nat)
    ensures ((a * 64 + (a' * 16 + b)) * 64 + (b' * 4 + c)) * 64 + c'
         == (4 * a + a') * 65536 + (16 * b + b') * 256 + (64 * c + c')
  {
  }

  lemma {:induction false} ThreeBytes(a: byte, b: byte, c: byte, x: int)
    requires x == (a as int) * 65536 + (b as int) * 256 + (c as int)
    ensures x / 65536 % 256 == a && x / 256 % 256 == b && x % 256 == c
  {
    assert x / 65536 == a;
    assert x / 256 == (a as int) * 256 + (b as int);
  }

  lemma {:induction false} QuadDecodes(a: byte, b: byte, c: byte)
    ensures var q := Quad(a, b, c);
            && Value(q[0]) == a / 4 && Value(q[1]) == a % 4 * 16 + b / 16
            && Value(q[2]) == b % 16 * 4 + c / 64 && Value(q[3]) == c % 64
            && (forall k :: 0 <= k < 4 ==> DecMap(q[k]) < 64 && q[k] != PAD)
            && Group(Word24(q[0], q[1], q[2], q[3]), 3) == [a, b, c]
  {
    hide EncMap;
    hide DecMap;
    hide Word24;
    hide Group;
    Digit(a, b, c);
    MapsInverse(a / 4);
    MapsInverse(a % 4 * 16 + b / 16);
    MapsInverse(b % 16 * 4 + c / 64);
    MapsInverse(c % 64);
    QuadGroup(a, b, c, Quad(a, b, c));
  }

  lemma {:induction false} QuadGroup(a: byte, b: byte, c: byte, q: seq<byte>)
    requires |q| == 4 && Value(q[0]) == a / 4 && Value(q[1]) == a % 4 * 16 + b / 16
    requires Value(q[2]) == b % 16 * 4 + c / 64 && Value(q[3]) == c % 64
    ensures Group(Word24(q[0], q[1], q[2], q[3]), 3) == [a, b, c]
  {
    hide DecMap;
    hide Value;
    GroupWord(a, b, c);
  }

  // Decoding the encoding returns the bytes.
  lemma {:induction false} DecodeEncode(s: seq<byte>)
    ensures Decoded(Encoded(s), 0) == s
    ensures WellFormed(Encoded(s), 0)
    ensures Size(|Encoded(s)|, Pads(Encoded(s))) == |s|
    decreases |s|
  {
    hide Quad;
    hide Group;
    hide Word24;
    hide DecMap;
    if |s| == 0 {
    } else if |s| < 3 {
      LastGroupDecodes(s);
    } else {
      var rest := Encoded(s[3..]);
      var q := Quad(s[0], s[1], s[2]);
      DecodeEncode(s[3..]);
      QuadDecodes(s[0], s[1], s[2]);
      WellFormedGroup(q, rest);
      PadsOfGroup(q);
      PadsJoin(q, rest);
      DecodedJoin(q, rest, 0);
      GroupDecodes(q);
      MoreSize(|rest|, Pads(rest));
      assert s == [s[0], s[1], s[2]] + s[3..];
    }
  }

  lemma {:induction false} GroupDecodes(q: seq<byte>)
    requires |q| == 4 && Pads(q) == 0
    ensures Decoded(q, 0) == Group(Word24(q[0], q[1], q[2], q[3]), 3)
  {
    hide Group;
    hide Word24;
    hide Pads;
    assert q[..4] == q;
    assert Decoded(q[4..], 0) == [];
  }

  lemma {:induction false} WellFormedGroup(q: seq<byte>, rest: seq<byte>)
    requires forall k :: 0 <= k < |q| ==> DecMap(q[k]) < 64 && q[k] != PAD
    requires WellFormed(rest, 0)
    ensures WellFormed(q + rest, 0)
  {
    if q == [] {
      assert q + rest == rest;
    } else {
      WellFormedGroup(q[1..], rest);
      assert (q + rest)[1..] == q[1..] + rest;
    }
  }

  lemma {:induction false} MoreSize(n: nat, j: nat)
    ensures Size(4 + n, j) == Size(n, j) + 3
  {
    SizeIs(n, j);
    SizeIs(4 + n, j);
    assert 6 * (4 + n) + 7 == 6 * n + 7 + 24;
  }

  // The last group of one or two bytes.
  lemma {:induction false} LastGroupDecodes(s: seq<byte>)
    requires 0 < |s| < 3
    ensures Decoded(Encoded(s), 0) == s && WellFormed(Encoded(s), 0)
    ensures Pads(Encoded(s)) == 3 - |s| && Size(|Encoded(s)|, Pads(Encoded(s))) == |s|
  {
    hide Quad;
    hide DecMap;
    var b := if |s| == 2 then s[1] else 0;
    var q, e := Quad(s[0], b, 0), Encoded(s);
    QuadDecodes(s[0], b, 0);
    PadsOfGroup(e);
    PadValue();
    assert e[..4] == e && Decoded(e[4..], 3 - |s|) == [];
    assert Value(e[0]) == Value(q[0]) && Value(e[1]) == Value(q[1]);
    assert Value(e[2]) == Value(q[2]) && Value(e[3]) == Value(q[3]);
    Prefix(Word24(q[0], q[1], q[2], q[3]), |s|);
    var k := 1 + |s|;
    assert e == q[..k] + e[k..];
    assert e[k..] == if |s| == 2 then [PAD] else [PAD, PAD];
    WellFormedGroup(q[..k], e[k..]);
  }

  lemma {:induction false} Prefix(x: nat, k: nat)
    requires k <= 3
    ensures Group(x, k) == Group(x, 3)[..k]
  {
  }

  lemma {:induction false} PadValue()
    ensures DecMap(PAD) == 64 && Value(PAD) == 0
    ensures WellFormed([PAD], 0) && WellFormed([PAD, PAD], 0)
  {
    assert [PAD][1..] == [] && [PAD, PAD][1..] == [PAD];
    assert WellFormed([PAD], 1);
  }

  // ---- line breaks and trailing spaces

  // A character of the text, or a line end with spaces before it.
  datatype Piece = Char(c: byte) | LineEnd(spaces: nat, cr: bool)

  function Blanks(n: nat): seq<byte> {
    if n == 0 then [] else [SPACE] + Blanks(n - 1)
  }

  // The text laid out, with trailing spaces.
  function Laid(ps: seq<Piece>, trailing: nat): seq<byte> {
    if ps == [] then Blanks(trailing)
    else (match ps[0]
          case Char(c) => [c]
          case LineEnd(n, cr) => Blanks(n) + if cr then [CR, LF] else [LF])
         + Laid(ps[1..], trailing)
  }

  function Chars(ps: seq<Piece>): seq<byte> {
    if ps == [] then [] else (if ps[0].Char? then [ps[0].c] else []) + Chars(ps[1..])
  }

  lemma {:induction false} ScanBlanks(k: nat, t: seq<byte>, n: nat, j: nat, spaced: bool)
    ensures Scanned(Blanks(k) + t, n, j, spaced) == Scanned(t, n, j, spaced || k > 0)
    ensures Filtered(Blanks(k) + t) == Filtered(t)
  {
    if k == 0 {
      assert Blanks(0) + t == t;
    } else {
      assert (Blanks(k) + t)[1..] == Blanks(k - 1) + t;
      ScanBlanks(k - 1, t, n, j, true);
    }
  }

  // Laying a well-formed text out changes neither pass.
  lemma {:induction false} LaidScans(ps: seq<Piece>, trailing: nat, n: nat, j: nat)
    requires WellFormed(Chars(ps), j) && j <= 2
    ensures var cs := Chars(ps);
            && Scanned(Laid(ps, trailing), n, j, false) == Valid(n + |cs|, j + Pads(cs))
            && Filtered(Laid(ps, trailing)) == cs
    decreases |ps|
  {
    hide DecMap;
    hide Scanned;
    hide Filtered;
    hide WellFormed;
    var t, cs := Laid(ps, trailing), Chars(ps);
    if ps == [] {
      NothingScans(n, j);
      ScanBlanks(trailing, [], n, j, false);
      assert Blanks(trailing) + [] == Blanks(trailing);
    } else {
      var rest := Laid(ps[1..], trailing);
      match ps[0] {
        case Char(c) =>
          assert cs == [c] + Chars(ps[1..]);
          CharScans(c, rest, Chars(ps[1..]), n, j);
          LaidScans(ps[1..], trailing, n + 1, if c == PAD then j + 1 else j);
        case LineEnd(k, cr) =>
          assert cs == Chars(ps[1..]);
          LaidScans(ps[1..], trailing, n, j);
          LineScans(k, cr, rest, n, j);
      }
    }
  }

  // The checking pass accepts a text if and only if it is laid out so.
  lemma {:induction false} AcceptsLaid(t: seq<byte>)
    ensures Scanned(t, 0, 0, false).Valid? <==>
              exists ps, trailing :: t == Laid(ps, trailing) && WellFormed(Chars(ps), 0)
  {
    if Scanned(t, 0, 0, false).Valid? {
      var ps, trailing := LayOut(t, 0, 0, 0);
      ScanAccepts(t, 0, 0, false);
      assert Blanks(0) + t == t;
    }
    if ps, trailing :| t == Laid(ps, trailing) && WellFormed(Chars(ps), 0) {
      LaidScans(ps, trailing, 0, 0);
    }
  }

  // The layout of an accepted text behind k pending spaces.
  lemma {:induction false} LayOut(t: seq<byte>, n: nat, j: nat, k: nat) returns (ps: seq<Piece>, trailing: nat)
    requires Scanned(t, n, j, k > 0).Valid?
    ensures Blanks(k) + t == Laid(ps, trailing) && Chars(ps) == Filtered(t)
    decreases |t|
  {
    hide DecMap;
    hide Laid;
    hide Chars;
    hide Scanned;
    hide Filtered;
    hide Blanks;
    if t == [] {
      LaidNothing(k);
      ps, trailing := [], k;
    } else if t[0] == SPACE {
      NextBlank(t, n, j, k > 0);
      ps, trailing := LayOut(t[1..], n, j, k + 1);
      BlanksNext(k, t);
    } else if |t| >= 2 && t[0] == CR && t[1] == LF {
      NextLine(t, n, j, k > 0);
      ps, trailing := LayOut(t[2..], n, j, 0);
      ps := Laying(LineEnd(k, true), ps, trailing, t[2..]);
      assert Blanks(k) + t == Blanks(k) + [CR, LF] + t[2..];
    } else if t[0] == LF {
      NextBlank(t, n, j, k > 0);
      ps, trailing := LayOut(t[1..], n, j, 0);
      ps := Laying(LineEnd(k, false), ps, trailing, t[1..]);
      assert Blanks(k) + t == Blanks(k) + [LF] + t[1..];
    } else {
      NextChar(t, n, j, k > 0);
      ps, trailing := LayOut(t[1..], n + 1, if t[0] == PAD then j + 1 else j, 0);
      ps := Laying(Char(t[0]), ps, trailing, t[1..]);
    }
  }

  lemma {:induction false} NextBlank(t: seq<byte>, n: nat, j: nat, spaced: bool)
    requires t != [] && (t[0] == SPACE || t[0] == LF)
    ensures Scanned(t, n, j, spaced) == Scanned(t[1..], n, j, t[0] == SPACE)
    ensures Filtered(t) == Filtered(t[1..]) && t == [t[0]] + t[1..]
  {
    assert Filtered(t) == [] + Filtered(t[1..]);
  }

  lemma {:induction false} NextLine(t: seq<byte>, n: nat, j: nat, spaced: bool)
    requires |t| >= 2 && t[0] == CR && t[1] == LF
    ensures Scanned(t, n, j, spaced) == Scanned(t[2..], n, j, false) && Filtered(t) == Filtered(t[2..])
    ensures t == [CR, LF] + t[2..]
  {
    assert t[1..][1..] == t[2..];
    assert Filtered(t) == Filtered(t[1..]) == Filtered(t[2..]);
  }

  lemma {:induction false} NextChar(t: seq<byte>, n: nat, j: nat, spaced: bool)
    requires t != [] && t[0] != SPACE && t[0] != LF && (|t| < 2 || t[0] != CR || t[1] != LF)
    requires Scanned(t, n, j, spaced).Valid?
    ensures !spaced && Scanned(t[1..], n + 1, if t[0] == PAD then j + 1 else j, false).Valid?
    ensures Filtered(t) == [t[0]] + Filtered(t[1..]) && Blanks(0) + t == t == [t[0]] + t[1..]
  {
    hide DecMap;
    NotBlank(t[0]);
    PadIs(t[0]);
  }

  lemma {:induction false} LaidNothing(k: nat)
    ensures Laid([], k) == Blanks(k) + [] && Chars([]) == Filtered([]) == []
  {
  }

  lemma {:induction false} Laying(p: Piece, ps: seq<Piece>, trailing: nat, t: seq<byte>) returns (qs: seq<Piece>)
    requires Blanks(0) + t == Laid(ps, trailing) && Chars(ps) == Filtered(t)
    ensures Laid(qs, trailing) == (match p
                                   case Char(c) => [c]
                                   case LineEnd(n, cr) => Blanks(n) + if cr then [CR, LF] else [LF]) + t
    ensures Chars(qs) == (if p.Char? then [p.c] else []) + Filtered(t)
  {
    qs := [p] + ps;
    assert Blanks(0) + t == t && qs[1..] == ps;
  }

  lemma {:induction false} BlanksNext(k: nat, t: seq<byte>)
    requires t != [] && t[0] == SPACE
    ensures Blanks(k + 1) + t[1..] == Blanks(k) + t
  {
    hide Blanks;
    BlanksMore(k);
    assert t == [SPACE] + t[1..];
  }

  lemma {:induction false} BlanksMore(k: nat)
    ensures Blanks(k + 1) == Blanks(k) + [SPACE]
  {
    if k > 0 {
      BlanksMore(k - 1);
    }
  }

  lemma {:induction false} NothingScans(n: nat, j: nat)
    ensures Scanned([], n, j, false) == Scanned([], n, j, true) == Valid(n, j) && Filtered([]) == []
  {
  }

  lemma {:induction false} CharScans(c: byte, rest: seq<byte>, cs: seq<byte>, n: nat, j: nat)
    requires WellFormed([c] + cs, j) && j <= 2
    ensures var k := if c == PAD then j + 1 else j;
            && k <= 2 && WellFormed(cs, k)
            && Scanned([c] + rest, n, j, false) == Scanned(rest, n + 1, k, false)
            && Filtered([c] + rest) == [c] + Filtered(rest)
            && j + Pads([c] + cs) == k + Pads(cs)
  {
    assert ([c] + rest)[1..] == rest && ([c] + cs)[1..] == cs;
    NotBlank(c);
  }

  lemma {:induction false} NotBlank(c: byte)
    ensures c == PAD || DecMap(c) < 64 ==> !Blank(c) && c < 128
    ensures DecMap(PAD) == 64
  {
  }

  lemma {:induction false} LineScans(k: nat, cr: bool, rest: seq<byte>, n: nat, j: nat)
    ensures var t := Blanks(k) + (if cr then [CR, LF] else [LF]) + rest;
            Scanned(t, n, j, false) == Scanned(rest, n, j, false) && Filtered(t) == Filtered(rest)
  {
    var lf := [LF] + rest;
    assert lf[1..] == rest;
    if cr {
      var crlf := [CR, LF] + rest;
      assert crlf[1..] == lf;
      ScanBlanks(k, crlf, n, j, false);
      assert Blanks(k) + [CR, LF] + rest == Blanks(k) + crlf;
    } else {
      ScanBlanks(k, lf, n, j, false);
      assert Blanks(k) + [LF] + rest == Blanks(k) + lf;
    }
  }

  // The encoding of s, however broken into lines and with any number of
  // trailing spaces, is accepted, needs |s| bytes and decodes to s.
  lemma {:induction false} LaidDecodes(ps: seq<Piece>, trailing: nat, s: seq<byte>)
    requires Chars(ps) == Encoded(s)
    ensures var t := Laid(ps, trailing);
            && Scanned(t, 0, 0, false) == Valid(|Encoded(s)|, Pads(Encoded(s)))
            && Size(|Encoded(s)|, Pads(Encoded(s))) == |s|
            && Decoded(Filtered(t), 0) == s
  {
    hide *;
    DecodeEncode(s);
    LaidScans(ps, trailing, 0, 0);
  }

  // ---- decoding: the code

  // mbedtls_base64_decode; olen0 is the value *olen has before the call.
  method Decode(dst: array?<byte>, dlen: nat, src: seq<byte>, olen0: nat) returns (ret: int, olen: nat)
    requires dst != null ==> dlen <= dst.Length
    modifies if dst == null then {} else {dst}
    ensures var v := Scanned(src, 0, 0, false);
            && (v.Invalid? ==> ret == INVALID_CHARACTER && olen == olen0)
            && (v.Valid? && v.n == 0 ==> ret == 0 && olen == 0)
            && (v.Valid? && v.n > 0 && (dst == null || dlen < Size(v.n, v.pads)) ==> ret == BUFFER_TOO_SMALL && olen == Size(v.n, v.pads))
            && (v.Valid? && v.n > 0 && dst != null && dlen >= Size(v.n, v.pads) ==> ret == 0 && olen <= Size(v.n, v.pads))
    ensures ret == 0 && dst != null ==> dst[..] == Decoded(Filtered(src), 0) + old(dst[olen..])
    ensures ret == 0 ==> olen == |Decoded(Filtered(src), 0)|
    ensures ret != 0 && dst != null ==> dst[..] == old(dst[..])
  {
    hide Scanned;
    hide Filtered;
    hide Decoded;
    hide WellFormed;
    hide Size;
    var ok, n, j := Check(src);
    if !ok {
      return INVALID_CHARACTER, olen0;
    }
    Announced(src, n, j);
    if n == 0 {
      return 0, 0;
    }
    var size := 6 * (n / 8) + (6 * (n % 8) + 7) / 8;
    size := size - j;
    if dst == null || dlen < size {
      return BUFFER_TOO_SMALL, size;
    }
    olen := WriteAll(dst, src);
    ret := 0;
  }

  lemma {:induction false} Announced(src: seq<byte>, n: nat, j: nat)
    requires Scanned(src, 0, 0, false) == Valid(n, j)
    ensures WellFormed(Filtered(src), 0)
    ensures |Decoded(Filtered(src), 0)| <= Size(n, j)
    ensures Size(n, j) == 6 * (n / 8) + (6 * (n % 8) + 7) / 8 - j >= 0
    ensures n == 0 ==> Decoded(Filtered(src), 0) == []
  {
    hide Scanned;
    hide Filtered;
    hide WellFormed;
    SizeSuffices(src);
    ScanAccepts(src, 0, 0, false);
    if n == 0 {
      NothingDecoded(Filtered(src));
    }
  }

  lemma {:induction false} NothingDecoded(cs: seq<byte>)
    requires |cs| == 0
    ensures Decoded(cs, 0) == []
  {
  }

  // The number the characters of an unfinished group have built up.
  function Partial(t: seq<byte>): nat {
    if t == [] then 0 else Partial(t[..|t| - 1]) * 64 + Value(t[|t| - 1])
  }

  // The second loop.
  method WriteAll(dst: array<byte>, src: seq<byte>) returns (p: nat)
    requires WellFormed(Filtered(src), 0) && |Decoded(Filtered(src), 0)| <= dst.Length
    modifies dst
    ensures p == |Decoded(Filtered(src), 0)| && dst[..] == Decoded(Filtered(src), 0) + old(dst[p..])
  {
    hide *;
    ghost var dst0 := dst[..];
    var j, n, x, k := 3, 0, 0, 0;
    p := 0;
    ghost var cs := [];
    Started(src, dst0);
    while k < |src|
      invariant 0 <= k <= |src| && cs == Filtered(src[..k])
      invariant 0 <= p && Progress(dst[..], dst0, cs, j, n, x, p)
    {
      FilteredNext(src, k);
      ghost var rest := Filtered(src[k + 1..]);
      if src[k] == CR || src[k] == LF || src[k] == SPACE {
        BlankIs(src[k]);
        k := k + 1;
        continue;
      }
      BlankIs(src[k]);
      j, n, x, p := Take(dst, src[k], j, n, x, p, dst0, cs, rest);
      cs := cs + [src[k]];
      k := k + 1;
    }
    Finished(src, dst[..], dst0, cs, j, n, x, p, k);
  }

  ghost predicate Progress(t: seq<byte>, dst0: seq<byte>, cs: seq<byte>, j: int, n: nat, x: nat, p: nat) {
    var g := |cs| - n;
    && n == |cs| % 4 && j == 3 - Pads(cs) && p <= |dst0|
    && p == |Decoded(cs[..g], 0)| && t == Decoded(cs[..g], 0) + dst0[p..]
    && x < 0x1_0000_0000 && x % Power64(n) == Partial(cs[g..])
  }

  function Power64(n: nat): (r: nat)
    ensures r > 0
  {
    if n == 0 then 1 else 64 * Power64(n - 1)
  }

  lemma {:induction false} Started(src: seq<byte>, dst0: seq<byte>)
    ensures Filtered(src[..0]) == [] && Progress(dst0, dst0, [], 3, 0, 0, 0)
  {
    assert dst0[0..] == dst0;
  }

  lemma {:induction false} FilteredJoin(a: seq<byte>, b: seq<byte>)
    ensures Filtered(a + b) == Filtered(a) + Filtered(b)
  {
    if a == [] {
      assert a + b == b;
    } else {
      assert (a + b)[1..] == a[1..] + b;
      FilteredJoin(a[1..], b);
    }
  }

  lemma {:induction false} FilteredNext(src: seq<byte>, k: nat)
    requires k < |src|
    ensures Filtered(src[..k + 1]) == Filtered(src[..k]) + if Blank(src[k]) then [] else [src[k]]
    ensures Filtered(src) == Filtered(src[..k + 1]) + Filtered(src[k + 1..])
  {
    assert src[..k + 1] == src[..k] + [src[k]] && src == src[..k + 1] + src[k + 1..];
    FilteredJoin(src[..k], [src[k]]);
    FilteredJoin(src[..k + 1], src[k + 1..]);
    assert [src[k]][1..] == [];
  }

  lemma {:induction false} BlankIs(c: byte)
    ensures Blank(c) <==> c == CR || c == LF || c == SPACE
  {
  }

  lemma {:induction false} Finished(src: seq<byte>, t: seq<byte>, dst0: seq<byte>, cs: seq<byte>, j: int, n: nat, x: nat, p: nat, k: nat)
    requires k == |src| && cs == Filtered(src[..k]) && Progress(t, dst0, cs, j, n, x, p)
    ensures p == |Decoded(Filtered(src), 0)| && t == Decoded(Filtered(src), 0) + dst0[p..]
  {
    hide Filtered;
    hide Pads;
    hide Partial;
    hide Power64;
    hide Decoded;
    assert src[..k] == src;
    var g := |cs| - n;
    assert cs == cs[..g] + cs[g..];
    DecodedJoin(cs[..g], cs[g..], 0);
    ShortDecodes(cs[g..], Pads(cs[..g]));
  }

  lemma {:induction false} ShortDecodes(t: seq<byte>, e: nat)
    requires |t| < 4
    ensures Decoded(t, e) == []
  {
  }

  // One character that is not a blank.
  method Take(dst: array<byte>, c: byte, j: int, n: nat, x: nat, p: nat, ghost dst0: seq<byte>, ghost cs: seq<byte>, ghost rest: seq<byte>)
    returns (j': int, n': nat, x': nat, p': nat)
    requires |dst0| == dst.Length && Progress(dst[..], dst0, cs, j, n, x, p)
    requires WellFormed(cs + [c] + rest, 0) && |Decoded(cs + [c] + rest, 0)| <= dst.Length
    modifies dst
    ensures Progress(dst[..], dst0, cs + [c], j', n', x', p')
  {
    hide *;
    j', p' := j, p;
    if DecMap(c) == 64 {
      j' := j' - 1;
    }
    x' := x * 64 % 0x1_0000_0000 + DecMap(c) % 64;
    n' := n + 1;
    Counted(dst[..], dst0, cs, j, n, x, p, c, rest, x', j');
    if n' == 4 {
      n' := 0;
      GroupDone(cs, c, rest, x', j');
      WriteGroup(dst, x', j', p);
      p' := p + j';
      PlaceGroup(dst0, cs, c, x', j', p, dst[..]);
    } else {
      PlaceNothing(dst[..], dst0, cs, j, n, x, p, c, x', j');
    }
  }

  lemma {:induction false} Counted(t: seq<byte>, dst0: seq<byte>, cs: seq<byte>, j: int, n: nat, x: nat, p: nat,
                                   c: byte, rest: seq<byte>, x': nat, j': int)
    requires Progress(t, dst0, cs, j, n, x, p) && WellFormed(cs + [c] + rest, 0)
    requires x' == x * 64 % 0x1_0000_0000 + DecMap(c) % 64 && j' == if DecMap(c) == 64 then j - 1 else j
    ensures n < 4 && n <= |cs| && p <= |dst0| && t == Decoded(cs[..|cs| - n], 0) + dst0[p..] && p == |Decoded(cs[..|cs| - n], 0)|
    ensures n == 3 ==> (|cs| + 1) % 4 == 0
    ensures j' == 3 - Pads(cs + [c]) && 1 <= j' <= 3
    ensures x' < 0x1_0000_0000 && x' % Power64(n + 1) == Partial(cs[|cs| - n..] + [c])
  {
    hide DecMap;
    hide Decoded;
    hide WellFormed;
    hide Partial;
    PadsJoin(cs, [c]);
    PadsJoin(cs + [c], rest);
    PadsBound(cs + [c] + rest, 0);
    PadIs(c);
    NextPartial(cs[|cs| - n..], c);
    ShiftIn(x, DecMap(c) % 64, n);
  }

  lemma {:induction false} PadIs(c: byte)
    ensures DecMap(c) == 64 <==> c == PAD
    ensures Pads([c]) == if c == PAD then 1 else 0
  {
    assert [c][1..] == [];
  }

  lemma {:induction false} NextPartial(t: seq<byte>, c: byte)
    ensures Partial(t + [c]) == Partial(t) * 64 + Value(c)
  {
    assert (t + [c])[..|t|] == t;
  }

  // Shifting six bits into a 32-bit word keeps the lowest ones.
  lemma {:induction false} ShiftIn(x: nat, v: nat, n: nat)
    requires x < 0x1_0000_0000 && v < 64 && n < 4
    ensures var y := x * 64 % 0x1_0000_0000 + v;
            y < 0x1_0000_0000 && y % Power64(n + 1) == x % Power64(n) * 64 + v
  {
    hide Power64;
    var k, z := x * 64 / 0x1_0000_0000, x * 64 % 0x1_0000_0000;
    ShiftedOut(x, z, v, k);
    Powers64();
    if n == 0 {
    } else if n == 1 {
      ShiftIn1(x, z, v, k);
    } else if n == 2 {
      ShiftIn2(x, z, v, k);
    } else {
      ShiftIn3(x, z, v, k);
    }
  }

  lemma {:induction false} ShiftedOut(x: nat, z: nat, v: nat, k: nat)
    requires k == x * 64 / 0x1_0000_0000 && z == x * 64 % 0x1_0000_0000 && v < 64
    ensures x * 64 == 0x1_0000_0000 * k + z && z % 64 == 0
    ensures (z + v) % 64 == x % 1 * 64 + v && z + v < 0x1_0000_0000
  {
    ModIs(z, x - 67108864 * k, 0, 64);
    ModIs(z + v, x - 67108864 * k, v, 64);
  }

  lemma {:induction false} Powers64()
    ensures Power64(0) == 1 && Power64(1) == 64 && Power64(2) == 4096 && Power64(3) == 262144 && Power64(4) == 16777216
  {
    assert Power64(2) == 64 * Power64(1);
    assert Power64(4) == 64 * Power64(3);
  }

  lemma {:induction false} ShiftIn1(x: nat, z: nat, v: nat, k: nat)
    requires x * 64 == 0x1_0000_0000 * k + z && v < 64 && z % 64 == 0
    ensures (z + v) % 4096 == x % 64 * 64 + v
  {
    var q: int := x / 64 - 1048576 * k;
    assert z + v == 4096 * q + (x % 64 * 64 + v);
    ModIs(z + v, q, x % 64 * 64 + v, 4096);
  }

  lemma {:induction false} ShiftIn2(x: nat, z: nat, v: nat, k: nat)
    requires x * 64 == 0x1_0000_0000 * k + z && v < 64 && z % 64 == 0
    ensures (z + v) % 262144 == x % 4096 * 64 + v
  {
    var q: int := x / 4096 - 16384 * k;
    assert z + v == 262144 * q + (x % 4096 * 64 + v);
    ModIs(z + v, q, x % 4096 * 64 + v, 262144);
  }

  lemma {:induction false} ShiftIn3(x: nat, z: nat, v: nat, k: nat)
    requires x * 64 == 0x1_0000_0000 * k + z && v < 64 && z % 64 == 0
    ensures (z + v) % 16777216 == x % 262144 * 64 + v
  {
    var q: int := x / 262144 - 256 * k;
    assert z + v == 16777216 * q + (x % 262144 * 64 + v);
    ModIs(z + v, q, x % 262144 * 64 + v, 16777216);
  }

  // The three conditional writes.
  method WriteGroup(dst: array<byte>, x: nat, j: int, p: nat)
    requires 0 <= j <= 3 && p + j <= dst.Length
    modifies dst
    ensures dst[..] == old(dst[..p]) + Group(x, j) + old(dst[p + j..])
  {
    if j > 0 { dst[p] := x / 65536 % 256; }
    if j > 1 { dst[p + 1] := x / 256 % 256; }
    if j > 2 { dst[p + 2] := x % 256; }
  }

  lemma {:induction false} GroupDone(cs: seq<byte>, c: byte, rest: seq<byte>, x: nat, j: int)
    requires |cs| >= 3 && (|cs| + 1) % 4 == 0
    requires j == 3 - Pads(cs + [c]) && 1 <= j <= 3
    requires x % Power64(4) == Partial(cs[|cs| - 3..] + [c])
    ensures Decoded(cs + [c], 0) == Decoded(cs[..|cs| - 3], 0) + Group(x, j)
    ensures |Decoded(cs[..|cs| - 3], 0)| + j <= |Decoded(cs + [c] + rest, 0)|
  {
    hide Group;
    hide Word24;
    hide Partial;
    hide Power64;
    hide Pads;
    hide Decoded;
    var a, q := cs[..|cs| - 3], cs[|cs| - 3..] + [c];
    assert cs + [c] == a + q;
    DecodedJoin(a, q, 0);
    PadsJoin(a, q);
    OneGroup(q, Pads(a));
    PartialWord(q);
    LowBits(x, j);
    DecodedJoin(cs + [c], rest, 0);
  }

  lemma {:induction false} OneGroup(q: seq<byte>, e: nat)
    requires |q| == 4 && e + Pads(q) <= 2
    ensures Decoded(q, e) == Group(Word24(q[0], q[1], q[2], q[3]), 3 - (e + Pads(q)))
  {
    hide Group;
    hide Word24;
    hide Pads;
    assert q[..4] == q;
    assert Decoded(q[4..], e + Pads(q)) == [];
  }

  lemma {:induction false} PartialWord(q: seq<byte>)
    requires |q| == 4
    ensures Partial(q) == Word24(q[0], q[1], q[2], q[3])
  {
    hide Value;
    assert q == [] + [q[0]] + [q[1]] + [q[2]] + [q[3]];
    NextPartial([], q[0]);
    NextPartial([q[0]], q[1]);
    NextPartial([q[0], q[1]], q[2]);
    NextPartial([q[0], q[1], q[2]], q[3]);
    assert [] + [q[0]] == [q[0]] && [q[0]] + [q[1]] == [q[0], q[1]] && [q[0], q[1]] + [q[2]] == [q[0], q[1], q[2]];
    assert [q[0], q[1], q[2]] + [q[3]] == q;
  }

  lemma {:induction false} LowBits(x: nat, k: nat)
    requires k <= 3
    ensures Group(x % Power64(4), k) == Group(x, k)
  {
    Powers64();
    var h, y := x / 16777216, x % 16777216;
    var a, b, c := y / 65536, y / 256 % 256, y % 256;
    assert x == 16777216 * h + 65536 * a + 256 * b + c;
    ModIs(x, 65536 * h + 256 * a + b, c, 256);
    assert x / 256 == 65536 * h + 256 * a + b;
    ModIs(x / 256, 256 * h + a, b, 256);
    assert x / 65536 == 256 * h + a;
    ModIs(x / 65536, h, a, 256);
  }

  lemma {:induction false} PlaceGroup(dst0: seq<byte>, cs: seq<byte>, c: byte, x: nat, j: int, p: nat, t: seq<byte>)
    requires |cs| >= 3 && (|cs| + 1) % 4 == 0 && j == 3 - Pads(cs + [c]) && 1 <= j <= 3 && x < 0x1_0000_0000
    requires var d := Decoded(cs[..|cs| - 3], 0);
             && p == |d| && p + j <= |dst0| && Decoded(cs + [c], 0) == d + Group(x, j)
             && var before := d + dst0[p..]; t == before[..p] + Group(x, j) + before[p + j..]
    ensures Progress(t, dst0, cs + [c], j, 0, x, p + j)
  {
    hide Decoded;
    hide Group;
    hide Pads;
    var e := cs + [c];
    assert e[..|e|] == e && e[|e|..] == [];
    assert Power64(0) == 1 && Partial([]) == 0;
  }

  lemma {:induction false} PlaceNothing(t: seq<byte>, dst0: seq<byte>, cs: seq<byte>, j: int, n: nat, x: nat, p: nat,
                                        c: byte, x': nat, j': int)
    requires Progress(t, dst0, cs, j, n, x, p) && n + 1 < 4
    requires j' == 3 - Pads(cs + [c]) && x' < 0x1_0000_0000 && x' % Power64(n + 1) == Partial(cs[|cs| - n..] + [c])
    ensures Progress(t, dst0, cs + [c], j', n + 1, x', p)
  {
    hide Decoded;
    hide Pads;
    hide Partial;
    hide Power64;
    var e, g := cs + [c], |cs| - n;
    assert e[..g] == cs[..g] && e[g..] == cs[g..] + [c];
  }
}
