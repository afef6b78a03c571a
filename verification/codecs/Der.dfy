// DER encodings as byte strings, and what a parser reads from them: what
// misc/mbedtls/library/asn1write.c writes and misc/mbedtls/library/asn1parse.c
// reads. Sections 8.1.3, 8.3 and 11.2.2 of ITU-T X.690.
module Der {
  import opened Bytes
  import opened Bits

  const OUT_OF_DATA: int := -0x60
  const UNEXPECTED_TAG: int := -0x62
  const INVALID_LENGTH: int := -0x64
  const LENGTH_MISMATCH: int := -0x66
  const INVALID_DATA: int := -0x68
  const BUF_TOO_SMALL: int := -0x6C

  const BIT_STRING: byte := 0x03
  const NULL: byte := 0x05
  const OID: byte := 0x06
  const SEQUENCE: byte := 0x30

  // ---- encodings

  // v as n bytes, most significant first.
  function BigEndian(v: nat, n: nat): (s: seq<byte>)
    ensures |s| == n
  {
    if n == 0 then [] else BigEndian(v / 256, n - 1) + [v % 256]
  }

  function Number(s: seq<byte>): nat {
    if s == [] then 0 else 256 * Number(s[..|s| - 1]) + s[|s| - 1]
  }

  // The length octets, shortest form.
  function LenBytes(n: nat): (s: seq<byte>)
    requires n < 0x1_0000_0000
    ensures 1 <= |s| <= 5
  {
    if n < 0x80 then [n]
    else if n <= 0xFF then [0x81] + BigEndian(n, 1)
    else if n <= 0xFFFF then [0x82] + BigEndian(n, 2)
    else if n <= 0xFF_FFFF then [0x83] + BigEndian(n, 3)
    else [0x84] + BigEndian(n, 4)
  }

  function Tlv(tag: byte, content: seq<byte>): seq<byte>
    requires |content| < 0x1_0000_0000
  {
    [tag] + LenBytes(|content|) + content
  }

  // The digits a do-while loop peels off, least significant last.
  function Octets(v: int): (s: seq<byte>)
    ensures |s| >= 1
    decreases if v > 0 then v else 0
  {
    if v / 256 > 0 then Octets(v / 256) + [v % 256] else [v % 256]
  }

  // The content octets of an integer.
  function IntContent(v: int): (s: seq<byte>)
    ensures |s| >= 1
  {
    var d := Octets(v);
    if d[0] >= 0x80 then [0] + d else d
  }

  // ---- what a parser reads; the argument runs from the cursor to the end

  datatype Len = LenError(code: int) | LenOk(len: nat, used: nat)

  // get_len
  function ParseLen(s: seq<byte>): (r: Len)
    ensures r.LenOk? ==> 1 <= r.used <= 5 && r.used + r.len <= |s|
  {
    if |s| < 1 then LenError(OUT_OF_DATA)
    else
      var k := if s[0] < 0x80 then 0 else s[0] % 0x80;
      if s[0] >= 0x80 && !(1 <= k <= 4) then LenError(INVALID_LENGTH)
      else if |s| < 1 + k then LenError(OUT_OF_DATA)
      else
        var n := if s[0] < 0x80 then s[0] as nat else Number(s[1..1 + k]);
        if n > |s| - 1 - k then LenError(OUT_OF_DATA) else LenOk(n, 1 + k)
  }

  // get_tag: the tag and the length after it.
  function ParseTag(s: seq<byte>, tag: byte): (r: Len)
    ensures r.LenOk? ==> 2 <= r.used <= 6 && r.used + r.len <= |s|
  {
    if |s| < 1 then LenError(OUT_OF_DATA)
    else if s[0] != tag then LenError(UNEXPECTED_TAG)
    else match ParseLen(s[1..])
      case LenError(e) => LenError(e)
      case LenOk(n, u) => LenOk(n, 1 + u)
  }

  datatype Int = IntError(code: int) | IntOk(val: nat, used: nat)

  // The bytes without leading zeros.
  function Stripped(s: seq<byte>): (t: seq<byte>)
    ensures |t| <= |s|
  {
    if s != [] && s[0] == 0 then Stripped(s[1..]) else s
  }

  // get_tagged_int for a 32-bit int.
  function ParseInt(s: seq<byte>, tag: byte): Int {
    match ParseTag(s, tag)
    case LenError(e) => IntError(e)
    case LenOk(n, u) =>
      var c := s[u..u + n];
      if n == 0 || c[0] >= 0x80 then IntError(INVALID_LENGTH)
      else
        var d := Stripped(c);
        if |d| > 4 || (|d| == 4 && d[0] >= 0x80) then IntError(INVALID_LENGTH)
        else IntOk(Number(d), u + n)
  }

  // ---- lengths

  lemma {:induction false} NumberJoin(s: seq<byte>, b: byte)
    ensures Number(s + [b]) == 256 * Number(s) + b
  {
    assert (s + [b])[..|s|] == s;
  }

  lemma {:induction false} Powers()
    ensures Radix(0) == 1 && Radix(1) == 256 && Radix(2) == 65536 && Radix(3) == 16777216 && Radix(4) == 0x1_0000_0000
  {
    assert Radix(2) == 256 * Radix(1);
    assert Radix(4) == 256 * Radix(3);
  }

  lemma {:induction false} NumberOfBigEndian(v: nat, n: nat)
    requires v < Radix(n)
    ensures Number(BigEndian(v, n)) == v
  {
    if n > 0 {
      NumberOfBigEndian(v / 256, n - 1);
      NumberJoin(BigEndian(v / 256, n - 1), v % 256);
    }
  }

  // The short form below 0x80; otherwise the number of digits, with no leading
  // zero among them.
  lemma {:induction false} LenBytesIs(n: nat)
    requires n < 0x1_0000_0000
    ensures n < 0x80 ==> LenBytes(n) == [n]
    ensures n >= 0x80 ==> var s := LenBytes(n);
              2 <= |s| <= 5 && s[0] == 0x7F + |s| && s[1] != 0 && Number(s[1..]) == n
  {
    hide Number;
    hide BigEndian;
    if n >= 0x80 {
      var k := |LenBytes(n)| - 1;
      Powers();
      NumberOfBigEndian(n, k);
      assert LenBytes(n)[1..] == BigEndian(n, k);
      FirstDigit(n, k);
    }
  }

  lemma {:induction false} FirstDigit(n: nat, k: nat)
    requires k > 0 && Radix(k - 1) <= n < Radix(k)
    ensures BigEndian(n, k)[0] != 0
  {
    if k > 1 {
      FirstDigit(n / 256, k - 1);
    }
  }

  lemma {:induction false} TlvIs(tag: byte, c: seq<byte>)
    requires |c| < 0x1_0000_0000
    ensures var t := Tlv(tag, c); var u := |t| - |c|;
            u > 0 && t[0] == tag && t[1..u] == LenBytes(|c|) && t[u..] == c
  {
    hide LenBytes;
  }

  // Which lengths are read, also in longer forms than necessary, and which
  // error the others give.
  lemma {:induction false} ParseLenIs(s: seq<byte>, n: nat, u: nat)
    ensures ParseLen(s) == LenOk(n, u) <==>
              && 1 <= u <= 5 && u + n <= |s|
              && (if u == 1 then s[0] == n < 0x80 else s[0] == 0x7F + u && n == Number(s[1..u]))
    ensures var r := ParseLen(s);
            r.LenError? ==> r.code == if s != [] && (s[0] == 0x80 || s[0] > 0x84) then INVALID_LENGTH else OUT_OF_DATA
  {
    hide Number;
  }

  lemma {:induction false} ParseTagIs(s: seq<byte>, tag: byte, n: nat, u: nat)
    ensures ParseTag(s, tag) == LenOk(n, u) <==> s != [] && s[0] == tag && u > 0 && ParseLen(s[1..]) == LenOk(n, u - 1)
    ensures s != [] && s[0] != tag <==> ParseTag(s, tag) == LenError(UNEXPECTED_TAG)
    ensures s == [] ==> ParseTag(s, tag) == LenError(OUT_OF_DATA)
    ensures s != [] && s[0] == tag && ParseLen(s[1..]).LenError? ==> ParseTag(s, tag) == ParseLen(s[1..])
  {
    hide Number;
  }

  // Written lengths are read back and exactly their octets are consumed.
  lemma {:induction false} LenRoundTrip(n: nat, rest: seq<byte>)
    requires n < 0x1_0000_0000 && n <= |rest|
    ensures ParseLen(LenBytes(n) + rest) == LenOk(n, |LenBytes(n)|)
  {
    hide Number;
    hide BigEndian;
    var h := LenBytes(n);
    if n >= 0x80 {
      var k := |h| - 1;
      Powers();
      NumberOfBigEndian(n, k);
      assert (h + rest)[1..1 + k] == h[1..] == BigEndian(n, k);
    }
  }

  // A nested value is found between its header and the rest.
  lemma {:induction false} TagRoundTrip(tag: byte, c: seq<byte>, rest: seq<byte>)
    requires |c| < 0x1_0000_0000
    ensures var s := Tlv(tag, c) + rest;
            var u := |Tlv(tag, c)| - |c|;
            ParseTag(s, tag) == LenOk(|c|, u) && s[u..u + |c|] == c
  {
    hide ParseLen;
    hide LenBytes;
    var s := Tlv(tag, c) + rest;
    assert s[1..] == LenBytes(|c|) + (c + rest);
    LenRoundTrip(|c|, c + rest);
  }

  // ---- integers

  lemma {:induction false} OctetsNumber(v: nat)
    ensures Number(Octets(v)) == v
    ensures v > 0 ==> Octets(v)[0] != 0
    ensures v == 0 ==> Octets(v) == [0]
    ensures Radix(|Octets(v)| - 1) <= v || v == 0
  {
    var d := Octets(v);
    if v / 256 > 0 {
      OctetsNumber(v / 256);
      NumberJoin(Octets(v / 256), v % 256);
    } else {
      assert d == [] + [v % 256];
      NumberJoin([], v % 256);
    }
  }

  // Content octets of a non-negative number: its digits, in as few octets as
  // leave the top bit clear. Of a negative one, those of its lowest byte.
  lemma {:induction false} IntContentIs(v: int)
    ensures v >= 0 ==> var c := IntContent(v);
              c[0] < 0x80 && Number(c) == v && (|c| > 1 && c[0] == 0 ==> c[1] >= 0x80)
    ensures v < 0 ==> IntContent(v) == IntContent(v % 256)
  {
    hide Number;
    hide Octets;
    if v >= 0 {
      OctetsNumber(v);
      NumberPadded(Octets(v));
    } else {
      SameOctets(v);
    }
  }

  lemma {:induction false} NumberPadded(d: seq<byte>)
    ensures Number([0] + d) == Number(d)
  {
    if d == [] {
      assert Number([0]) == 256 * Number([]) + 0;
    } else {
      var n := |d| - 1;
      NumberPadded(d[..n]);
      assert ([0] + d)[..n + 1] == [0] + d[..n];
    }
  }

  // What is read as an integer: every number below 2^31 whose first octet has
  // a clear top bit, whatever the number of leading zeros.
  lemma {:induction false} ParseIntIs(s: seq<byte>, tag: byte)
    ensures match ParseTag(s, tag)
            case LenError(e) => ParseInt(s, tag) == IntError(e)
            case LenOk(n, u) =>
              var c := s[u..u + n];
              ParseInt(s, tag) == if n > 0 && c[0] < 0x80 && Number(c) < 0x8000_0000 then IntOk(Number(c), u + n)
                                  else IntError(INVALID_LENGTH)
  {
    hide ParseTag;
    hide Number;
    hide Stripped;
    var t := ParseTag(s, tag);
    if t.LenOk? {
      var c := s[t.used..t.used + t.len];
      StrippedNumber(c);
      Narrow(Stripped(c));
    }
  }

  lemma {:induction false} StrippedNumber(c: seq<byte>)
    ensures var d := Stripped(c); Number(d) == Number(c) && (d != [] ==> d[0] != 0)
  {
    hide Number;
    if c != [] && c[0] == 0 {
      StrippedNumber(c[1..]);
      NumberPadded(c[1..]);
      assert [0] + c[1..] == c;
    }
  }

  // Without leading zeros a number is below 2^31 if and only if it has fewer
  // than four digits or four and a clear top bit.
  lemma {:induction false} Narrow(d: seq<byte>)
    requires d != [] ==> d[0] != 0
    ensures Number(d) < 0x8000_0000 <==> |d| < 4 || (|d| == 4 && d[0] < 0x80)
  {
    hide Number;
    hide Radix;
    Powers();
    Empty();
    if d != [] {
      NumberBounds(d);
      if |d| > 4 {
        PowerMono(4, |d| - 1);
        Least(d[0], Radix(|d| - 1));
      } else if |d| < 4 {
        PowerMono(|d|, 3);
        Most(d[0], Radix(|d| - 1));
        RadixNext(|d| - 1);
      } else {
        assert d[0] as int * Radix(3) == 16777216 * d[0] as int;
      }
    }
  }

  lemma {:induction false} Least(b: nat, r: nat)
    requires b > 0
    ensures b * r >= r
  {
  }

  lemma {:induction false} Most(b: byte, r: nat)
    ensures b * r + r <= 256 * r
  {
    assert b * r + r == (b + 1) * r;
    assert (b + 1) * r <= 256 * r;
  }

  lemma {:induction false} RadixNext(n: nat)
    ensures Radix(n + 1) == 256 * Radix(n)
  {
  }

  lemma {:induction false} NumberBounds(d: seq<byte>)
    requires d != []
    ensures var r := Radix(|d| - 1); d[0] * r <= Number(d) < d[0] * r + r
  {
    hide Radix;
    var n := |d| - 1;
    Powers();
    Empty();
    if n > 0 {
      NumberBounds(d[..n]);
      RadixNext(n - 1);
      Scaled(d[0], Radix(n - 1), Number(d[..n]), d[n]);
    } else {
      assert d[..0] == [];
    }
  }

  lemma {:induction false} Scaled(b: nat, r: nat, m: nat, x: byte)
    requires b * r <= m < b * r + r
    ensures b * (256 * r) <= 256 * m + x < b * (256 * r) + 256 * r
  {
    assert b * (256 * r) == 256 * (b * r);
  }

  lemma {:induction false} StrippedNone(s: seq<byte>)
    requires s != [] ==> s[0] != 0
    ensures Stripped(s) == s
  {
  }

  // Every non-negative int comes back, and the parser stops at its end. A
  // negative one is written as its lowest byte and comes back as that.
  lemma {:induction false} IntRoundTrip(tag: byte, v: int, rest: seq<byte>)
    requires -0x8000_0000 <= v < 0x8000_0000
    ensures |IntContent(v)| <= 5
    ensures var t := Tlv(tag, IntContent(v));
            ParseInt(t + rest, tag) == IntOk(if v >= 0 then v else v % 256, |t|)
  {
    hide ParseTag;
    var w := if v >= 0 then v else v % 256;
    SameOctets(v);
    OctetsShort(w);
    var c := IntContent(w);
    assert c == IntContent(v);
    TagRoundTrip(tag, c, rest);
    ContentNumber(w);
  }

  lemma {:induction false} SameOctets(v: int)
    ensures v < 0 ==> Octets(v) == Octets(v % 256)
  {
  }

  lemma {:induction false} OctetsShort(v: nat)
    requires v < 0x8000_0000
    ensures |Octets(v)| <= 4 && |IntContent(v)| <= 5
  {
    OctetsNumber(v);
    Powers();
    if |Octets(v)| > 4 {
      PowerMono(4, |Octets(v)| - 1);
    }
  }

  lemma {:induction false} PowerMono(m: nat, n: nat)
    requires m <= n
    ensures Radix(m) <= Radix(n)
  {
    if m < n { PowerMono(m, n - 1); }
  }

  lemma {:induction false} ContentNumber(v: nat)
    requires v < 0x8000_0000
    ensures var c, d := IntContent(v), Stripped(IntContent(v));
            c[0] < 0x80 && Number(d) == v && |d| <= 4 && (|d| == 4 ==> d[0] < 0x80)
  {
    hide Number;
    var d := Octets(v);
    OctetsNumber(v);
    OctetsShort(v);
    if v == 0 {
      assert Stripped([0]) == Stripped([0][1..]) == [];
      assert Number([]) == 0 by { Empty(); }
    } else {
      StrippedNone(d);
      assert ([0] + d)[1..] == d;
      if |d| == 4 && d[0] >= 0x80 { TopDigit(d); }
    }
  }

  lemma {:induction false} Empty()
    ensures Number([]) == 0
  {
  }

  lemma {:induction false} TopDigit(d: seq<byte>)
    requires |d| == 4
    ensures Number(d) >= 16777216 * (d[0] as int)
  {
    assert d[..3][..2] == d[..2] && d[..2][..1] == d[..1] && d[..1][..0] == [];
    assert Number(d[..1]) == d[0];
    assert Number(d[..2]) >= 256 * (d[0] as int);
    assert Number(d[..3]) >= 65536 * (d[0] as int);
  }

  // The round trip holds for exactly the non-negative values.
  lemma {:induction false} IntRoundTripIff(tag: byte, v: int, rest: seq<byte>)
    requires -0x8000_0000 <= v < 0x8000_0000
    ensures |IntContent(v)| <= 5
    ensures (var r := ParseInt(Tlv(tag, IntContent(v)) + rest, tag); r.IntOk? && r.val == v) <==> v >= 0
  {
    hide ParseInt;
    IntRoundTrip(tag, v, rest);
  }

  // -1 is written as one byte and read back as 255.
  lemma {:induction false} MinusOneComesBackAs255(tag: byte, rest: seq<byte>)
    ensures |IntContent(-1)| <= 5
    ensures var r := ParseInt(Tlv(tag, IntContent(-1)) + rest, tag); r.IntOk? && r.val == 255
  {
    hide ParseInt;
    IntRoundTrip(tag, -1, rest);
  }

  // ---- bit strings

  // Bit i, counted from the most significant bit of the first byte.
  predicate BitAt(b: seq<byte>, i: nat)
    requires i < 8 * |b|
  {
    Shr(b[i / 8], 7 - i % 8) % 2 == 1
  }

  lemma {:induction false} BitAtIs(b: seq<byte>, i: nat)
    requires i < 8 * |b|
    ensures BitAt(b, i) <==> b[i / 8] / [128, 64, 32, 16, 8, 4, 2, 1][i % 8] % 2 == 1
  {
    hide Shr;
    var x := b[i / 8];
    Shifted(x);
    assert [128, 64, 32, 16, 8, 4, 2, 1][i % 8] == if i % 8 < 4 then if i % 8 < 2 then if i % 8 == 0 then 128 else 64 else if i % 8 == 2 then 32 else 16
                                                   else if i % 8 < 6 then if i % 8 == 4 then 8 else 4 else if i % 8 == 6 then 2 else 1;
  }

  lemma {:induction false} Shifted(x: nat)
    ensures Shr(x, 0) == x && Shr(x, 1) == x / 2 && Shr(x, 2) == x / 4 && Shr(x, 3) == x / 8
    ensures Shr(x, 4) == x / 16 && Shr(x, 5) == x / 32 && Shr(x, 6) == x / 64 && Shr(x, 7) == x / 128
  {
    hide Shr;
    ShrNext(x, 0);
    ShrNext(x, 1);
    ShrNext(x, 2);
    ShrNext(x, 3);
    ShrNext(x, 4);
    ShrNext(x, 5);
    ShrNext(x, 6);
  }

  lemma {:induction false} ShrNext(x: nat, n: nat)
    ensures Shr(x, n + 1) == Shr(x, n) / 2 && Shr(x, 0) == x
  {
    if n > 0 {
      ShrNext(x / 2, n - 1);
    }
  }

  function ByteLen(bits: nat): nat { (bits + 7) / 8 }

  function Unused(bits: nat): (u: nat)
    ensures u < 8
  {
    8 * ByteLen(bits) - bits
  }

  // x & ~( ( 1 << u ) - 1 )
  function ClearLow(x: byte, u: nat): byte {
    ClearedBound(x, u);
    Shl(Shr(x, u), u)
  }

  lemma {:induction false} ClearedBound(x: nat, u: nat)
    ensures Shl(Shr(x, u), u) <= x
  {
    var r := ShrSplit(x, u);
  }

  function BitContent(b: seq<byte>, bits: nat): (c: seq<byte>)
    requires ByteLen(bits) <= |b|
    ensures |c| == 1 + ByteLen(bits)
  {
    var n := ByteLen(bits);
    [Unused(bits)] + if n == 0 then [] else b[..n - 1] + [ClearLow(b[n - 1], Unused(bits))]
  }

  // The number of bits up to the last one that is set.
  function NamedBits(b: seq<byte>, bits: nat): (r: nat)
    requires bits <= 8 * |b|
    ensures r <= bits
  {
    if bits == 0 || BitAt(b, bits - 1) then bits else NamedBits(b, bits - 1)
  }

  // Exactly the trailing zero bits are dropped.
  lemma {:induction false} NamedBitsIs(b: seq<byte>, bits: nat, r: nat)
    requires bits <= 8 * |b|
    ensures r == NamedBits(b, bits) <==> r <= bits && (r > 0 ==> BitAt(b, r - 1)) && (forall i :: r <= i < bits ==> !BitAt(b, i))
  {
    hide BitAt;
    if bits > 0 && !BitAt(b, bits - 1) {
      NamedBitsIs(b, bits - 1, r);
    }
  }

  datatype BitString = BitError(code: int) | BitOk(len: nat, unused: nat, start: nat)

  // get_bitstring: the bit string must reach the end of the data.
  function ParseBits(s: seq<byte>): BitString {
    match ParseTag(s, BIT_STRING)
    case LenError(e) => BitError(e)
    case LenOk(n, u) =>
      if n < 1 then BitError(OUT_OF_DATA)
      else if s[u] > 7 then BitError(INVALID_LENGTH)
      else if u + n != |s| then BitError(LENGTH_MISMATCH)
      else BitOk(n - 1, s[u], u + 1)
  }

  lemma {:induction false} ShrShr(x: nat, m: nat, n: nat)
    ensures Shr(Shr(x, m), n) == Shr(x, m + n)
  {
    if m > 0 { ShrShr(x / 2, m - 1, n); }
  }

  lemma {:induction false} ShrShl(x: nat, n: nat)
    ensures Shr(Shl(x, n), n) == x
  {
    if n > 0 { ShrShl(x, n - 1); }
  }

  // Clearing the lowest u bits does not change the others.
  lemma {:induction false} ClearKeeps(x: byte, u: nat, k: nat)
    requires u <= k
    ensures Shr(ClearLow(x, u), k) == Shr(x, k)
  {
    ShrShr(x, u, k - u);
    ShrShr(ClearLow(x, u), u, k - u);
    ShrShl(Shr(x, u), u);
  }

  // And leaves zeros there.
  lemma {:induction false} ClearClears(x: byte, u: nat, k: nat)
    requires k < u
    ensures Shr(ClearLow(x, u), k) % 2 == 0
  {
    var y := Shr(x, u);
    hide Shr;
    hide Shl;
    ShlShl(y, u - k, k);
    ShrShl(Shl(y, u - k), k);
    ShlEven(y, u - k);
  }

  lemma {:induction false} ShlEven(y: nat, n: nat)
    requires n > 0
    ensures Shl(y, n) % 2 == 0
  {
  }

  // The bits come back, the unused ones as zeros; anything after the bit
  // string is refused.
  lemma {:induction false} BitsRoundTrip(b: seq<byte>, bits: nat, rest: seq<byte>)
    requires bits <= 8 * |b| && ByteLen(bits) < 0xFFFF_FFFF
    ensures var t := Tlv(BIT_STRING, BitContent(b, bits));
            if rest == [] then ParseBits(t + rest) == BitOk(ByteLen(bits), Unused(bits), |t| - ByteLen(bits))
            else ParseBits(t + rest) == BitError(LENGTH_MISMATCH)
    ensures var c := BitContent(b, bits)[1..];
            && |c| == ByteLen(bits)
            && (forall i: nat :: i < bits ==> (BitAt(c, i) <==> BitAt(b, i)))
            && (forall i: nat :: bits <= i < 8 * |c| ==> !BitAt(c, i))
  {
    hide ParseTag;
    hide Tlv;
    hide BitAt;
    var c, t := BitContent(b, bits), Tlv(BIT_STRING, BitContent(b, bits));
    TagRoundTrip(BIT_STRING, c, rest);
    var u := |t| - |c|;
    assert (t + rest)[u] == (t + rest)[u..u + |c|][0] == c[0];
    forall i: nat | i < 8 * |c[1..]| ensures BitAt(c[1..], i) <==> i < bits && BitAt(b, i) {
      WrittenBit(b, bits, i);
    }
  }

  // As many octets as hold the bits, behind the number of unused ones.
  lemma {:induction false} BitContentIs(b: seq<byte>, bits: nat)
    requires bits <= 8 * |b|
    ensures var c := BitContent(b, bits);
            && c[0] < 8 && bits == 8 * (|c| - 1) - c[0]
            && (forall i :: 0 <= i < bits / 8 ==> c[i + 1] == b[i])
  {
    hide ClearLow;
    if bits % 8 == 0 && bits > 0 {
      ClearNone(b[bits / 8 - 1]);
    }
  }

  lemma {:induction false} ClearNone(x: byte)
    ensures ClearLow(x, 0) == x
  {
  }

  // What is read as a bit string.
  lemma {:induction false} ParseBitsIs(s: seq<byte>, len: nat, unused: nat, start: nat)
    ensures ParseBits(s) == BitOk(len, unused, start) <==>
              && start > 0 && ParseTag(s, BIT_STRING) == LenOk(len + 1, start - 1)
              && start + len == |s| && unused == s[start - 1] <= 7
    ensures ParseTag(s, BIT_STRING).LenError? ==> ParseBits(s) == BitError(ParseTag(s, BIT_STRING).code)
  {
    hide ParseTag;
  }

  lemma {:induction false} WrittenBit(b: seq<byte>, bits: nat, i: nat)
    requires bits <= 8 * |b| && i < 8 * ByteLen(bits)
    ensures BitAt(BitContent(b, bits)[1..], i) <==> i < bits && BitAt(b, i)
  {
    var n, u, c := ByteLen(bits), Unused(bits), BitContent(b, bits)[1..];
    if i / 8 < n - 1 {
      assert c[i / 8] == b[i / 8];
    } else {
      assert i / 8 == n - 1 && c[n - 1] == ClearLow(b[n - 1], u);
      var k := 7 - i % 8;
      if k >= u {
        ClearKeeps(b[n - 1], u, k);
      } else {
        ClearClears(b[n - 1], u, k);
      }
    }
  }

  // ---- algorithm identifiers

  function AlgorithmIdentifier(oid: seq<byte>): seq<byte>
    requires |oid| < 0xFFFF_FF00
  {
    Tlv(SEQUENCE, Tlv(OID, oid) + Tlv(NULL, []))
  }

  datatype Alg = AlgError(code: int) | AlgOk(start: nat, len: nat, paramTag: byte, paramStart: nat, paramLen: nat, used: nat)

  // get_alg
  function ParseAlg(s: seq<byte>): Alg {
    match ParseTag(s, SEQUENCE)
    case LenError(e) => AlgError(e)
    case LenOk(n, u) =>
      if |s| - u < 1 then AlgError(OUT_OF_DATA)
      else
        var t := s[u..u + n];
        match ParseTag(t, OID)
        case LenError(e) => AlgError(e)
        case LenOk(m, v) =>
          if v + m == n then AlgOk(u + v, m, 0, 0, 0, u + n)
          else match ParseLen(t[v + m + 1..])
            case LenError(e) => AlgError(e)
            case LenOk(k, w) =>
              if v + m + 1 + w + k != n then AlgError(LENGTH_MISMATCH)
              else AlgOk(u + v, m, t[v + m], u + v + m + 1 + w, k, u + n)
  }

  // get_alg_null
  function ParseAlgNull(s: seq<byte>): Alg {
    match ParseAlg(s)
    case AlgError(e) => AlgError(e)
    case AlgOk(start, len, tag, ps, pl, used) =>
      if (tag != NULL && tag != 0) || pl != 0 then AlgError(INVALID_DATA) else AlgOk(start, len, tag, ps, pl, used)
  }

  // What is read as an algorithm identifier: a sequence of an OID and, where
  // it does not end there, one more value of any tag up to its end.
  lemma {:induction false} ParseAlgIs(s: seq<byte>, a: Alg)
    requires a.AlgOk?
    ensures var h := ParseTag(s, SEQUENCE);
            ParseAlg(s) == a <==>
              && h.LenOk? && a.used == h.used + h.len && h.used <= a.start
              && ParseTag(s[h.used..a.used], OID) == LenOk(a.len, a.start - h.used)
              && (if a.start + a.len == a.used then a.paramTag == 0 && a.paramStart == 0 && a.paramLen == 0
                  else a.start + a.len < a.used && a.paramStart + a.paramLen == a.used && a.paramStart > a.start + a.len
                       && ParseTag(s[a.start + a.len..a.used], a.paramTag) == LenOk(a.paramLen, a.paramStart - (a.start + a.len)))
  {
    hide ParseLen;
  }

  // The nested identifier is read back whatever follows it.
  lemma {:induction false} AlgRoundTrip(oid: seq<byte>, rest: seq<byte>)
    requires |oid| < 0xFFFF_FF00
    ensures var a := AlgorithmIdentifier(oid);
            var r := ParseAlgNull(a + rest);
            && r.AlgOk? && r.used == |a| && r.len == |oid| && r.paramTag == NULL
            && r.start + r.len <= |a| && (a + rest)[r.start..r.start + r.len] == oid
  {
    hide ParseTag;
    hide ParseLen;
    hide Tlv;
    var o, z := Tlv(OID, oid), Tlv(NULL, []);
    var c := o + z;
    TlvLength(OID, oid);
    NullIs();
    var s := Tlv(SEQUENCE, c) + rest;
    TagRoundTrip(SEQUENCE, c, rest);
    TagRoundTrip(OID, oid, z);
    var u, v := |Tlv(SEQUENCE, c)| - |c|, |o| - |oid|;
    TlvLength(SEQUENCE, c);
    assert s[u..u + |c|] == c;
    assert c[|o|..] == z && c[|o|] == NULL;
    assert c[|o| + 1..] == [0];
    ZeroLength();
    assert c[v..v + |oid|] == oid;
    assert s[u + v..u + v + |oid|] == s[u..u + |c|][v..v + |oid|];
  }

  lemma {:induction false} TlvLength(tag: byte, c: seq<byte>)
    requires |c| < 0x1_0000_0000
    ensures |c| + 2 <= |Tlv(tag, c)| <= |c| + 6
  {
  }

  lemma {:induction false} NullIs()
    ensures Tlv(NULL, []) == [NULL, 0]
  {
  }

  lemma {:induction false} ZeroLength()
    ensures ParseLen([0]) == LenOk(0, 1)
  {
  }
}
