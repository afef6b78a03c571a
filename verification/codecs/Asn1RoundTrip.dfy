// Writing with misc/mbedtls/library/asn1write.c and reading the same buffer back
// with misc/mbedtls/library/asn1parse.c.
module Asn1RoundTrip {
  import opened Bytes
  import opened Der
  import opened Asn1Write
  import opened Asn1Parse

  lemma {:induction false} WrittenRest(b: seq<byte>, b': seq<byte>, p: nat, p': nat, ret: int, t: seq<byte>)
    requires p <= |b| && |t| <= p && Written(b, b', 0, p, p', ret, t)
    ensures |b'| == |b| && ret == |t| && p' == p - |t| && Rest(b', p', |b'|) == t + b[p..]
    ensures p == |b| ==> Rest(b', p', |b'|) == t
  {
  }

  // An int written in front of p and read back: the cursor ends at p, and the
  // value is the same if and only if it is not negative.
  method IntThroughBuffer(buf: array<byte>, p: nat, val: int, tag: byte) returns (end: nat, back: nat)
    requires 7 <= p <= buf.Length && -0x8000_0000 <= val < 0x8000_0000
    modifies buf
    ensures end == p && (back == val <==> val >= 0)
    ensures buf[p..] == old(buf[p..])
  {
    hide IntContent;
    hide Tlv;
    hide Written;
    hide ParseInt;
    hide Rest;
    ghost var b := buf[..];
    IntRoundTrip(tag, val, b[p..]);
    ghost var t := Tlv(tag, IntContent(val));
    ShortValue(tag, IntContent(val));
    var ret, q := WriteTaggedInt(buf, 0, p, val, tag);
    WrittenRest(b, buf[..], p, q, ret, t);
    Above(b, buf[..], p, q, ret, t);
    var r;
    r, end, back := GetTaggedInt(buf[..], q, buf.Length, tag);
  }

  lemma {:induction false} ShortValue(tag: byte, c: seq<byte>)
    requires |c| < 0x80
    ensures |Tlv(tag, c)| == |c| + 2
  {
  }

  lemma {:induction false} Above(b: seq<byte>, b': seq<byte>, p: nat, p': nat, ret: int, t: seq<byte>)
    requires p <= |b| && |t| <= p && Written(b, b', 0, p, p', ret, t)
    ensures |b'| == |b| && b'[p..] == b[p..]
  {
  }

  // An algorithm identifier with NULL parameters written in front of p is read
  // back by get_alg_null, which ends at p and finds the same OID.
  method AlgThroughBuffer(buf: array<byte>, p: nat, oid: seq<byte>) returns (end: nat, alg: Buf)
    requires p <= buf.Length && |oid| < 0x7FFF_FFF0 && |AlgorithmIdentifier(oid)| <= p
    modifies buf
    ensures end == p && alg.tag == OID && alg.len == |oid| && alg.start + alg.len <= p && buf[alg.start..alg.start + alg.len] == oid
  {
    hide Tlv;
    hide Written;
    hide ParseAlgNull;
    hide Rest;
    ghost var b := buf[..];
    NullIs();
    ghost var t := AlgorithmIdentifier(oid);
    AlgRoundTrip(oid, b[p..]);
    var ret, q := WriteAlgorithmIdentifier(buf, 0, p, oid, 0);
    WrittenRest(b, buf[..], p, q, ret, t);
    var r;
    r, end, alg := GetAlgNull(buf[..], q, buf.Length);
    ghost var s := t + b[p..];
    Inside(buf[..], q, s, alg.start - q, alg.len);
  }

  lemma {:induction false} Inside(b: seq<byte>, q: nat, s: seq<byte>, i: nat, n: nat)
    requires q <= |b| && Rest(b, q, |b|) == s && i + n <= |s|
    ensures q + i + n <= |b| && b[q + i..q + i + n] == s[i..i + n]
  {
    SubWindow(b, q, |b| - q, i, i + n);
  }

  // A named bit string written at the end of the buffer comes back without its
  // trailing zero bits and with every other bit.
  method BitsThroughBuffer(buf: array<byte>, src: seq<byte>, bits: nat) returns (len: nat, unused: byte, start: nat)
    requires bits <= 8 * |src| && |src| < 0x7FFF_FFFF
    requires |Tlv(BIT_STRING, BitContent(src, NamedBits(src, bits)))| <= buf.Length
    modifies buf
    ensures 8 * len - unused == NamedBits(src, bits) && start + len == buf.Length
    ensures forall i: nat {:trigger BitAt(buf[start..], i)} :: i < 8 * len ==>
              (BitAt(buf[start..], i) <==> i < NamedBits(src, bits) && BitAt(src, i))
  {
    hide Written;
    hide ParseBits;
    hide Rest;
    hide BitAt;
    hide LenBytes;
    ghost var b, p, n := buf[..], buf.Length, NamedBits(src, bits);
    ghost var c := BitContent(src, n);
    ghost var t := Tlv(BIT_STRING, c);
    var ret, q := WriteNamedBitstring(buf, 0, buf.Length, src, bits);
    WrittenRest(b, buf[..], p, q, ret, t);
    BitsRoundTrip(src, n, []);
    assert t + [] == t;
    var r, end;
    r, end, len, unused, start := GetBitstring(buf[..], q, buf.Length);
    Inside(buf[..], q, t, start - q, len);
    ContentTail(src, n);
    assert buf[start..start + len] == buf[start..];
    assert buf[start..] == c[1..];
  }

  lemma {:induction false} ContentTail(src: seq<byte>, n: nat)
    requires n <= 8 * |src| && ByteLen(n) < 0xFFFF_FFFF
    ensures var c := BitContent(src, n);
            var t := Tlv(BIT_STRING, c);
            t[|t| - ByteLen(n)..] == c[1..]
  {
    hide LenBytes;
    hide BitContent;
    var c := BitContent(src, n);
    var t := Tlv(BIT_STRING, c);
    assert t == ([BIT_STRING] + LenBytes(|c|)) + c;
  }
}
