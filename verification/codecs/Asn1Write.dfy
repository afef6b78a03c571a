// The writers of misc/mbedtls/library/asn1write.c: every one moves p down from
// the end of a buffer towards start and puts its bytes in front of what is
// there. Buffers are shorter than 2^31 bytes, so that lengths fit an int.
module Asn1Write {
  import opened Bytes
  import opened Bits
  import opened Der

  // b with s put in front of position p.
  function Prepended(b: seq<byte>, p: nat, s: seq<byte>): (t: seq<byte>)
    requires |s| <= p <= |b|
    ensures |t| == |b|
  {
    b[..p - |s|] + s + b[p..]
  }

  // What a writer of the bytes t does: b becomes b' and p becomes p'. When t
  // does not fit, nothing from p on is touched; a composite writer may have
  // written its last parts below p by then, the three basic ones have not.
  predicate Written(b: seq<byte>, b': seq<byte>, start: nat, p: nat, p': nat, ret: int, t: seq<byte>)
    requires p <= |b|
  {
    if p - start >= |t| then ret == |t| && p' == p - |t| && b' == Prepended(b, p, t)
    else ret == BUF_TOO_SMALL && p' <= p && |b'| == |b| && b'[p..] == b[p..]
  }

  lemma {:induction false} PrependedIs(b: seq<byte>, p: nat, s: seq<byte>, k: nat)
    requires |s| <= p <= |b| && k < |b|
    ensures Prepended(b, p, s)[k] == if p - |s| <= k < p then s[k - (p - |s|)] else b[k]
  {
  }

  lemma {:induction false} PrependTwice(b: seq<byte>, p: nat, s: seq<byte>, t: seq<byte>)
    requires |s| + |t| <= p <= |b|
    ensures Prepended(Prepended(b, p, s), p - |s|, t) == Prepended(b, p, t + s)
  {
  }

  // A writer of t after a successful writer of s is a writer of t + s.
  lemma {:induction false} WrittenThen(b: seq<byte>, b1: seq<byte>, b2: seq<byte>, start: nat, p: nat, p1: nat, p2: nat,
                                       r1: int, r2: int, s: seq<byte>, t: seq<byte>)
    requires p <= |b| && p1 <= |b1| && r1 >= 0 && Written(b, b1, start, p, p1, r1, s) && Written(b1, b2, start, p1, p2, r2, t)
    ensures Written(b, b2, start, p, p2, if r2 >= 0 then r1 + r2 else r2, t + s)
    ensures r2 >= 0 <==> p - start >= |s| + |t|
  {
    if p - start >= |s| + |t| {
      PrependTwice(b, p, s, t);
    } else {
      assert b2[p..] == b2[p1..][|s|..] && b1[p..] == b1[p1..][|s|..];
    }
  }

  // A failed writer of s is a failed writer of t + s.
  lemma {:induction false} WrittenFails(b: seq<byte>, b1: seq<byte>, start: nat, p: nat, p1: nat, r1: int, s: seq<byte>, t: seq<byte>)
    requires p <= |b| && r1 < 0 && Written(b, b1, start, p, p1, r1, s)
    ensures Written(b, b1, start, p, p1, r1, t + s)
  {
  }

  // *--(*p) = x
  method Push(buf: array<byte>, p: nat, x: byte) returns (p': nat)
    requires 0 < p <= buf.Length
    modifies buf
    ensures p' == p - 1 && buf[..] == Prepended(old(buf[..]), p, [x])
  {
    p' := p - 1;
    buf[p'] := x;
  }

  lemma {:induction false} BigEndianIs(n: nat)
    ensures BigEndian(n, 1) == [n % 256]
    ensures BigEndian(n, 2) == [n / 256 % 256, n % 256]
    ensures BigEndian(n, 3) == [n / 65536 % 256, n / 256 % 256, n % 256]
    ensures BigEndian(n, 4) == [n / 16777216 % 256, n / 65536 % 256, n / 256 % 256, n % 256]
  {
    var a, b, c := n / 256, n / 65536, n / 16777216;
    assert a / 256 == b && b / 256 == c;
    assert BigEndian(c, 1) == BigEndian(c / 256, 0) + [c % 256];
    assert BigEndian(b, 2) == BigEndian(c, 1) + [b % 256];
    assert BigEndian(a, 3) == BigEndian(b, 2) + [a % 256];
    assert BigEndian(b, 1) == BigEndian(b / 256, 0) + [b % 256];
    assert BigEndian(a, 2) == BigEndian(b, 1) + [a % 256];
    assert BigEndian(a, 1) == BigEndian(a / 256, 0) + [a % 256];
  }

  // mbedtls_asn1_write_len
  method WriteLen(buf: array<byte>, start: nat, p: nat, len: nat) returns (ret: int, p': nat)
    requires p <= buf.Length
    modifies buf
    ensures len > 0xFFFF_FFFF ==> ret == INVALID_LENGTH && p' == p && buf[..] == old(buf[..])
    ensures len <= 0xFFFF_FFFF ==> Written(old(buf[..]), buf[..], start, p, p', ret, LenBytes(len))
    ensures ret < 0 ==> p' == p && buf[..] == old(buf[..])
  {
    hide BigEndian;
    hide Prepended;
    BigEndianIs(len);
    p' := p;
    if len < 0x80 {
      if p - start < 1 {
        return BUF_TOO_SMALL, p';
      }
      p' := Push(buf, p', len);
      return 1, p';
    }
    if len <= 0xFF {
      if p - start < 2 {
        return BUF_TOO_SMALL, p';
      }
      p' := Push2(buf, p', len, 0x81);
      assert LenBytes(len) == [0x81, len];
      return 2, p';
    }
    if len <= 0xFFFF {
      if p - start < 3 {
        return BUF_TOO_SMALL, p';
      }
      p' := Push3(buf, p', len % 256, len / 256 % 256, 0x82);
      assert LenBytes(len) == [0x82, len / 256 % 256, len % 256];
      return 3, p';
    }
    ret, p' := WriteLongLen(buf, start, p, len);
  }

  // The cases with three and four length bytes.
  method WriteLongLen(buf: array<byte>, start: nat, p: nat, len: nat) returns (ret: int, p': nat)
    requires p <= buf.Length && len > 0xFFFF
    modifies buf
    ensures len > 0xFFFF_FFFF ==> ret == INVALID_LENGTH && p' == p && buf[..] == old(buf[..])
    ensures len <= 0xFFFF_FFFF ==> Written(old(buf[..]), buf[..], start, p, p', ret, LenBytes(len))
    ensures ret < 0 ==> p' == p && buf[..] == old(buf[..])
  {
    hide BigEndian;
    hide Prepended;
    BigEndianIs(len);
    p' := p;
    if len <= 0xFF_FFFF {
      if p - start < 4 {
        return BUF_TOO_SMALL, p';
      }
      p' := Push4(buf, p', len % 256, len / 256 % 256, len / 65536 % 256, 0x83);
      assert LenBytes(len) == [0x83, len / 65536 % 256, len / 256 % 256, len % 256];
      return 4, p';
    }
    if len <= 0xFFFF_FFFF {
      if p - start < 5 {
        return BUF_TOO_SMALL, p';
      }
      ghost var before := buf[..];
      p' := Push4(buf, p', len % 256, len / 256 % 256, len / 65536 % 256, len / 16777216 % 256);
      p' := Push(buf, p', 0x84);
      PrependTwice(before, p, [len / 16777216 % 256, len / 65536 % 256, len / 256 % 256, len % 256], [0x84]);
      return 5, p';
    }
    ret := INVALID_LENGTH;
  }

  // Two bytes, x written first.
  method Push2(buf: array<byte>, p: nat, x: byte, y: byte) returns (p': nat)
    requires 2 <= p <= buf.Length
    modifies buf
    ensures p' == p - 2 && buf[..] == Prepended(old(buf[..]), p, [y, x])
  {
    p' := Push(buf, p, x);
    p' := Push(buf, p', y);
    PrependTwice(old(buf[..]), p, [x], [y]);
    assert [y] + [x] == [y, x];
  }

  method Push3(buf: array<byte>, p: nat, x: byte, y: byte, z: byte) returns (p': nat)
    requires 3 <= p <= buf.Length
    modifies buf
    ensures p' == p - 3 && buf[..] == Prepended(old(buf[..]), p, [z, y, x])
  {
    p' := Push2(buf, p, x, y);
    p' := Push(buf, p', z);
    PrependTwice(old(buf[..]), p, [y, x], [z]);
    assert [z] + [y, x] == [z, y, x];
  }

  method Push4(buf: array<byte>, p: nat, x: byte, y: byte, z: byte, w: byte) returns (p': nat)
    requires 4 <= p <= buf.Length
    modifies buf
    ensures p' == p - 4 && buf[..] == Prepended(old(buf[..]), p, [w, z, y, x])
  {
    p' := Push2(buf, p, x, y);
    p' := Push2(buf, p', z, w);
    PrependTwice(old(buf[..]), p, [y, x], [w, z]);
    assert [w, z] + [y, x] == [w, z, y, x];
  }

  // mbedtls_asn1_write_tag
  method WriteTag(buf: array<byte>, start: nat, p: nat, tag: byte) returns (ret: int, p': nat)
    requires p <= buf.Length
    modifies buf
    ensures Written(old(buf[..]), buf[..], start, p, p', ret, [tag])
    ensures ret < 0 ==> p' == p && buf[..] == old(buf[..])
  {
    if p - start < 1 {
      return BUF_TOO_SMALL, p;
    }
    p' := Push(buf, p, tag);
    ret := 1;
  }

  // mbedtls_asn1_write_raw_buffer
  method WriteRawBuffer(buf: array<byte>, start: nat, p: nat, s: seq<byte>) returns (ret: int, p': nat)
    requires p <= buf.Length
    modifies buf
    ensures Written(old(buf[..]), buf[..], start, p, p', ret, s)
    ensures ret < 0 ==> p' == p && buf[..] == old(buf[..])
  {
    if p < start || p - start < |s| {
      return BUF_TOO_SMALL, p;
    }
    p' := CopyBefore(buf, p, s);
    ret := |s|;
  }

  // The length and tag written in front of len content bytes, as every
  // composite writer ends: buf0 is the buffer before the content.
  method WriteHeader(buf: array<byte>, start: nat, p: nat, len: nat, tag: byte, ghost buf0: seq<byte>, ghost p0: nat, ghost content: seq<byte>)
    returns (ret: int, p': nat)
    requires start <= p <= p0 <= buf.Length == |buf0| && len == |content| < 0x8000_0000
    requires Written(buf0, buf[..], start, p0, p, len, content)
    modifies buf
    ensures Written(buf0, buf[..], start, p0, p', ret, Tlv(tag, content))
  {
    hide LenBytes;
    hide Written;
    ghost var b1 := buf[..];
    ret, p' := WriteLen(buf, start, p, len);
    HeaderStep(buf0, b1, buf[..], start, p0, p, p', len, ret, content, LenBytes(len));
    if ret < 0 {
      WrittenFails(buf0, buf[..], start, p0, p', ret, LenBytes(len) + content, [tag]);
      assert Tlv(tag, content) == [tag] + (LenBytes(len) + content);
      return;
    }
    var total, q := len + ret, p';
    ghost var b2 := buf[..];
    ret, p' := WriteTag(buf, start, q, tag);
    HeaderStep(buf0, b2, buf[..], start, p0, q, p', total, ret, LenBytes(len) + content, [tag]);
    assert Tlv(tag, content) == [tag] + (LenBytes(len) + content);
    if ret >= 0 {
      ret := total + ret;
    }
  }

  lemma {:induction false} HeaderStep(b: seq<byte>, b1: seq<byte>, b2: seq<byte>, start: nat, p: nat, p1: nat, p2: nat,
                                      r1: int, r2: int, s: seq<byte>, t: seq<byte>)
    requires p <= |b| && p1 <= |b1| && r1 >= 0 && Written(b, b1, start, p, p1, r1, s) && Written(b1, b2, start, p1, p2, r2, t)
    ensures Written(b, b2, start, p, p2, if r2 >= 0 then r1 + r2 else r2, t + s)
    ensures p2 <= p1 <= p
  {
    WrittenThen(b, b1, b2, start, p, p1, p2, r1, r2, s, t);
  }

  // mbedtls_asn1_write_null
  method WriteNull(buf: array<byte>, start: nat, p: nat) returns (ret: int, p': nat)
    requires start <= p <= buf.Length
    modifies buf
    ensures Written(old(buf[..]), buf[..], start, p, p', ret, Tlv(NULL, []))
  {
    hide LenBytes;
    ghost var b := buf[..];
    assert Prepended(b, p, []) == b;
    ret, p' := WriteHeader(buf, start, p, 0, NULL, b, p, []);
  }

  // A value with the given content bytes: the shape of most writers.
  method WriteValue(buf: array<byte>, start: nat, p: nat, tag: byte, content: seq<byte>) returns (ret: int, p': nat)
    requires start <= p <= buf.Length && |content| < 0x8000_0000
    modifies buf
    ensures Written(old(buf[..]), buf[..], start, p, p', ret, Tlv(tag, content))
  {
    hide LenBytes;
    ghost var b := buf[..];
    ret, p' := WriteRawBuffer(buf, start, p, content);
    if ret < 0 {
      WrittenFails(b, buf[..], start, p, p', ret, content, [tag] + LenBytes(|content|));
      return;
    }
    ret, p' := WriteHeader(buf, start, p', ret, tag, b, p, content);
  }

  // mbedtls_asn1_write_oid
  method WriteOid(buf: array<byte>, start: nat, p: nat, oid: seq<byte>) returns (ret: int, p': nat)
    requires start <= p <= buf.Length && |oid| < 0x8000_0000
    modifies buf
    ensures Written(old(buf[..]), buf[..], start, p, p', ret, Tlv(OID, oid))
  {
    ret, p' := WriteValue(buf, start, p, OID, oid);
  }

  // mbedtls_asn1_write_algorithm_identifier; parLen bytes of parameters are
  // already in place, or NULL is written for none.
  method WriteAlgorithmIdentifier(buf: array<byte>, start: nat, p: nat, oid: seq<byte>, parLen: nat) returns (ret: int, p': nat)
    requires start <= p && p + parLen <= buf.Length && |oid| + parLen < 0x7FFF_FFF0
    modifies buf
    ensures var params := if parLen == 0 then Tlv(NULL, []) else old(buf[p..p + parLen]);
            && |params| + |Tlv(OID, oid)| < 0x1_0000_0000
            && Written(old(buf[..]), buf[..], start, p + parLen, p', ret, Tlv(SEQUENCE, Tlv(OID, oid) + params))
  {
    hide Tlv;
    hide LenBytes;
    hide Written;
    ghost var b, end := buf[..], p + parLen;
    ghost var o, z := Tlv(OID, oid), if parLen == 0 then Tlv(NULL, []) else buf[p..end];
    TlvLength(OID, oid);
    NullIs();
    if parLen == 0 {
      ret, p' := WriteNull(buf, start, p);
    } else {
      InPlace(b, start, p, parLen);
      ret, p' := parLen, p;
    }
    ghost var b1 := buf[..];
    WrittenLeaves(b, b1, start, end, p', ret, z);
    if ret < 0 {
      WrittenFails(b, b1, start, end, p', ret, z, o);
      InHeader(b, b1, start, end, p', ret, SEQUENCE, o + z);
      return;
    }
    var len, q := ret, p';
    ret, p' := WriteOid(buf, start, q, oid);
    WrittenLeaves(b1, buf[..], start, q, p', ret, o);
    HeaderStep(b, b1, buf[..], start, end, q, p', len, ret, z, o);
    if ret < 0 {
      InHeader(b, buf[..], start, end, p', ret, SEQUENCE, o + z);
      return;
    }
    WrittenLeaves(b, buf[..], start, end, p', len + ret, o + z);
    ret, p' := WriteHeader(buf, start, p', len + ret, SEQUENCE, b, end, o + z);
  }

  // Bytes already in the buffer count as written.
  lemma {:induction false} InPlace(b: seq<byte>, start: nat, p: nat, n: nat)
    requires start <= p && p + n <= |b|
    ensures Written(b, b, start, p + n, p, n, b[p..p + n])
  {
    assert b == b[..p] + b[p..p + n] + b[p + n..];
  }

  lemma {:induction false} WrittenLeaves(b: seq<byte>, b': seq<byte>, start: nat, p: nat, p': nat, ret: int, t: seq<byte>)
    requires start <= p <= |b| && Written(b, b', start, p, p', ret, t)
    ensures |b'| == |b| && p' <= p
    ensures ret >= 0 ==> start <= p' && ret == |t|
  {
  }

  // Content that does not fit does not fit with a header either.
  lemma {:induction false} InHeader(b: seq<byte>, b': seq<byte>, start: nat, p: nat, p': nat, ret: int, tag: byte, content: seq<byte>)
    requires p <= |b| && ret < 0 && |content| < 0x1_0000_0000 && Written(b, b', start, p, p', ret, content)
    ensures Written(b, b', start, p, p', ret, Tlv(tag, content))
  {
    hide LenBytes;
  }

  // asn1_write_tagged_int
  method WriteTaggedInt(buf: array<byte>, start: nat, p: nat, val: int, tag: byte) returns (ret: int, p': nat)
    requires start <= p <= buf.Length && -0x8000_0000 <= val < 0x8000_0000
    modifies buf
    ensures |IntContent(val)| <= 5 && Written(old(buf[..]), buf[..], start, p, p', ret, Tlv(tag, IntContent(val)))
  {
    hide Octets;
    hide IntContent;
    hide Tlv;
    hide Written;
    ghost var b := buf[..];
    IntRoundTrip(tag, val, []);
    var len;
    ret, p', len := WriteOctets(buf, start, p, val);
    ContentOf(val);
    if ret < 0 {
      Shorter(b, buf[..], start, p, p', ret, Octets(val), IntContent(val));
      InHeader(b, buf[..], start, p, p', ret, tag, IntContent(val));
      return;
    }
    WrittenLeaves(b, buf[..], start, p, p', len, Octets(val));
    FirstByte(b, buf[..], start, p, p', len, Octets(val));
    if buf[p'] >= 0x80 {
      var q := p';
      ghost var b1 := buf[..];
      ret, p' := WriteTag(buf, start, q, 0x00);
      WrittenLeaves(b1, buf[..], start, q, p', ret, [0]);
      HeaderStep(b, b1, buf[..], start, p, q, p', len, ret, Octets(val), [0]);
      if ret < 0 {
        InHeader(b, buf[..], start, p, p', ret, tag, IntContent(val));
        return;
      }
      len := len + 1;
      WrittenLeaves(b, buf[..], start, p, p', len, IntContent(val));
    }
    ret, p' := WriteHeader(buf, start, p', len, tag, b, p, IntContent(val));
  }

  lemma {:induction false} ContentOf(val: int)
    ensures IntContent(val) == if Octets(val)[0] >= 0x80 then [0] + Octets(val) else Octets(val)
  {
  }

  lemma {:induction false} Shorter(b: seq<byte>, b': seq<byte>, start: nat, p: nat, p': nat, ret: int, s: seq<byte>, t: seq<byte>)
    requires p <= |b| && ret < 0 && |s| <= |t| && Written(b, b', start, p, p', ret, s)
    ensures Written(b, b', start, p, p', ret, t)
  {
  }

  lemma {:induction false} FirstByte(b: seq<byte>, b': seq<byte>, start: nat, p: nat, p': nat, ret: int, t: seq<byte>)
    requires start <= p <= |b| && ret >= 0 && |t| > 0 && Written(b, b', start, p, p', ret, t)
    ensures p' < |b'| && b'[p'] == t[0]
  {
  }

  // The do-while loop over the digits.
  method WriteOctets(buf: array<byte>, start: nat, p: nat, val0: int) returns (ret: int, p': nat, len: nat)
    requires start <= p <= buf.Length
    modifies buf
    ensures Written(old(buf[..]), buf[..], start, p, p', if ret < 0 then ret else len, Octets(val0))
    ensures ret < 0 || ret == 0
  {
    hide Prepended;
    ghost var b := buf[..];
    ghost var w: seq<byte> := [];
    var val := val0;
    p', len := p, 0;
    NothingYet(b, p, val0);
    var more := true;
    while more
      invariant len == |w| && start <= p' && p' == p - len && buf[..] == Prepended(b, p, w)
      invariant Octets(val0) == if more then Octets(val) + w else w
      decreases if !more then 0 else if val > 0 then val + 1 else 1
    {
      hide Octets;
      if p' - start < 1 {
        TooLong(b, p, w, buf[..]);
        return BUF_TOO_SMALL, p', len;
      }
      OctetsStep(val, w);
      len := len + 1;
      p' := Push(buf, p', val % 256);
      PrependTwice(b, p, w, [val % 256]);
      w := [val % 256] + w;
      val := val / 256;
      more := val > 0;
    }
    ret := 0;
  }

  lemma {:induction false} NothingYet(b: seq<byte>, p: nat, val: int)
    requires p <= |b|
    ensures Prepended(b, p, []) == b && Octets(val) == Octets(val) + []
  {
    hide Octets;
  }

  lemma {:induction false} OctetsStep(val: int, w: seq<byte>)
    ensures Octets(val) + w == (if val / 256 > 0 then Octets(val / 256) else []) + ([val % 256] + w)
    ensures val / 256 > 0 ==> val / 256 < val
  {
    if val / 256 > 0 {
      assert Octets(val / 256) + [val % 256] + w == Octets(val / 256) + ([val % 256] + w);
    } else {
      assert [] + ([val % 256] + w) == [val % 256] + w;
    }
  }

  lemma {:induction false} TooLong(b: seq<byte>, p: nat, w: seq<byte>, b': seq<byte>)
    requires |w| <= p <= |b| && b' == Prepended(b, p, w)
    ensures b'[p..] == b[p..]
  {
  }

  // mbedtls_asn1_write_bitstring
  method WriteBitstring(buf: array<byte>, start: nat, p: nat, src: seq<byte>, bits: nat) returns (ret: int, p': nat)
    requires start <= p <= buf.Length && bits <= 8 * |src| && |src| < 0x7FFF_FFFF
    modifies buf
    ensures Written(old(buf[..]), buf[..], start, p, p', ret, Tlv(BIT_STRING, BitContent(src, bits)))
  {
    hide Written;
    hide LenBytes;
    hide BitContent;
    ghost var b, content := buf[..], BitContent(src, bits);
    var byteLen := (bits + 7) / 8;
    var unused := byteLen * 8 - bits;
    if p < start || p - start < byteLen + 1 {
      NoRoom(b, start, p, content);
      InHeader(b, b, start, p, p, BUF_TOO_SMALL, BIT_STRING, content);
      return BUF_TOO_SMALL, p;
    }
    var len := byteLen + 1;
    p' := WriteBits(buf, p, src, byteLen, unused, bits);
    Fits(b, buf[..], start, p, p', content);
    ret, p' := WriteHeader(buf, start, p', len, BIT_STRING, b, p, content);
  }

  // The content: the last byte with its unused bits cleared, the bytes before
  // it, and the count of unused bits.
  method WriteBits(buf: array<byte>, p: nat, src: seq<byte>, byteLen0: nat, unused: byte, ghost bits: nat) returns (p': nat)
    requires bits <= 8 * |src| && byteLen0 == ByteLen(bits) && unused == Unused(bits)
    requires byteLen0 + 1 <= p <= buf.Length
    modifies buf
    ensures p' == p - (byteLen0 + 1) && buf[..] == Prepended(old(buf[..]), p, BitContent(src, bits))
  {
    hide ClearLow;
    hide Prepended;
    ghost var b := buf[..];
    ghost var data := [];
    p' := p;
    Nothing(b, p);
    if byteLen0 > 0 {
      var byteLen := byteLen0 - 1;
      var last := ClearLow(src[byteLen], unused);
      p' := Push(buf, p', last);
      p' := CopyBefore(buf, p', src[..byteLen]);
      PrependTwice(b, p, [last], src[..byteLen]);
      data := src[..byteLen] + [last];
    }
    p' := Push(buf, p', unused);
    PrependTwice(b, p, data, [unused]);
  }

  lemma {:induction false} Nothing(b: seq<byte>, p: nat)
    requires p <= |b|
    ensures Prepended(b, p, []) == b
  {
  }

  // (*p) -= |s|; memcpy( *p, s, |s| )
  method CopyBefore(buf: array<byte>, p: nat, s: seq<byte>) returns (p': nat)
    requires |s| <= p <= buf.Length
    modifies buf
    ensures p' == p - |s| && buf[..] == Prepended(old(buf[..]), p, s)
  {
    p' := p - |s|;
    WriteBytes(buf, p', s);
  }

  lemma {:induction false} NoRoom(b: seq<byte>, start: nat, p: nat, t: seq<byte>)
    requires p <= |b| && p - start < |t|
    ensures Written(b, b, start, p, p, BUF_TOO_SMALL, t)
  {
  }

  lemma {:induction false} Fits(b: seq<byte>, b': seq<byte>, start: nat, p: nat, p': nat, t: seq<byte>)
    requires p <= |b| && p - start >= |t| && p' == p - |t| && b' == Prepended(b, p, t)
    ensures Written(b, b', start, p, p', |t|, t)
  {
  }

  // mbedtls_asn1_write_named_bitstring
  method WriteNamedBitstring(buf: array<byte>, start: nat, p: nat, src: seq<byte>, bits: nat) returns (ret: int, p': nat)
    requires start <= p <= buf.Length && bits <= 8 * |src| && |src| < 0x7FFF_FFFF
    modifies buf
    ensures Written(old(buf[..]), buf[..], start, p, p', ret, Tlv(BIT_STRING, BitContent(src, NamedBits(src, bits))))
  {
    var n := CountNamedBits(src, bits);
    ret, p' := WriteBitstring(buf, start, p, src, n);
  }

  // The loop that drops trailing zero bits.
  method CountNamedBits(src: seq<byte>, bits0: nat) returns (bits: nat)
    requires bits0 <= 8 * |src|
    ensures bits == NamedBits(src, bits0)
  {
    bits := bits0;
    if bits == 0 {
      return;
    }
    var cur := (bits + 7) / 8 - 1;
    var shifted := Shr(src[cur], (cur + 1) * 8 - bits);
    while true
      invariant 0 < bits <= bits0 && cur == (bits - 1) / 8
      invariant shifted == Shr(src[cur], (cur + 1) * 8 - bits)
      invariant NamedBits(src, bits0) == NamedBits(src, bits)
      decreases bits
    {
      LastBit(src, bits);
      ShrNext(src[cur], (cur + 1) * 8 - bits);
      var bit := shifted % 2;
      shifted := shifted / 2;
      if bit != 0 {
        return;
      }
      bits := bits - 1;
      if bits == 0 {
        return;
      }
      if bits % 8 == 0 {
        cur := cur - 1;
        shifted := src[cur];
      }
    }
  }

  lemma {:induction false} LastBit(src: seq<byte>, bits: nat)
    requires 0 < bits <= 8 * |src|
    ensures var cur := (bits - 1) / 8;
            BitAt(src, bits - 1) <==> Shr(src[cur], (cur + 1) * 8 - bits) % 2 == 1
  {
    hide Shr;
    assert 7 - (bits - 1) % 8 == ((bits - 1) / 8 + 1) * 8 - bits;
  }
}