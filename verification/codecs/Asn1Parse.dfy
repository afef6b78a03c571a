// The readers of misc/mbedtls/library/asn1parse.c: every one advances a cursor
// p towards end in a buffer b.
module Asn1Parse {
  import opened Bytes
  import opened Der
  import Bits
  import WordVector

  // The data between the cursor and the end.
  function Rest(b: seq<byte>, p: nat, end: nat): (s: seq<byte>)
    requires p <= |b| && end <= |b|
    ensures p <= end ==> |s| == end - p
  {
    if p <= end then b[p..end] else []
  }

  // mbedtls_asn1_get_len
  method GetLen(b: seq<byte>, p: nat, end: nat) returns (ret: int, p': nat, len: nat)
    requires p <= |b| && end <= |b|
    ensures match ParseLen(Rest(b, p, end))
            case LenError(e) => ret == e != 0
            case LenOk(n, u) => ret == 0 && len == n && p' == p + u && p' + n <= end
  {
    hide Number;
    p', len := p, 0;
    if end - p < 1 {
      return OUT_OF_DATA, p', len;
    }
    ghost var s := Rest(b, p, end);
    assert s[0] == b[p];
    if b[p] < 0x80 {
      len, p' := b[p], p + 1;
    } else {
      ret, p', len := LongLen(b, p, end);
      if ret != 0 {
        return;
      }
      LenOctets(b, p, end, p');
    }
    if len > end - p' {
      return OUT_OF_DATA, p', len;
    }
    ret := 0;
  }

  lemma {:induction false} LenOctets(b: seq<byte>, p: nat, end: nat, q: nat)
    requires p < q <= end <= |b|
    ensures Rest(b, p, end)[1..q - p] == b[p + 1..q]
  {
    SubWindow(b, p, end - p, 1, q - p);
  }

  // The switch over the number of length octets.
  method LongLen(b: seq<byte>, p: nat, end: nat) returns (ret: int, p': nat, len: nat)
    requires p < end <= |b| && b[p] >= 0x80
    ensures var k := b[p] % 0x80;
            if !(1 <= k <= 4) then ret == INVALID_LENGTH
            else if end - p < 1 + k then ret == OUT_OF_DATA
            else ret == 0 && p' == p + 1 + k && len == Number(b[p + 1..p'])
  {
    hide Number;
    p', len := p, 0;
    NumberNone(b, p + 1);
    match b[p] % 0x80 {
      case 1 =>
        if end - p < 2 {
          return OUT_OF_DATA, p', len;
        }
        len := b[p + 1];
        p' := p + 2;
        NumberNext(b, p + 1, 0);
      case 2 =>
        if end - p < 3 {
          return OUT_OF_DATA, p', len;
        }
        len := 256 * b[p + 1] as int + b[p + 2];
        p' := p + 3;
        NumberNext(b, p + 1, 0);
        NumberNext(b, p + 1, 1);
      case 3 =>
        if end - p < 4 {
          return OUT_OF_DATA, p', len;
        }
        len := 65536 * b[p + 1] as int + 256 * b[p + 2] as int + b[p + 3];
        p' := p + 4;
        NumberNext(b, p + 1, 0);
        NumberNext(b, p + 1, 1);
        NumberNext(b, p + 1, 2);
      case 4 =>
        if end - p < 5 {
          return OUT_OF_DATA, p', len;
        }
        len := 16777216 * b[p + 1] as int + 65536 * b[p + 2] as int + 256 * b[p + 3] as int + b[p + 4];
        p' := p + 5;
        NumberNext(b, p + 1, 0);
        NumberNext(b, p + 1, 1);
        NumberNext(b, p + 1, 2);
        NumberNext(b, p + 1, 3);
      case _ =>
        return INVALID_LENGTH, p', len;
    }
    ret := 0;
  }

  lemma {:induction false} NumberNone(b: seq<byte>, i: nat)
    requires i <= |b|
    ensures Number(b[i..i + 0]) == 0
  {
  }

  lemma {:induction false} NumberNext(b: seq<byte>, i: nat, k: nat)
    requires i + k < |b|
    ensures Number(b[i..i + (k + 1)]) == 256 * Number(b[i..i + k]) + b[i + k]
  {
    assert b[i..i + (k + 1)] == b[i..i + k] + [b[i + k]];
    NumberJoin(b[i..i + k], b[i + k]);
  }

  // mbedtls_asn1_get_tag
  method GetTag(b: seq<byte>, p: nat, end: nat, tag: byte) returns (ret: int, p': nat, len: nat)
    requires p <= |b| && end <= |b|
    ensures match ParseTag(Rest(b, p, end), tag)
            case LenError(e) => ret == e != 0
            case LenOk(n, u) => ret == 0 && len == n && p' == p + u && p' + n <= end
  {
    hide ParseLen;
    p', len := p, 0;
    if end - p < 1 {
      return OUT_OF_DATA, p', len;
    }
    if b[p] != tag {
      return UNEXPECTED_TAG, p', len;
    }
    assert Rest(b, p, end)[1..] == Rest(b, p + 1, end);
    ret, p', len := GetLen(b, p + 1, end);
  }

  // asn1_get_tagged_int
  method GetTaggedInt(b: seq<byte>, p: nat, end: nat, tag: byte) returns (ret: int, p': nat, val: nat)
    requires p <= |b| && end <= |b|
    ensures match ParseInt(Rest(b, p, end), tag)
            case IntError(e) => ret == e
            case IntOk(v, u) => ret == 0 && val == v && p' == p + u
  {
    hide ParseTag;
    hide Number;
    var len;
    val := 0;
    ret, p', len := GetTag(b, p, end, tag);
    if ret != 0 {
      return;
    }
    Window(b, p, end, p', len);
    ret, p', val := GetIntContent(b, p', len);
  }

  // What follows the header: the checks and the two loops.
  method GetIntContent(b: seq<byte>, p: nat, len0: nat) returns (ret: int, p': nat, val: nat)
    requires p + len0 <= |b|
    ensures var c := b[p..p + len0];
            if len0 == 0 || c[0] >= 0x80 then ret == INVALID_LENGTH
            else
              var d := Stripped(c);
              if |d| > 4 || (|d| == 4 && d[0] >= 0x80) then ret == INVALID_LENGTH
              else ret == 0 && val == Number(d) && p' == p + len0
  {
    hide Number;
    var len := len0;
    p', val := p, 0;
    if len == 0 {
      return INVALID_LENGTH, p', val;
    }
    if b[p'] >= 0x80 {
      return INVALID_LENGTH, p', val;
    }
    ghost var c, stop := b[p..p + len0], p + len0;
    while len > 0 && b[p'] == 0
      invariant 0 <= len && 0 <= p' && p' + len == stop
      invariant Stripped(c) == Stripped(b[p'..stop])
    {
      assert b[p'..stop][1..] == b[p' + 1..stop];
      p', len := p' + 1, len - 1;
    }
    assert Stripped(b[p'..stop]) == b[p'..stop];
    if len > 4 {
      return INVALID_LENGTH, p', val;
    }
    if len == 4 && b[p'] >= 0x80 {
      return INVALID_LENGTH, p', val;
    }
    p', val := ReadNumber(b, p', len);
    ret := 0;
  }

  method ReadNumber(b: seq<byte>, p: nat, len0: nat) returns (p': nat, val: nat)
    requires p + len0 <= |b|
    ensures p' == p + len0 && val == Number(b[p..p'])
  {
    hide Number;
    var len := len0;
    p', val := p, 0;
    NoDigits();
    assert b[p..p] == [];
    while len > 0
      invariant 0 <= len && p <= p' && p' + len == p + len0
      invariant val == Number(b[p..p'])
    {
      assert b[p..p' + 1] == b[p..p'] + [b[p']];
      NumberJoin(b[p..p'], b[p']);
      val := 256 * val + b[p'];
      p', len := p' + 1, len - 1;
    }
  }

  lemma {:induction false} NoDigits()
    ensures Number([]) == 0
  {
  }

  // mbedtls_asn1_get_bitstring
  method GetBitstring(b: seq<byte>, p: nat, end: nat) returns (ret: int, p': nat, len: nat, unused: byte, start: nat)
    requires p <= |b| && end <= |b|
    ensures match ParseBits(Rest(b, p, end))
            case BitError(e) => ret == e
            case BitOk(n, u, at) => ret == 0 && len == n && unused == u && start == p + at && p' == end == start + len
  {
    hide ParseTag;
    unused, start := 0, 0;
    ret, p', len := GetTag(b, p, end, BIT_STRING);
    if ret != 0 {
      return;
    }
    if len < 1 {
      ret := OUT_OF_DATA;
      return;
    }
    len := len - 1;
    unused := b[p'];
    assert Rest(b, p, end)[p' - p] == b[p'];
    if unused > 7 {
      ret := INVALID_LENGTH;
      return;
    }
    p' := p' + 1;
    start := p';
    p' := p' + len;
    if p' != end {
      ret := LENGTH_MISMATCH;
      return;
    }
    ret := 0;
  }

  datatype Buf = Buf(tag: byte, start: nat, len: nat)

  // mbedtls_asn1_get_alg; all-zero parameters when there are none.
  method GetAlg(b: seq<byte>, p: nat, end: nat) returns (ret: int, p': nat, alg: Buf, params: Buf)
    requires p <= |b| && end <= |b|
    ensures match ParseAlg(Rest(b, p, end))
            case AlgError(e) => ret == e != 0
            case AlgOk(start, n, tag, ps, pl, used) =>
              && ret == 0 && p' == p + used && alg == Buf(OID, p + start, n)
              && params == (if ps == 0 then Buf(0, 0, 0) else Buf(tag, p + ps, pl))
              && (ps == 0 ==> tag == 0 && pl == 0)
  {
    hide ParseTag;
    hide ParseLen;
    hide Rest;
    alg, params := Buf(0, 0, 0), Buf(0, 0, 0);
    var len;
    ret, p', len := GetTag(b, p, end, SEQUENCE);
    if ret != 0 {
      return;
    }
    if end - p' < 1 {
      ret := OUT_OF_DATA;
      return;
    }
    Window(b, p, end, p', len);
    ret, p', alg, params := GetAlgBody(b, p', p' + len);
  }

  lemma {:induction false} Window(b: seq<byte>, p: nat, end: nat, q: nat, len: nat)
    requires p <= q && q + len <= end <= |b|
    ensures Rest(b, p, end)[q - p..q - p + len] == b[q..q + len]
  {
    SubWindow(b, p, end - p, q - p, q - p + len);
  }

  // What follows the SEQUENCE header: the OID and the parameters up to end.
  method GetAlgBody(b: seq<byte>, p: nat, end: nat) returns (ret: int, p': nat, alg: Buf, params: Buf)
    requires p < |b| && p <= end <= |b|
    ensures var t := b[p..end];
            match ParseTag(t, OID)
            case LenError(e) => ret == e != 0
            case LenOk(m, v) =>
              if v + m == |t| then ret == 0 && p' == end && alg == Buf(OID, p + v, m) && params == Buf(0, 0, 0)
              else match ParseLen(t[v + m + 1..])
                case LenError(e) => ret == e != 0
                case LenOk(k, w) =>
                  if v + m + 1 + w + k != |t| then ret == LENGTH_MISMATCH
                  else ret == 0 && p' == end && alg == Buf(OID, p + v, m) && params == Buf(t[v + m], p + v + m + 1 + w, k)
  {
    hide ParseTag;
    hide ParseLen;
    alg, params := Buf(0, 0, 0), Buf(0, 0, 0);
    ghost var t := b[p..end];
    var tag, len := b[p], 0;
    ret, p', len := GetTag(b, p, end, OID);
    if ret != 0 {
      return;
    }
    TagFirst(t, OID);
    alg := Buf(tag, p', len);
    p' := p' + len;
    if p' == end {
      return 0, p', alg, params;
    }
    var paramTag := b[p'];
    p' := p' + 1;
    assert t[p' - p..] == Rest(b, p', end) && t[p' - 1 - p] == paramTag;
    ret, p', len := GetLen(b, p', end);
    if ret != 0 {
      return;
    }
    params := Buf(paramTag, p', len);
    p' := p' + len;
    if p' != end {
      ret := LENGTH_MISMATCH;
      return;
    }
    ret := 0;
  }

  lemma {:induction false} TagFirst(t: seq<byte>, tag: byte)
    requires ParseTag(t, tag).LenOk?
    ensures |t| > 0 && t[0] == tag
  {
    hide ParseLen;
  }

  // mbedtls_asn1_get_alg_null
  method GetAlgNull(b: seq<byte>, p: nat, end: nat) returns (ret: int, p': nat, alg: Buf)
    requires p <= |b| && end <= |b|
    ensures match ParseAlgNull(Rest(b, p, end))
            case AlgError(e) => ret == e != 0
            case AlgOk(start, n, tag, ps, pl, used) => ret == 0 && p' == p + used && alg == Buf(OID, p + start, n)
  {
    hide ParseAlg;
    var params;
    ret, p', alg, params := GetAlg(b, p, end);
    if ret != 0 {
      return;
    }
    if (params.tag != NULL && params.tag != 0) || params.len != 0 {
      ret := INVALID_DATA;
    }
  }

  // ---- SEQUENCE OF

  // The entries es, each a tag byte, length octets and len bytes from start
  // on, cover b[p..end] in order with nothing between them.
  predicate Tiles(b: seq<byte>, p: nat, end: nat, es: seq<Buf>)
    requires p <= end <= |b|
    decreases |es|
  {
    if es == [] then p == end else
      && p < es[0].start && es[0].start + es[0].len <= end
      && es[0].tag == b[p]
      && ParseLen(b[p + 1..end]) == LenOk(es[0].len, es[0].start - p - 1)
      && Tiles(b, es[0].start + es[0].len, end, es[1..])
  }

  // The bytes of the entries with their headers, one after the other.
  function Pieces(b: seq<byte>, p: nat, es: seq<Buf>): seq<byte>
    requires p <= |b|
    decreases |es|
  {
    if es == [] || !(p <= es[0].start + es[0].len <= |b|) then []
    else b[p..es[0].start + es[0].len] + Pieces(b, es[0].start + es[0].len, es[1..])
  }

  lemma {:induction false} TilesCover(b: seq<byte>, p: nat, end: nat, es: seq<Buf>)
    requires p <= end <= |b| && Tiles(b, p, end, es)
    ensures Pieces(b, p, es) == b[p..end]
    decreases |es|
  {
    hide ParseLen;
    if es != [] {
      var q := es[0].start + es[0].len;
      TilesCover(b, q, end, es[1..]);
      assert b[p..end] == b[p..q] + b[q..end];
    }
  }

  // The entries are in order and do not overlap.
  lemma {:induction false} TilesOrdered(b: seq<byte>, p: nat, end: nat, es: seq<Buf>, i: nat, j: nat)
    requires p <= end <= |b| && Tiles(b, p, end, es) && i < |es| && j < |es|
    ensures p < es[i].start && es[i].start + es[i].len <= end
    ensures i < j ==> es[i].start + es[i].len < es[j].start
    decreases |es|
  {
    hide ParseLen;
    var q := es[0].start + es[0].len;
    if i > 0 && j > 0 {
      TilesOrdered(b, q, end, es[1..], i - 1, j - 1);
    } else if i > 0 {
      TilesOrdered(b, q, end, es[1..], i - 1, i - 1);
    } else if j > 0 {
      TilesOrdered(b, q, end, es[1..], j - 1, j - 1);
    }
  }

  // There is one way to tile a stretch of bytes.
  lemma {:induction false} TilesUnique(b: seq<byte>, p: nat, end: nat, es: seq<Buf>, fs: seq<Buf>)
    requires p <= end <= |b| && Tiles(b, p, end, es) && Tiles(b, p, end, fs)
    ensures es == fs
    decreases |es|
  {
    hide ParseLen;
    if es != [] && fs != [] {
      TilesUnique(b, es[0].start + es[0].len, end, es[1..], fs[1..]);
      assert es == [es[0]] + es[1..] && fs == [fs[0]] + fs[1..];
    }
  }

  // es are the entries passed, up to the error if there is one.
  datatype Walk = Failed(code: int, es: seq<Buf>) | Done(es: seq<Buf>)

  // The loop of the traversal over b[p..end].
  function Walked(b: seq<byte>, p: nat, end: nat, mustMask: byte, mustVal: byte): Walk
    requires p <= end <= |b|
    decreases end - p
  {
    if p == end then Done([])
    else if WordVector.And(b[p], mustMask) != mustVal then Failed(UNEXPECTED_TAG, [])
    else match ParseLen(b[p + 1..end])
      case LenError(e) => Failed(e, [])
      case LenOk(n, u) => After([Buf(b[p], p + 1 + u, n)], Walked(b, p + 1 + u + n, end, mustMask, mustVal))
  }

  // The entries es before those of w.
  function After(es: seq<Buf>, w: Walk): Walk {
    match w
    case Failed(e, fs) => Failed(e, es + fs)
    case Done(fs) => Done(es + fs)
  }

  predicate Matches(es: seq<Buf>, mask: byte, val: byte) {
    forall e :: e in es ==> WordVector.And(e.tag, mask) == val
  }

  // The traversal succeeds exactly on the stretches that entries with fitting
  // tags tile.
  lemma {:induction false} WalkedTiles(b: seq<byte>, p: nat, end: nat, mustMask: byte, mustVal: byte, es: seq<Buf>)
    requires p <= end <= |b|
    ensures Walked(b, p, end, mustMask, mustVal) == Done(es) <==> Tiles(b, p, end, es) && Matches(es, mustMask, mustVal)
    decreases end - p
  {
    hide ParseLen;
    if p < end {
      if es == [] {
      } else {
        var e := es[0];
        assert es == [e] + es[1..] && e in es;
        match ParseLen(b[p + 1..end]) {
          case LenError(_) =>
          case LenOk(n, u) =>
            var q := p + 1 + u + n;
            if e == Buf(b[p], p + 1 + u, n) {
              WalkedTiles(b, q, end, mustMask, mustVal, es[1..]);
            }
            match Walked(b, q, end, mustMask, mustVal) {
              case Failed(_, _) =>
              case Done(fs) => assert ([Buf(b[p], p + 1 + u, n)] + fs)[1..] == fs;
            }
        }
      }
    } else if es != [] {
      NoLength();
    }
  }

  // Otherwise it fails at the first entry that does not fit: entries with
  // fitting tags tile the bytes up to it, and its tag or its length is wrong.
  lemma {:induction false} WalkedFails(b: seq<byte>, p: nat, end: nat, mustMask: byte, mustVal: byte, code: int, es: seq<Buf>)
    requires p <= end <= |b|
    ensures var q := if es == [] then p else es[|es| - 1].start + es[|es| - 1].len;
            Walked(b, p, end, mustMask, mustVal) == Failed(code, es) <==>
              && p <= q < end && Tiles(b, p, q, es) && Matches(es, mustMask, mustVal)
              && (if WordVector.And(b[q], mustMask) != mustVal then code == UNEXPECTED_TAG
                  else ParseLen(b[q + 1..end]) == LenError(code))
    decreases end - p
  {
    hide *;
    if es == [] {
      FailsAtOnce(b, p, end, mustMask, mustVal, code);
    } else {
      var q, r := es[|es| - 1].start + es[|es| - 1].len, es[0].start + es[0].len;
      FailsLater(b, p, end, mustMask, mustVal, code, es);
      if p <= q < end {
        TilesLater(b, p, q, end, mustMask, mustVal, es);
      }
      if p < r <= end {
        WalkedFails(b, r, end, mustMask, mustVal, code, es[1..]);
        LastOfRest(es);
      }
    }
  }

  lemma {:induction false} FailsAtOnce(b: seq<byte>, p: nat, end: nat, mustMask: byte, mustVal: byte, code: int)
    requires p <= end <= |b|
    ensures Tiles(b, p, p, []) && Matches([], mustMask, mustVal)
    ensures Walked(b, p, end, mustMask, mustVal) == Failed(code, []) <==>
              p < end && (if WordVector.And(b[p], mustMask) != mustVal then code == UNEXPECTED_TAG
                          else ParseLen(b[p + 1..end]) == LenError(code))
  {
    hide ParseLen;
  }

  lemma {:induction false} LastOfRest(es: seq<Buf>)
    requires es != []
    ensures es[1..] != [] ==> es[1..][|es[1..]| - 1] == es[|es| - 1]
    ensures es[1..] == [] ==> es[|es| - 1] == es[0]
  {
  }

  // The first entry is passed and the walk fails behind it.
  lemma {:induction false} FailsLater(b: seq<byte>, p: nat, end: nat, mustMask: byte, mustVal: byte, code: int, es: seq<Buf>)
    requires p <= end <= |b| && es != []
    ensures var e := es[0];
            Walked(b, p, end, mustMask, mustVal) == Failed(code, es) <==>
              && p < e.start && e.start + e.len <= end && e.tag == b[p] && WordVector.And(b[p], mustMask) == mustVal
              && ParseLen(b[p + 1..end]) == LenOk(e.len, e.start - p - 1)
              && Walked(b, e.start + e.len, end, mustMask, mustVal) == Failed(code, es[1..])
  {
    hide ParseLen;
    if p < end {
      assert es == [es[0]] + es[1..];
      match ParseLen(b[p + 1..end]) {
        case LenError(_) =>
        case LenOk(n, u) =>
          match Walked(b, p + 1 + u + n, end, mustMask, mustVal) {
            case Failed(_, fs) => assert ([Buf(b[p], p + 1 + u, n)] + fs)[1..] == fs;
            case Done(_) =>
          }
      }
    }
  }

  lemma {:induction false} TilesLater(b: seq<byte>, p: nat, q: nat, end: nat, mask: byte, val: byte, es: seq<Buf>)
    requires p <= q < end <= |b| && es != []
    ensures var e := es[0];
            Tiles(b, p, q, es) && Matches(es, mask, val) <==>
              && p < e.start && e.start + e.len <= q && e.tag == b[p] && WordVector.And(b[p], mask) == val
              && ParseLen(b[p + 1..end]) == LenOk(e.len, e.start - p - 1)
              && Tiles(b, e.start + e.len, q, es[1..]) && Matches(es[1..], mask, val)
  {
    hide ParseLen;
    var e := es[0];
    assert es == [e] + es[1..] && e in es;
    if p < e.start && e.start + e.len <= q {
      ParseLenShorter(b, p + 1, q, end, e.len, e.start - p - 1);
    }
  }

  // A length that is read within a shorter stretch is the same.
  lemma {:induction false} ParseLenShorter(b: seq<byte>, i: nat, q: nat, end: nat, n: nat, u: nat)
    requires i + u + n <= q <= end <= |b|
    ensures ParseLen(b[i..q]) == LenOk(n, u) <==> ParseLen(b[i..end]) == LenOk(n, u)
  {
    hide ParseLen;
    ParseLenIs(b[i..q], n, u);
    ParseLenIs(b[i..end], n, u);
    if 1 <= u {
      SubWindow(b, i, q - i, 1, u);
      SubWindow(b, i, end - i, 1, u);
    }
  }

  lemma {:induction false} NoLength()
    ensures ParseLen([]).LenError?
  {
  }

  // The entries the callback is called for.
  function Selected(es: seq<Buf>, mask: byte, val: byte): seq<Buf> {
    if es == [] then []
    else (if WordVector.And(es[0].tag, mask) == val then [es[0]] else []) + Selected(es[1..], mask, val)
  }

  // What a callback returns may depend on the arguments of all its calls so
  // far. It agrees to a series of calls if it returns 0 from each of them.
  type Callback = seq<Buf> -> int

  predicate Agrees(cb: Callback, called: seq<Buf>) {
    forall k :: 0 < k <= |called| ==> cb(called[..k]) == 0
  }

  // The calls and the result of a traversal whose walk over the entries is w:
  // the callback is called for the selected entries, also for those before an
  // error, up to the first call that does not return 0.
  predicate Called(w: Walk, mask: byte, val: byte, cb: Callback, ret: int, called: seq<Buf>) {
    var all := Selected(w.es, mask, val);
    if Agrees(cb, all) then called == all && ret == if w.Failed? then w.code else 0
    else called <= all && called != [] && ret == cb(called) != 0 && Agrees(cb, called[..|called| - 1])
  }

  // mbedtls_asn1_traverse_sequence_of
  method TraverseSequenceOf(b: seq<byte>, p: nat, end: nat, mustMask: byte, mustVal: byte, mayMask: byte, mayVal: byte, cb: Callback)
    returns (ret: int, p': nat, called: seq<Buf>)
    requires p <= |b| && end <= |b|
    ensures match ParseTag(Rest(b, p, end), SEQUENCE)
            case LenError(e) => ret == e != 0 && called == []
            case LenOk(n, u) =>
              if p + u + n != end then ret == LENGTH_MISMATCH && called == []
              else
                && Called(Walked(b, p + u, end, mustMask, mustVal), mayMask, mayVal, cb, ret, called)
                && (ret == 0 ==> p' == end)
  {
    hide ParseTag;
    hide Walked;
    hide Called;
    called := [];
    var len;
    ret, p', len := GetTag(b, p, end, SEQUENCE);
    if ret != 0 {
      return;
    }
    if p' + len != end {
      ret := LENGTH_MISMATCH;
      return;
    }
    ret, p', called := Entries(b, p', end, mustMask, mustVal, mayMask, mayVal, cb);
  }

  // The loop over the entries.
  method Entries(b: seq<byte>, p: nat, end: nat, mustMask: byte, mustVal: byte, mayMask: byte, mayVal: byte, cb: Callback)
    returns (ret: int, p': nat, called: seq<Buf>)
    requires p <= end <= |b|
    ensures Called(Walked(b, p, end, mustMask, mustVal), mayMask, mayVal, cb, ret, called)
    ensures ret == 0 ==> p' == end
  {
    hide *;
    ret, p', called := 0, p, [];
    ghost var w, es: seq<Buf> := Walked(b, p, end, mustMask, mustVal), [];
    Begin(w, mayMask, mayVal, cb);
    while p' < end
      invariant p <= p' <= end && ret == 0
      invariant called == Selected(es, mayMask, mayVal) && Agrees(cb, called)
      invariant w == After(es, Walked(b, p', end, mustMask, mustVal))
      decreases end - p'
    {
      var tag := b[p'];
      WalkedStep(b, p', end, mustMask, mustVal, es);
      p' := p' + 1;
      if WordVector.And(tag, mustMask) != mustVal {
        ret := UNEXPECTED_TAG;
        StoppedAt(w, ret, es, mayMask, mayVal, cb);
        return;
      }
      var len;
      ret, p', len := GetLen(b, p', end);
      if ret != 0 {
        StoppedAt(w, ret, es, mayMask, mayVal, cb);
        return;
      }
      var e := Buf(tag, p', len);
      SelectedJoin(es, e, mayMask, mayVal);
      es := es + [e];
      if WordVector.And(tag, mayMask) == mayVal {
        called := called + [e];
        ret := cb(called);
        OneMoreCall(cb, called);
        if ret != 0 {
          Refused(w, es, Walked(b, p' + len, end, mustMask, mustVal), mayMask, mayVal, cb, called);
          return;
        }
      }
      p' := p' + len;
    }
    Finish(b, end, mustMask, mustVal, es);
    AllCalled(w, es, mayMask, mayVal, cb);
  }

  lemma {:induction false} Begin(w: Walk, mask: byte, val: byte, cb: Callback)
    ensures After([], w) == w && Selected([], mask, val) == [] && Agrees(cb, []) && UNEXPECTED_TAG != 0
  {
    assert [] + w.es == w.es;
  }

  lemma {:induction false} OneMoreCall(cb: Callback, called: seq<Buf>)
    requires called != [] && Agrees(cb, called[..|called| - 1])
    ensures Agrees(cb, called) <==> cb(called) == 0
  {
    var n := |called| - 1;
    assert called[..n + 1] == called;
    forall k | 0 < k <= n ensures called[..k] == called[..n][..k] {}
    if cb(called) == 0 {
      forall k | 0 < k <= |called| ensures cb(called[..k]) == 0 {
        if k <= n { assert cb(called[..n][..k]) == 0; }
      }
    }
  }

  // The three ways the loop ends: with an error of the data, with one of the
  // callback, and at the end.
  lemma {:induction false} StoppedAt(w: Walk, code: int, es: seq<Buf>, mask: byte, val: byte, cb: Callback)
    requires w == Failed(code, es) && Agrees(cb, Selected(es, mask, val))
    ensures Called(w, mask, val, cb, code, Selected(es, mask, val))
  {
  }

  lemma {:induction false} AllCalled(w: Walk, es: seq<Buf>, mask: byte, val: byte, cb: Callback)
    requires w == Done(es) && Agrees(cb, Selected(es, mask, val))
    ensures Called(w, mask, val, cb, 0, Selected(es, mask, val))
  {
  }

  lemma {:induction false} Refused(w: Walk, es: seq<Buf>, rest: Walk, mask: byte, val: byte, cb: Callback, called: seq<Buf>)
    requires w == After(es, rest) && called == Selected(es, mask, val) != []
    requires Agrees(cb, called[..|called| - 1]) && cb(called) != 0
    ensures Called(w, mask, val, cb, cb(called), called)
  {
    SelectedAppend(es, rest.es, mask, val);
    var all := Selected(w.es, mask, val);
    assert called <= all && all[..|called|] == called;
  }

  lemma {:induction false} SelectedAppend(es: seq<Buf>, fs: seq<Buf>, mask: byte, val: byte)
    ensures Selected(es + fs, mask, val) == Selected(es, mask, val) + Selected(fs, mask, val)
  {
    hide WordVector.And;
    if es == [] {
      assert [] + fs == fs;
    } else {
      assert (es + fs)[1..] == es[1..] + fs;
      SelectedAppend(es[1..], fs, mask, val);
    }
  }

  lemma {:induction false} Finish(b: seq<byte>, end: nat, mustMask: byte, mustVal: byte, es: seq<Buf>)
    requires end <= |b|
    ensures After(es, Walked(b, end, end, mustMask, mustVal)) == Done(es)
  {
    assert es + [] == es;
  }

  lemma {:induction false} WalkedStep(b: seq<byte>, p: nat, end: nat, mustMask: byte, mustVal: byte, es: seq<Buf>)
    requires p < end <= |b|
    ensures var w := After(es, Walked(b, p, end, mustMask, mustVal));
            if WordVector.And(b[p], mustMask) != mustVal then w == Failed(UNEXPECTED_TAG, es)
            else match ParseLen(Rest(b, p + 1, end))
              case LenError(e) => w == Failed(e, es)
              case LenOk(n, u) =>
                w == After(es + [Buf(b[p], p + 1 + u, n)], Walked(b, p + 1 + u + n, end, mustMask, mustVal))
  {
    hide ParseLen;
    hide After;
    AfterFailed(es, UNEXPECTED_TAG);
    match ParseLen(Rest(b, p + 1, end))
    case LenError(e) => AfterFailed(es, e);
    case LenOk(n, u) => AfterAfter(es, [Buf(b[p], p + 1 + u, n)], Walked(b, p + 1 + u + n, end, mustMask, mustVal));
  }

  lemma {:induction false} AfterAfter(es: seq<Buf>, fs: seq<Buf>, w: Walk)
    ensures After(es, After(fs, w)) == After(es + fs, w)
  {
    assert es + (fs + w.es) == es + fs + w.es;
  }

  lemma {:induction false} AfterFailed(es: seq<Buf>, e: int)
    ensures After(es, Failed(e, [])) == Failed(e, es)
  {
    assert es + [] == es;
  }

  lemma {:induction false} SelectedJoin(es: seq<Buf>, e: Buf, mask: byte, val: byte)
    ensures Selected(es + [e], mask, val) == Selected(es, mask, val) + if WordVector.And(e.tag, mask) == val then [e] else []
  {
    hide WordVector.And;
    SelectedAppend(es, [e], mask, val);
    assert [e][1..] == [];
  }

  // mbedtls_asn1_get_sequence_of; the list cur is returned.
  method GetSequenceOf(b: seq<byte>, p: nat, end: nat, tag: byte) returns (ret: int, p': nat, cur: seq<Buf>)
    requires p <= |b| && end <= |b|
    ensures match ParseTag(Rest(b, p, end), SEQUENCE)
            case LenError(e) => ret == e != 0
            case LenOk(n, u) =>
              if p + u + n != end then ret == LENGTH_MISMATCH
              else
                && (ret == 0 ==> p' == end && Tiles(b, p + u, end, cur) && AllTagged(cur, tag))
                && (ret != 0 ==> forall es :: Tiles(b, p + u, end, es) ==> !AllTagged(es, tag))
  {
    hide ParseTag;
    hide Walked;
    hide Tiles;
    hide Selected;
    hide AllTagged;
    var cb := (called: seq<Buf>) => 0;
    ret, p', cur := TraverseSequenceOf(b, p, end, 0xFF, tag, 0, 0, cb);
    SequenceOf(b, p, end, tag, ret, cur);
    match ParseTag(Rest(b, p, end), SEQUENCE)
    case LenError(_) =>
    case LenOk(n, u) => if p + u + n == end { WalkedError(b, p + u, end, 0xFF, tag); }
  }

  predicate AllTagged(es: seq<Buf>, tag: byte) {
    forall e :: e in es ==> e.tag == tag
  }

  lemma {:induction false} SequenceOf(b: seq<byte>, p: nat, end: nat, tag: byte, ret: int, cur: seq<Buf>)
    requires p <= |b| && end <= |b|
    requires match ParseTag(Rest(b, p, end), SEQUENCE)
             case LenError(e) => true
             case LenOk(n, u) =>
               p + u + n == end ==>
                 match Walked(b, p + u, end, 0xFF, tag)
                 case Failed(e, _) => ret == e
                 case Done(all) => ret == 0 && cur == Selected(all, 0, 0)
    ensures match ParseTag(Rest(b, p, end), SEQUENCE)
            case LenError(e) => true
            case LenOk(n, u) =>
              p + u + n == end ==>
                && (ret == 0 ==> Tiles(b, p + u, end, cur) && AllTagged(cur, tag))
                && (ret != 0 ==> forall es :: Tiles(b, p + u, end, es) ==> !AllTagged(es, tag))
  {
    hide ParseTag;
    hide Walked;
    hide Tiles;
    hide Selected;
    match ParseTag(Rest(b, p, end), SEQUENCE)
    case LenError(_) =>
    case LenOk(n, u) =>
      if p + u + n == end {
        AllMatch(tag);
        match Walked(b, p + u, end, 0xFF, tag) {
          case Done(all) =>
            WalkedTiles(b, p + u, end, 0xFF, tag, all);
            SelectedAll(all);
          case Failed(_, _) =>
            WalkedError(b, p + u, end, 0xFF, tag);
            forall fs ensures Tiles(b, p + u, end, fs) ==> !AllTagged(fs, tag) {
              WalkedTiles(b, p + u, end, 0xFF, tag, fs);
            }
        }
      }
  }

  lemma {:induction false} WalkedError(b: seq<byte>, p: nat, end: nat, mustMask: byte, mustVal: byte)
    requires p <= end <= |b|
    ensures var w := Walked(b, p, end, mustMask, mustVal); w.Failed? ==> w.code != 0
    decreases end - p
  {
    hide ParseLen;
    if p < end {
      LenErrorCode(b[p + 1..end]);
      match ParseLen(b[p + 1..end])
      case LenError(_) =>
      case LenOk(n, u) => WalkedError(b, p + 1 + u + n, end, mustMask, mustVal);
    }
  }

  lemma {:induction false} LenErrorCode(s: seq<byte>)
    ensures ParseLen(s).LenError? ==> ParseLen(s).code != 0
  {
  }

  lemma {:induction false} SelectedAll(es: seq<Buf>)
    ensures Selected(es, 0, 0) == es
  {
    if es != [] {
      AndZero(es[0].tag);
      SelectedAll(es[1..]);
      assert es == [es[0]] + es[1..];
    }
  }

  lemma {:induction false} AndZero(a: nat)
    ensures WordVector.And(a, 0) == 0
  {
    if a > 0 { AndZero(a / 2); }
  }

  lemma {:induction false} AndOnes(a: nat, k: nat)
    requires a < Bits.Pow2(k)
    ensures WordVector.And(a, Bits.Pow2(k) - 1) == a
  {
    if a > 0 {
      assert k > 0 && Bits.Pow2(k) == 2 * Bits.Pow2(k - 1);
      AndOnes(a / 2, k - 1);
    }
  }

  // The masks of get_sequence_of compare whole tags.
  lemma {:induction false} AllMatch(tag: byte)
    ensures forall es: seq<Buf> {:trigger Matches(es, 0xFF, tag)} :: Matches(es, 0xFF, tag) <==> AllTagged(es, tag)
  {
    WordVector.Shl8(1);
    forall es: seq<Buf> ensures Matches(es, 0xFF, tag) <==> AllTagged(es, tag) {
      forall e | e in es ensures WordVector.And(e.tag, 0xFF) == e.tag {
        AndOnes(e.tag, 8);
      }
    }
  }
}
