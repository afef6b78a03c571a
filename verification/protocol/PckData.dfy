// The packet container of protocol/pckData/pckData.c: a length-prefixed list
// of elements in one byte buffer, and the walks that change its byte order in
// place while stepping by the very lengths they rewrite.
module PckData {
  import opened Bytes

  const INCREMENTS := 255

  function Elements(o: Order, es: seq<seq<byte>>): (s: seq<byte>)
    requires forall e :: e in es ==> |e| < 0x1_0000_0000
  {
    if es == [] then [] else Pack(o, |es[0]|) + es[0] + Elements(o, es[1..])
  }

  function Size(es: seq<seq<byte>>): nat {
    if es == [] then 0 else 4 + |es[0]| + Size(es[1..])
  }

  // What a container holds: its elements and the capacity field.
  datatype Container = Container(es: seq<seq<byte>>, limit: uint32) {
    function Total(): nat {
      8 + Size(es)
    }

    predicate Valid() {
      Total() < 0x1_0000_0000
    }

    // The bytes of the container in the given byte order.
    function Image(o: Order): (s: seq<byte>)
      requires Valid()
    {
      SizeBounds(es);
      Pack(o, Total()) + Pack(o, limit) + Elements(o, es)
    }
  }

  // A buffer whose contents from position off start with a container.
  ghost predicate Holds(a: array<byte>, off: nat, o: Order, c: Container)
    reads a
  {
    c.Valid() && off + c.Total() <= a.Length && a[off..off + c.Total()] == c.Image(o)
  }

  lemma {:induction false} SizeBounds(es: seq<seq<byte>>)
    requires Size(es) < 0x1_0000_0000
    ensures forall e :: e in es ==> |e| < 0x1_0000_0000
  {
    if es != [] {
      SizeBounds(es[1..]);
      forall e | e in es ensures |e| < 0x1_0000_0000 {
        if e != es[0] { assert e in es[1..]; }
      }
    }
  }

  lemma {:induction false} ElementsLength(o: Order, es: seq<seq<byte>>)
    requires forall e :: e in es ==> |e| < 0x1_0000_0000
    ensures |Elements(o, es)| == Size(es)
  {
    if es != [] { ElementsLength(o, es[1..]); }
  }

  lemma {:induction false} ImageLength(c: Container, o: Order)
    requires c.Valid()
    ensures |c.Image(o)| == c.Total()
  {
    SizeBounds(c.es);
    ElementsLength(o, c.es);
  }

  lemma {:induction false} SizeAppend(es: seq<seq<byte>>, e: seq<byte>)
    ensures Size(es + [e]) == Size(es) + 4 + |e|
  {
    if es == [] {
      assert [] + [e] == [e];
    } else {
      SizeAppend(es[1..], e);
      assert (es + [e])[1..] == es[1..] + [e];
    }
  }

  lemma {:induction false} SizeTake(es: seq<seq<byte>>, i: nat)
    requires i < |es|
    ensures Size(es[..i + 1]) == Size(es[..i]) + 4 + |es[i]| <= Size(es)
    ensures i + 1 < |es| ==> Size(es[..i + 1]) < Size(es)
    ensures i + 1 == |es| ==> Size(es[..i + 1]) == Size(es)
  {
    SizeAppend(es[..i], es[i]);
    assert es[..i + 1] == es[..i] + [es[i]];
    SizeSplit(es, i + 1);
    if i + 1 == |es| { assert es[..i + 1] == es; }
  }

  lemma {:induction false} SizeSplit(es: seq<seq<byte>>, i: nat)
    requires i <= |es|
    ensures Size(es) == Size(es[..i]) + Size(es[i..])
  {
    if i == 0 {
      assert es[..0] == [] && es[0..] == es;
    } else {
      SizeSplit(es[1..], i - 1);
      assert es[1..][..i - 1] == es[..i][1..] && es[1..][i - 1..] == es[i..];
    }
  }

  lemma {:induction false} ElementsSplit(o: Order, es: seq<seq<byte>>, i: nat)
    requires i <= |es| && forall e :: e in es ==> |e| < 0x1_0000_0000
    ensures Elements(o, es) == Elements(o, es[..i]) + Elements(o, es[i..])
  {
    hide Pack;
    hide Unpack;
    if i == 0 {
      assert es[..0] == [] && es[0..] == es;
    } else {
      ElementsSplit(o, es[1..], i - 1);
      assert es[1..][..i - 1] == es[..i][1..] && es[1..][i - 1..] == es[i..];
    }
  }

  // ---- building

  // A new container has no elements; the rest of its buffer is undefined.
  method InitPckData() returns (a: array<byte>)
    ensures fresh(a) && a.Length == INCREMENTS
    ensures Holds(a, 0, Host, Container([], INCREMENTS))
  {
    a := new byte[INCREMENTS];
    Write32(a, 0, 8);
    Write32(a, 4, INCREMENTS);
    assert a[..][0..8] == Pack(Host, 8) + Pack(Host, INCREMENTS);
  }

  // Appends one element that the buffer has room for. The code compares the
  // capacity with the length without the 4 bytes of the header.
  method AppendToPckData(a: array<byte>, ghost c: Container, newData: seq<byte>) returns (ret: int)
    requires Holds(a, 0, Host, c) && a.Length < 0x1_0000_0000
    requires c.Total() + 4 + |newData| <= a.Length
    requires c.Total() + |newData| <= c.limit
    modifies a
    ensures ret == 0
    ensures Holds(a, 0, Host, Container(c.es + [newData], c.limit))
  {
    hide Pack;
    hide Unpack;
    hide Mixed;
    hide Elements;
    hide Swap;
    hide Splice;
    hide Size;
    hide Container.Image;
    ghost var s := a[..];
    SizeAppend(c.es, newData);
    ReadImage(s, Host, c);
    var currentLen := Read32(a, 0);
    var currentLim := Read32(a, 4);
    assert !(currentLen + |newData| > currentLim);
    Write32(a, currentLen, |newData|);
    WriteBytes(a, currentLen + 4, newData);
    Write32(a, 0, currentLen + 4 + |newData|);
    Write32(a, 4, currentLim);
    AppendWrites(s, c.Total(), newData, c.limit);
    AppendImage(s, c, newData, a[..]);
    return 0;
  }

  // The four writes of an append at position p.
  lemma {:induction false} AppendWrites(s: seq<byte>, p: nat, e: seq<byte>, limit: uint32)
    requires 8 <= p && p + 4 + |e| <= |s| < 0x1_0000_0000
    ensures var s1 := Splice(s, p, Pack(Host, |e|));
            var s2 := Splice(s1, p + 4, e);
            var s3 := Splice(s2, 0, Pack(Host, p + 4 + |e|));
            var t := Splice(s3, 4, Pack(Host, limit));
            && t[0..4] == Pack(Host, p + 4 + |e|) && t[4..8] == Pack(Host, limit)
            && t[8..p] == s[8..p]
            && t[p..p + 4] == Pack(Host, |e|) && t[p + 4..p + 4 + |e|] == e
  {
    hide Pack;
    hide Unpack;
    var s1 := Splice(s, p, Pack(Host, |e|));
    var s2 := Splice(s1, p + 4, e);
    var s3 := Splice(s2, 0, Pack(Host, p + 4 + |e|));
    SpliceWindow(s, p, Pack(Host, |e|), p, p + 4);
    SpliceWindow(s, p, Pack(Host, |e|), 8, p);
    SpliceWindow(s1, p + 4, e, p, p + 4);
    SpliceWindow(s1, p + 4, e, 8, p);
    SpliceWindow(s1, p + 4, e, p + 4, p + 4 + |e|);
    SpliceWindow(s2, 0, Pack(Host, p + 4 + |e|), 0, 4);
    SpliceWindow(s2, 0, Pack(Host, p + 4 + |e|), 8, p);
    SpliceWindow(s2, 0, Pack(Host, p + 4 + |e|), p, p + 4);
    SpliceWindow(s2, 0, Pack(Host, p + 4 + |e|), p + 4, p + 4 + |e|);
    SpliceWindow(s3, 4, Pack(Host, limit), 0, 4);
    SpliceWindow(s3, 4, Pack(Host, limit), 4, 8);
    SpliceWindow(s3, 4, Pack(Host, limit), 8, p);
    SpliceWindow(s3, 4, Pack(Host, limit), p, p + 4);
    SpliceWindow(s3, 4, Pack(Host, limit), p + 4, p + 4 + |e|);
  }

  lemma {:induction false} ReadImage(s: seq<byte>, o: Order, c: Container)
    requires c.Valid() && c.Total() <= |s| && s[..c.Total()] == c.Image(o)
    ensures s[0..4] == Pack(o, c.Total()) && s[4..8] == Pack(o, c.limit)
    ensures s[8..c.Total()] == (SizeBounds(c.es); Elements(o, c.es))
    ensures Unpack(o, s[0..4]) == c.Total() && Unpack(o, s[4..8]) == c.limit
  {
    hide Pack;
    hide Unpack;
    SizeBounds(c.es);
    ImageLength(c, o);
    var t := c.Image(o);
    assert t[0..4] == Pack(o, c.Total()) && t[4..8] == Pack(o, c.limit) && t[8..] == Elements(o, c.es);
    assert s[0..4] == t[0..4] && s[4..8] == t[4..8] && s[8..c.Total()] == t[8..];
    UnpackPack(o, c.Total());
    UnpackPack(o, c.limit);
  }

  lemma {:induction false} AppendImage(s: seq<byte>, c: Container, e: seq<byte>, t: seq<byte>)
    requires c.Valid() && c.Total() + 4 + |e| <= |s| == |t| && c.Total() + 4 + |e| < 0x1_0000_0000
    requires s[..c.Total()] == c.Image(Host)
    requires t[0..4] == Pack(Host, c.Total() + 4 + |e|) && t[4..8] == Pack(Host, c.limit)
    requires t[8..c.Total()] == s[8..c.Total()]
    requires t[c.Total()..c.Total() + 4] == Pack(Host, |e|) && t[c.Total() + 4..c.Total() + 4 + |e|] == e
    ensures var d := Container(c.es + [e], c.limit);
            d.Valid() && d.Total() == c.Total() + 4 + |e| && t[..d.Total()] == d.Image(Host)
  {
    hide Pack;
    hide Unpack;
    hide Size;
    var d := Container(c.es + [e], c.limit);
    SizeAppend(c.es, e);
    SizeBounds(d.es);
    SizeBounds(c.es);
    ReadImage(s, Host, c);
    ElementsAppend(Host, c.es, e);
    FiveParts(t, c.Total(), d.Total());
  }

  lemma {:induction false} ElementsAppend(o: Order, es: seq<seq<byte>>, e: seq<byte>)
    requires |e| < 0x1_0000_0000 && forall x :: x in es ==> |x| < 0x1_0000_0000
    ensures Elements(o, es + [e]) == Elements(o, es) + (Pack(o, |e|) + e)
  {
    hide Pack;
    ElementsSplit(o, es + [e], |es|);
    assert (es + [e])[..|es|] == es && (es + [e])[|es|..] == [e];
    assert Elements(o, [e]) == Pack(o, |e|) + e + [];
  }

  lemma {:induction false} FiveParts(t: seq<byte>, p: nat, n: nat)
    requires 8 <= p && p + 4 <= n <= |t|
    ensures t[..n] == t[0..4] + t[4..8] + (t[8..p] + (t[p..p + 4] + t[p + 4..n]))
  {
  }

  // ---- changing the byte order in place

  // A container whose header and first i elements are already converted.
  function Mixed(c: Container, from: Order, to: Order, i: nat): seq<byte>
    requires c.Valid() && i <= |c.es|
  {
    SizeBounds(c.es);
    Pack(to, c.Total()) + Pack(to, c.limit) + (Elements(to, c.es[..i]) + Elements(from, c.es[i..]))
  }

  lemma {:induction false} MixedEnds(c: Container, from: Order, to: Order)
    requires c.Valid()
    ensures Splice(Splice(c.Image(from), 0, Pack(to, c.Total())), 4, Pack(to, c.limit)) == Mixed(c, from, to, 0)
    ensures Mixed(c, from, to, |c.es|) == c.Image(to)
    ensures |c.Image(from)| == c.Total() && Size(c.es[..0]) == 0
    ensures 8 <= c.Total() && (c.Total() == 8 <==> c.es == [])
  {
    hide Pack;
    hide Unpack;
    hide Splice;
    hide Elements;
    ImageLength(c, from);
    SizeBounds(c.es);
    assert c.es[..0] == [] && c.es[0..] == c.es && c.es[..|c.es|] == c.es && c.es[|c.es|..] == [];
    NoElements(to);
    NoElements(from);
    assert Elements(to, c.es) + [] == Elements(to, c.es) && [] + Elements(from, c.es) == Elements(from, c.es);
    NewHeader(Pack(from, c.Total()), Pack(from, c.limit), Elements(from, c.es), Pack(to, c.Total()), Pack(to, c.limit));
  }

  lemma {:induction false} NoElements(o: Order)
    ensures Elements(o, []) == []
  {
  }

  lemma {:induction false} NewHeader(a: seq<byte>, b: seq<byte>, s: seq<byte>, c: seq<byte>, d: seq<byte>)
    requires |a| == |b| == |c| == |d| == 4
    ensures Splice(Splice(a + b + s, 0, c), 4, d) == c + d + s
  {
    assert Splice(a + b + s, 0, c) == c + b + s;
  }

  // The bytes around the length of element i, before and after its conversion.
  lemma {:induction false} MixedAt(c: Container, from: Order, to: Order, i: nat)
    requires c.Valid() && i < |c.es|
    ensures |c.es[i]| < 0x1_0000_0000 && |MixedHead(c, to, i)| == 8 + Size(c.es[..i])
    ensures Mixed(c, from, to, i) == MixedHead(c, to, i) + Pack(from, |c.es[i]|) + MixedTail(c, from, i)
  {
    hide Pack;
    hide Unpack;
    var es, e := c.es, c.es[i];
    SizeBounds(es);
    ElementsLength(to, es[..i]);
    assert es[i..][1..] == es[i + 1..] && es[i..][0] == e;
    assert Elements(from, es[i..]) == Pack(from, |e|) + e + Elements(from, es[i + 1..]);
    Regroup(Pack(to, c.Total()) + Pack(to, c.limit), Elements(to, es[..i]), Pack(from, |e|), e, Elements(from, es[i + 1..]));
  }

  lemma {:induction false} MixedNext(c: Container, from: Order, to: Order, i: nat)
    requires c.Valid() && i < |c.es| && |c.es[i]| < 0x1_0000_0000
    ensures Mixed(c, from, to, i + 1) == MixedHead(c, to, i) + Pack(to, |c.es[i]|) + MixedTail(c, from, i)
  {
    hide Pack;
    hide Unpack;
    var es, e := c.es, c.es[i];
    SizeBounds(es);
    ElementsSplit(to, es[..i + 1], i);
    assert es[..i + 1][..i] == es[..i] && es[..i + 1][i..] == [e];
    assert Elements(to, [e]) == Pack(to, |e|) + e + [];
    RegroupNext(Pack(to, c.Total()) + Pack(to, c.limit), Elements(to, es[..i]), Pack(to, |e|), e, Elements(from, es[i + 1..]));
  }

  lemma {:induction false} Regroup(p: seq<byte>, a: seq<byte>, w: seq<byte>, e: seq<byte>, r: seq<byte>)
    ensures p + (a + (w + e + r)) == p + a + w + (e + r)
  {
  }

  lemma {:induction false} RegroupNext(p: seq<byte>, a: seq<byte>, w: seq<byte>, e: seq<byte>, r: seq<byte>)
    ensures p + ((a + (w + e + [])) + r) == p + a + w + (e + r)
  {
  }

  function MixedHead(c: Container, to: Order, i: nat): seq<byte>
    requires c.Valid() && i < |c.es|
  {
    SizeBounds(c.es);
    Pack(to, c.Total()) + Pack(to, c.limit) + Elements(to, c.es[..i])
  }

  function MixedTail(c: Container, from: Order, i: nat): seq<byte>
    requires c.Valid() && i < |c.es|
  {
    SizeBounds(c.es);
    c.es[i] + Elements(from, c.es[i + 1..])
  }

  // The cursor stands on the length of element i; converting it moves on.
  lemma {:induction false} MixedStep(c: Container, from: Order, to: Order, i: nat)
    requires c.Valid() && i < |c.es|
    ensures var m, k := Mixed(c, from, to, i), 8 + Size(c.es[..i]);
            && k + 4 <= |m| && |c.es[i]| < 0x1_0000_0000
            && m[k..k + 4] == Pack(from, |c.es[i]|)
            && Splice(m, k, Pack(to, |c.es[i]|)) == Mixed(c, from, to, i + 1)
  {
    hide Pack;
    hide Unpack;
    hide Mixed;
    hide MixedHead;
    hide MixedTail;
    MixedAt(c, from, to, i);
    MixedNext(c, from, to, i);
    SpliceMiddle(MixedHead(c, to, i), Pack(from, |c.es[i]|), MixedTail(c, from, i), Pack(to, |c.es[i]|));
  }

  lemma {:induction false} SpliceMiddle(p: seq<byte>, s: seq<byte>, q: seq<byte>, w: seq<byte>)
    requires |s| == |w|
    ensures Splice(p + s + q, |p|, w) == p + w + q && (p + s + q)[|p|..|p| + |s|] == s
  {
  }

  // Rewrites the lengths of the container at off from host to network order.
  method PckDataToNetworkOrder(a: array?<byte>, off: nat, ghost c: Container) returns (ret: int)
    requires a != null ==> Holds(a, off, Host, c)
    modifies a
    ensures ret == if a == null then -1 else 0
    ensures a != null ==> Holds(a, off, Net, c)
    ensures a != null ==> a[..off] == old(a[..off]) && a[off + c.Total()..] == old(a[off + c.Total()..])
  {
    hide Splice;
    hide Size;
    hide Container.Total;
    hide Container.Image;
    hide Pack;
    hide Unpack;
    hide Mixed;
    hide Elements;
    hide Swap;
    if a == null {
      return -1;
    }
    ghost var p, q := a[..off], a[off + c.Total()..];
    MixedEnds(c, Host, Net);
    OpenWindow(a[..], off, c.Total());
    HeaderWrites(p, q, c, Host, Net);
    var totalLen := Read32(a, off);
    Write32(a, off, Swap(totalLen));
    var limit := Read32(a, off + 4);
    Write32(a, off + 4, Swap(limit));
    var currentLen := 8;
    ghost var i := 0;
    while currentLen < totalLen
      invariant 0 <= i <= |c.es| && currentLen == 8 + Size(c.es[..i])
      invariant currentLen <= c.Total() && (currentLen == c.Total() <==> i == |c.es|)
      invariant a[..] == p + Mixed(c, Host, Net, i) + q
      decreases |c.es| - i
    {
      WalkStep(p, q, c, Host, Net, i);
      var currentElementLen := Read32(a, off + currentLen);
      Write32(a, off + currentLen, Swap(currentElementLen));
      currentLen := currentLen + (currentElementLen + 4);
      i := i + 1;
    }
    WalkEnd(p, q, c, Net, a[..]);
    return 0;
  }

  // Rewrites the lengths of the container at off from network to host order.
  method PckDataToHostOrder(a: array?<byte>, off: nat, ghost c: Container) returns (ret: int)
    requires a != null ==> Holds(a, off, Net, c)
    modifies a
    ensures ret == if a == null then -1 else 0
    ensures a != null ==> Holds(a, off, Host, c)
    ensures a != null ==> a[..off] == old(a[..off]) && a[off + c.Total()..] == old(a[off + c.Total()..])
  {
    hide Splice;
    hide Size;
    hide Container.Total;
    hide Container.Image;
    hide Pack;
    hide Unpack;
    hide Mixed;
    hide Elements;
    hide Swap;
    if a == null {
      return -1;
    }
    ghost var p, q := a[..off], a[off + c.Total()..];
    MixedEnds(c, Net, Host);
    OpenWindow(a[..], off, c.Total());
    HeaderWrites(p, q, c, Net, Host);
    var totalLen := Read32(a, off);
    totalLen := Swap(totalLen);
    Write32(a, off, totalLen);
    var limit := Read32(a, off + 4);
    Write32(a, off + 4, Swap(limit));
    var currentLen := 8;
    ghost var i := 0;
    while currentLen < totalLen
      invariant 0 <= i <= |c.es| && currentLen == 8 + Size(c.es[..i])
      invariant currentLen <= c.Total() && (currentLen == c.Total() <==> i == |c.es|)
      invariant a[..] == p + Mixed(c, Net, Host, i) + q
      decreases |c.es| - i
    {
      WalkStep(p, q, c, Net, Host, i);
      var currentElementLen := Read32(a, off + currentLen);
      currentElementLen := Swap(currentElementLen);
      Write32(a, off + currentLen, currentElementLen);
      currentLen := currentLen + (currentElementLen + 4);
      i := i + 1;
    }
    WalkEnd(p, q, c, Host, a[..]);
    return 0;
  }

  lemma {:induction false} OpenWindow(s: seq<byte>, off: nat, n: nat)
    requires off + n <= |s|
    ensures s == s[..off] + s[off..off + n] + s[off + n..]
  {
  }

  // Other byte order, same value: reading as a host word and swapping.
  lemma {:induction false} SwapRead(from: Order, to: Order, v: uint32)
    requires from != to
    ensures Pack(Host, Swap(Unpack(Host, Pack(from, v)))) == Pack(to, v)
    ensures Unpack(Host, Pack(Host, v)) == v && Swap(Unpack(Host, Pack(Net, v))) == v
  {
    SwapOrders(v);
    UnpackPack(Host, v);
    UnpackPack(Host, Swap(v));
  }

  lemma {:induction false} HeaderWrites(p: seq<byte>, q: seq<byte>, c: Container, from: Order, to: Order)
    requires c.Valid() && from != to
    ensures |c.Image(from)| == c.Total()
    ensures var s := p + c.Image(from) + q;
            && s[|p|..|p| + 4] == Pack(from, c.Total())
            && s[|p| + 4..|p| + 8] == Pack(from, c.limit)
            && Splice(Splice(s, |p|, Pack(to, c.Total())), |p| + 4, Pack(to, c.limit)) == p + Mixed(c, from, to, 0) + q
            && Splice(s, |p|, Pack(to, c.Total()))[|p| + 4..|p| + 8] == Pack(from, c.limit)
    ensures Pack(Host, Swap(Unpack(Host, Pack(from, c.Total())))) == Pack(to, c.Total())
    ensures Pack(Host, Swap(Unpack(Host, Pack(from, c.limit)))) == Pack(to, c.limit)
    ensures Unpack(Host, Pack(Host, c.Total())) == c.Total() && Swap(Unpack(Host, Pack(Net, c.Total()))) == c.Total()
  {
    hide Pack;
    hide Unpack;
    var m := c.Image(from);
    MixedEnds(c, from, to);
    ReadImage(m, from, c);
    SpliceInside(p, m, q, 0, Pack(to, c.Total()));
    var m1 := Splice(m, 0, Pack(to, c.Total()));
    SpliceWindow(m, 0, Pack(to, c.Total()), 4, 8);
    SpliceInside(p, m1, q, 4, Pack(to, c.limit));
    assert (p + m + q)[|p| + 4..|p| + 8] == m[4..8];
    SwapRead(from, to, c.Total());
    SwapRead(from, to, c.limit);
  }

  lemma {:induction false} WalkStep(p: seq<byte>, q: seq<byte>, c: Container, from: Order, to: Order, i: nat)
    requires c.Valid() && i < |c.es| && from != to
    ensures var s, k := p + Mixed(c, from, to, i) + q, |p| + 8 + Size(c.es[..i]);
            && |c.es[i]| < 0x1_0000_0000 && k + 4 <= |s|
            && s[k..k + 4] == Pack(from, |c.es[i]|)
            && Splice(s, k, Pack(to, |c.es[i]|)) == p + Mixed(c, from, to, i + 1) + q
            && Pack(Host, Swap(Unpack(Host, Pack(from, |c.es[i]|)))) == Pack(to, |c.es[i]|)
            && Unpack(Host, Pack(Host, |c.es[i]|)) == |c.es[i]| && Swap(Unpack(Host, Pack(Net, |c.es[i]|))) == |c.es[i]|
    ensures 8 + Size(c.es[..i]) + 4 + |c.es[i]| == 8 + Size(c.es[..i + 1]) <= c.Total()
    ensures 8 + Size(c.es[..i + 1]) == c.Total() <==> i + 1 == |c.es|
  {
    hide Pack;
    hide Unpack;
    MixedStep(c, from, to, i);
    SizeTake(c.es, i);
    SpliceInside(p, Mixed(c, from, to, i), q, 8 + Size(c.es[..i]), Pack(to, |c.es[i]|));
    SwapRead(from, to, |c.es[i]|);
  }

  lemma {:induction false} WalkEnd(p: seq<byte>, q: seq<byte>, c: Container, to: Order, s: seq<byte>)
    requires c.Valid() && (s == p + Mixed(c, Host, to, |c.es|) + q || s == p + Mixed(c, Net, to, |c.es|) + q)
    ensures |p| + c.Total() <= |s| && s[|p|..|p| + c.Total()] == c.Image(to)
    ensures s[..|p|] == p && s[|p| + c.Total()..] == q
  {
    hide Pack;
    hide Unpack;
    MixedEnds(c, Host, to);
    MixedEnds(c, Net, to);
    ImageLength(c, to);
  }

  // ---- reading

  const NOT_FOUND: uint32 := 0xFFFF_FFFF

  // Reads element index of the container at off into output.
  //
  // The test for an empty container also hits a last element without data, so
  // that element cannot be read.
  method GetElementFromPckData(a: array<byte>, off: nat, output: array<byte>, index: int, ghost c: Container) returns (ret: uint32)
    requires Holds(a, off, Host, c) && off + 12 <= a.Length && a != output
    requires -0x8000_0000 <= index < 0x8000_0000
    requires 0 <= index < |c.es| ==> |c.es[index]| <= output.Length
    modifies output
    ensures 0 <= index < |c.es| && !(index == |c.es| - 1 && c.es[index] == []) ==>
              ret == |c.es[index]| && output[..] == c.es[index] + old(output[|c.es[index]|..])
    ensures !(0 <= index < |c.es|) || (index == |c.es| - 1 && c.es[index] == []) ==>
              ret == NOT_FOUND && output[..] == old(output[..])
  {
    hide Pack;
    hide Unpack;
    hide Elements;
    hide Size;
    hide Container.Image;
    ReadElements(a[..], off, c);
    var totalLen := Read32(a, off);
    var currentPosition: nat := 8;
    var currentIndex := 0;
    while true
      invariant 0 <= currentIndex <= |c.es| && (currentIndex == |c.es| ==> c.es == [])
      invariant currentPosition == 8 + Size(c.es[..currentIndex])
      invariant index < 0 || currentIndex <= index
      invariant output[..] == old(output[..])
      decreases |c.es| - currentIndex
    {
      LookAt(a[..], off, c, currentIndex);
      var currentElemLen := Read32(a, off + currentPosition);
      if currentPosition + 4 >= totalLen {
        return NOT_FOUND;
      }
      if Unsigned(index) == currentIndex {
        CopyElement(a, off + currentPosition + 4, output, currentElemLen);
        return currentElemLen;
      }
      currentPosition := currentPosition + 4 + currentElemLen;
      currentIndex := currentIndex + 1;
      if currentPosition >= totalLen {
        return NOT_FOUND;
      }
    }
  }

  // The comparison of an int with an unsigned counter converts the int.
  function Unsigned(index: int): uint32
    requires -0x8000_0000 <= index < 0x8000_0000
  {
    if index < 0 then index + 0x1_0000_0000 else index
  }

  method CopyElement(a: array<byte>, from: nat, output: array<byte>, n: nat)
    requires from + n <= a.Length && n <= output.Length && a != output
    modifies output
    ensures output[..] == a[from..from + n] + old(output[n..])
  {
    WriteBytes(output, 0, a[from..from + n]);
  }

  // What the loop finds at element i, or behind the header of a container
  // without elements.
  lemma {:induction false} LookAt(s: seq<byte>, off: nat, c: Container, i: nat)
    requires c.Valid() && off + c.Total() <= |s| && s[off..off + c.Total()] == c.Image(Host)
    requires i < |c.es| || (i == 0 && c.es == [])
    ensures var k := 8 + Size(c.es[..i]);
            && (i < |c.es| ==>
                 && k + 4 + |c.es[i]| == 8 + Size(c.es[..i + 1]) <= c.Total()
                 && Unpack(Host, s[off + k..off + k + 4]) == |c.es[i]|
                 && s[off + k + 4..off + k + 4 + |c.es[i]|] == c.es[i])
            && (c.es == [] ==> k == c.Total() == 8)
            && (k + 4 >= c.Total() <==> c.es == [] || (i == |c.es| - 1 && c.es[i] == []))
    ensures i < |c.es| ==> (8 + Size(c.es[..i + 1]) >= c.Total() <==> i == |c.es| - 1)
    ensures 4 * |c.es| <= c.Total()
  {
    hide Pack;
    hide Unpack;
    hide Container.Image;
    CountBound(c.es);
    if c.es != [] {
      ReadElementAt(s, off, c, i);
    } else {
      assert c.es[..0] == [];
    }
  }

  // The length of an element; here the last one may be empty. The first
  // length is read before any check, from a container without elements too.
  method GetElementLengthFromPckData(a: array<byte>, off: nat, index: int, ghost c: Container) returns (ret: uint32)
    requires Holds(a, off, Host, c) && off + 12 <= a.Length
    requires -0x8000_0000 <= index < 0x8000_0000
    requires c.es == [] && index != 0 ==> 12 + Unpack(Host, a[off + 8..off + 12]) < 0x1_0000_0000
    ensures 0 <= index < |c.es| ==> ret == |c.es[index]|
    ensures !(0 <= index < |c.es|) && (c.es != [] || index != 0) ==> ret == NOT_FOUND
    ensures c.es == [] && index == 0 ==> ret == Unpack(Host, a[off + 8..off + 12])
  {
    hide Pack;
    hide Unpack;
    hide Elements;
    hide Size;
    hide Container.Image;
    ReadElements(a[..], off, c);
    var totalLen := Read32(a, off);
    var currentPosition: nat := 8;
    var currentIndex := 0;
    while true
      invariant 0 <= currentIndex <= |c.es| && (currentIndex == |c.es| ==> c.es == [])
      invariant currentPosition == 8 + Size(c.es[..currentIndex])
      invariant index < 0 || currentIndex <= index
      decreases |c.es| - currentIndex
    {
      LookAt(a[..], off, c, currentIndex);
      var currentElemLen := Read32(a, off + currentPosition);
      if Unsigned(index) == currentIndex {
        return currentElemLen;
      }
      currentPosition := currentPosition + 4 + currentElemLen;
      currentIndex := currentIndex + 1;
      if currentPosition >= totalLen {
        return NOT_FOUND;
      }
    }
  }

  // A container whose one element is empty: its length is found, the element
  // itself is not.
  method EmptyElement() returns (found: uint32, len: uint32)
    ensures found == NOT_FOUND && len == 0
  {
    hide Container.Image;
    hide Pack;
    var a := InitPckData();
    ghost var c, d := Container([], INCREMENTS), Container([[]], INCREMENTS);
    assert c.es + [[]] == d.es;
    var r := AppendToPckData(a, c, []);
    var output := new byte[1];
    found := GetElementFromPckData(a, 0, output, 0, d);
    len := GetElementLengthFromPckData(a, 0, 0, d);
  }

  lemma {:induction false} CountBound(es: seq<seq<byte>>)
    ensures 4 * |es| <= Size(es)
  {
    if es != [] { CountBound(es[1..]); }
  }

  lemma {:induction false} ReadElements(s: seq<byte>, off: nat, c: Container)
    requires c.Valid() && off + c.Total() <= |s| && s[off..off + c.Total()] == c.Image(Host)
    ensures 8 <= c.Total() && Unpack(Host, s[off..off + 4]) == c.Total()
    ensures (c.es == [] ==> c.Total() == 8) && Size(c.es[..0]) == 0
  {
    hide Pack;
    var t := s[off..];
    assert t[..c.Total()] == s[off..off + c.Total()];
    ReadImage(t, Host, c);
    assert t[0..4] == s[off..off + 4];
  }

  // Element i stands at its offset.
  lemma {:induction false} ReadElementAt(s: seq<byte>, off: nat, c: Container, i: nat)
    requires c.Valid() && off + c.Total() <= |s| && s[off..off + c.Total()] == c.Image(Host) && i < |c.es|
    ensures var k := 8 + Size(c.es[..i]);
            && k + 4 + |c.es[i]| == 8 + Size(c.es[..i + 1]) <= c.Total()
            && Unpack(Host, s[off + k..off + k + 4]) == |c.es[i]|
            && s[off + k + 4..off + k + 4 + |c.es[i]|] == c.es[i]
    ensures 8 + Size(c.es[..i]) + 4 >= c.Total() <==> i == |c.es| - 1 && c.es[i] == []
    ensures 8 + Size(c.es[..i + 1]) >= c.Total() <==> i == |c.es| - 1
  {
    hide Pack;
    hide Unpack;
    var k, e := 8 + Size(c.es[..i]), c.es[i];
    SizeTake(c.es, i);
    MixedEnds(c, Host, Host);
    MixedIsImage(c, i);
    MixedAt(c, Host, Host, i);
    UnpackPack(Host, |e|);
    ImageLength(c, Host);
    var h, w, r := MixedHead(c, Host, i), Pack(Host, |e|), MixedTail(c, Host, i);
    FieldOf(s, off, h, w, r, e);
  }

  lemma {:induction false} MixedIsImage(c: Container, i: nat)
    requires c.Valid() && i <= |c.es|
    ensures Mixed(c, Host, Host, i) == c.Image(Host)
  {
    hide Pack;
    SizeBounds(c.es);
    ElementsSplit(Host, c.es, i);
  }

  lemma {:induction false} FieldOf(s: seq<byte>, off: nat, h: seq<byte>, w: seq<byte>, r: seq<byte>, e: seq<byte>)
    requires off + |h + w + r| <= |s| && s[off..off + |h + w + r|] == h + w + r && |e| <= |r| && r[..|e|] == e
    ensures s[off + |h|..off + |h| + |w|] == w
    ensures s[off + |h| + |w|..off + |h| + |w| + |e|] == e
  {
    var t := s[off..off + |h + w + r|];
    SubWindow(s, off, |t|, |h|, |h| + |w|);
    SubWindow(s, off, |t|, |h| + |w|, |h| + |w| + |e|);
    assert t[|h|..|h| + |w|] == w;
    assert t[|h| + |w|..|h| + |w| + |e|] == r[..|e|];
  }
}
