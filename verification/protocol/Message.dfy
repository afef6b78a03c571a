// The message around a packet container: protocol/pckData/pckData.c composes
// it with encryptPckData and takes it apart with decryptPckData. AES-GCM is an
// abstract pair of seal and open.
module Message {
  import opened Bytes
  import opened PckData

  const IVLEN := 12
  const TAGLEN := 16
  const ADD_LEN := 4        // protocolSpecificAddLen: the version number
  const ENCRYPTED_LEN := 8  // nonce and general settings

  // (iv, additional data, plaintext) to (ciphertext, tag), and back.
  datatype Aead = Aead(
    seal: (seq<byte>, seq<byte>, seq<byte>) -> (seq<byte>, seq<byte>),
    open: (seq<byte>, seq<byte>, seq<byte>, seq<byte>) -> Option<seq<byte>>)
  {
    ghost predicate Correct() {
      && (forall iv: seq<byte>, add: seq<byte>, m: seq<byte> {:trigger seal(iv, add, m)} ::
            var (c, t) := seal(iv, add, m); |c| == |m| && |t| == TAGLEN && open(iv, add, c, t) == Some(m))
      && (forall iv: seq<byte>, add: seq<byte>, c: seq<byte>, t: seq<byte> {:trigger open(iv, add, c, t)} ::
            open(iv, add, c, t).Some? ==> |open(iv, add, c, t).value| == |c|)
    }
  }

  predicate ValidOption(c: Option<Container>) {
    c.Some? ==> c.value.Valid()
  }

  function Length(c: Option<Container>): nat {
    if c.None? then 0 else c.value.Total()
  }

  // The bytes of an optional container.
  function Image(o: Order, c: Option<Container>): (s: seq<byte>)
    requires ValidOption(c)
    ensures |s| == Length(c)
  {
    if c.None? then [] else ImageLength(c.value, o); c.value.Image(o)
  }

  // The part to encrypt, and the authenticated part, in a byte order.
  function Plain(o: Order, nonce: uint32, settings: uint32, c: Option<Container>): (s: seq<byte>)
    requires ValidOption(c)
    ensures |s| == ENCRYPTED_LEN + Length(c)
  {
    Pack(o, nonce) + Pack(o, settings) + Image(o, c)
  }

  function Additional(o: Order, version: uint32, d: Option<Container>): (s: seq<byte>)
    requires ValidOption(d)
    ensures |s| == ADD_LEN + Length(d)
  {
    Pack(o, version) + Image(o, d)
  }

  // The message: three lengths, IV, tag, additional data, body; no extra data.
  function Wire(o: Order, n: uint32, iv: seq<byte>, tag: seq<byte>, add: seq<byte>, body: seq<byte>): seq<byte>
    requires |add| < 0x1_0000_0000
  {
    Pack(o, n) + Pack(o, |add|) + Pack(o, 0) + iv + tag + add + body
  }

  function MessageLength(c: Option<Container>, d: Option<Container>): nat {
    12 + IVLEN + TAGLEN + ADD_LEN + Length(d) + ENCRYPTED_LEN + Length(c)
  }

  ghost predicate HoldsOption(a: array?<byte>, off: nat, o: Order, c: Option<Container>)
    reads a
  {
    (a == null <==> c.None?) && (a != null ==> Holds(a, off, o, c.value))
  }

  // ---- windows of a message

  lemma {:induction false} SpliceKeeps(s: seq<byte>, k: nat, w: seq<byte>)
    requires k + |w| <= |s|
    ensures Splice(s, k, w)[k..k + |w|] == w
    ensures forall i, j {:trigger Splice(s, k, w)[i..j]} ::
              0 <= i <= j <= |s| && (j <= k || k + |w| <= i) ==> Splice(s, k, w)[i..j] == s[i..j]
  {
  }

  lemma {:induction false} WireFromWindows(t: seq<byte>, o: Order, n: uint32, iv: seq<byte>, tag: seq<byte>, add: seq<byte>, body: seq<byte>)
    requires |add| < 0x1_0000_0000 && |iv| == IVLEN && |tag| == TAGLEN
    requires n == 40 + |add| + |body| <= |t|
    requires t[0..4] == Pack(o, n) && t[4..8] == Pack(o, |add|) && t[8..12] == Pack(o, 0)
    requires t[12..24] == iv && t[24..40] == tag && t[40..40 + |add|] == add && t[40 + |add|..n] == body
    ensures t[..n] == Wire(o, n, iv, tag, add, body)
  {
    hide Pack;
    assert t[..n] == t[0..4] + t[4..8] + t[8..12] + t[12..24] + t[24..40] + t[40..40 + |add|] + t[40 + |add|..n];
  }

  lemma {:induction false} WindowsFromWire(t: seq<byte>, o: Order, n: uint32, iv: seq<byte>, tag: seq<byte>, add: seq<byte>, body: seq<byte>)
    requires |add| < 0x1_0000_0000 && |iv| == IVLEN && |tag| == TAGLEN
    requires n == 40 + |add| + |body| <= |t|
    requires t[..n] == Wire(o, n, iv, tag, add, body)
    ensures t[0..4] == Pack(o, n) && t[4..8] == Pack(o, |add|) && t[8..12] == Pack(o, 0)
    ensures t[12..24] == iv && t[24..40] == tag && t[40..40 + |add|] == add && t[40 + |add|..n] == body
  {
    hide Pack;
    var h := Pack(o, n) + Pack(o, |add|) + Pack(o, 0);
    var w := h + iv + tag + add + body;
    assert t[..n] == w;
    assert w[0..4] == Pack(o, n) && w[4..8] == Pack(o, |add|) && w[8..12] == Pack(o, 0);
    assert w[12..24] == iv && w[24..40] == tag && w[40..40 + |add|] == add && w[40 + |add|..n] == body;
    forall i, j | 0 <= i <= j <= n ensures t[i..j] == w[i..j] { assert t[..n][i..j] == t[i..j]; }
  }

  // Equal stretches have equal windows.
  lemma {:induction false} SameWindows(s: seq<byte>, t: seq<byte>, m: nat, n: nat)
    requires m <= n <= |s| && n <= |t| && s[m..n] == t[m..n]
    ensures forall i, j {:trigger t[i..j]} :: m <= i <= j <= n ==> t[i..j] == s[i..j]
  {
    forall i, j | m <= i <= j <= n ensures t[i..j] == s[i..j] {
      SubWindow(s, m, n - m, i - m, j - m);
      SubWindow(t, m, n - m, i - m, j - m);
    }
  }

  // ---- composing

  // Writes everything but the containers and the tag.
  method WriteFields(out: array<byte>, n: uint32, addLen: uint32, iv: seq<byte>, nonce: uint32, settings: uint32)
    requires n <= out.Length && |iv| == IVLEN && 4 <= addLen && 40 + addLen + 8 <= n
    modifies out
    ensures out[0..4] == Pack(Net, n) && out[4..8] == Pack(Net, addLen) && out[8..12] == Pack(Net, 0)
    ensures out[12..24] == iv && out[24..40] == old(out[24..40]) && out[40..44] == Pack(Net, 0)
    ensures out[40 + addLen..44 + addLen] == Pack(Net, nonce) && out[44 + addLen..48 + addLen] == Pack(Net, settings)
  {
    hide Pack;
    hide Splice;
    hide Swap;
    SwapOrders(n); SwapOrders(addLen); SwapOrders(0); SwapOrders(nonce); SwapOrders(settings);
    ZeroOrder();
    var nn := 40 + addLen;
    ghost var s0 := out[..];
    Write32(out, 40, 0);
    ghost var s1 := out[..];
    SpliceKeeps(s0, 40, Pack(Host, 0));
    Write32(out, 0, Swap(n));
    ghost var s2 := out[..];
    SpliceKeeps(s1, 0, Pack(Net, n));
    Write32(out, 4, Swap(addLen));
    ghost var s3 := out[..];
    SpliceKeeps(s2, 4, Pack(Net, addLen));
    Write32(out, 8, Swap(0));
    ghost var s4 := out[..];
    SpliceKeeps(s3, 8, Pack(Net, 0));
    WriteBytes(out, 12, iv);
    ghost var s5 := out[..];
    SpliceKeeps(s4, 12, iv);
    Write32(out, nn, Swap(nonce));
    ghost var s6 := out[..];
    SpliceKeeps(s5, nn, Pack(Net, nonce));
    Write32(out, nn + 4, Swap(settings));
    SpliceKeeps(s6, nn + 4, Pack(Net, settings));
    ghost var t := out[..];
    assert t[0..4] == s6[0..4] == s5[0..4] == s4[0..4] == s3[0..4] == s2[0..4];
    assert t[4..8] == s6[4..8] == s5[4..8] == s4[4..8] == s3[4..8];
    assert t[8..12] == s6[8..12] == s5[8..12] == s4[8..12];
    assert t[12..24] == s6[12..24] == s5[12..24];
    assert t[24..40] == s6[24..40] == s5[24..40] == s4[24..40] == s3[24..40] == s2[24..40] == s1[24..40] == s0[24..40];
    assert t[40..44] == s6[40..44] == s5[40..44] == s4[40..44] == s3[40..44] == s2[40..44] == s1[40..44];
    assert t[nn..nn + 4] == s6[nn..nn + 4];
    assert t[nn + 4..nn + 8] == Pack(Net, settings);
  }

  lemma {:induction false} ZeroOrder()
    ensures Pack(Host, 0) == Pack(Net, 0)
  {
  }

  // Composes the message for the given containers, either of which may be
  // missing, and encrypts it in place unless there is no context yet.
  method EncryptPckData(ctx: Option<Aead>, pck: array?<byte>, addPck: array?<byte>, settings: uint32, nonce: uint32,
                        iv: seq<byte>, out: array<byte>, ghost c: Option<Container>, ghost d: Option<Container>) returns (ret: int)
    requires HoldsOption(pck, 0, Host, c) && HoldsOption(addPck, 0, Host, d)
    requires pck != out && addPck != out && (pck != null ==> pck != addPck)
    requires |iv| == IVLEN && MessageLength(c, d) <= out.Length && MessageLength(c, d) < 0x8000_0000
    requires ctx.Some? ==> ctx.value.Correct()
    modifies out, pck, addPck
    ensures ret == MessageLength(c, d)
    ensures out[..ret] == Sealed(ctx, ret, iv, old(out[24..40]), Additional(Net, 0, d), Plain(Net, nonce, settings, c))
    ensures HoldsOption(pck, 0, Net, c) && HoldsOption(addPck, 0, Net, d)
  {
    hide Pack;
    hide Plain;
    hide Additional;
    hide Wire;
    var addLen, msgLen := ComposeMessage(pck, addPck, settings, nonce, iv, out, c, d);
    ghost var add, plain, s := Additional(Net, 0, d), Plain(Net, nonce, settings, c), out[..];
    ghost var tag, body := s[24..40], plain;
    if ctx.Some? {
      Seal(ctx.value, out, addLen, msgLen, iv);
      SameWindows(s, out[..], 0, 24);
      body, tag := ctx.value.seal(iv, add, plain).0, ctx.value.seal(iv, add, plain).1;
    }
    WireFromWindows(out[..], Net, msgLen, iv, tag, add, body);
    return msgLen;
  }

  // What the finished message is: sealed, or open with the tag field untouched.
  function Sealed(ctx: Option<Aead>, n: uint32, iv: seq<byte>, tag: seq<byte>, add: seq<byte>, plain: seq<byte>): seq<byte>
    requires |add| < 0x1_0000_0000
  {
    match ctx
    case None => Wire(Net, n, iv, tag, add, plain)
    case Some(a) => Wire(Net, n, iv, a.seal(iv, add, plain).1, add, a.seal(iv, add, plain).0)
  }

  // The part of encryptPckData before the encryption.
  method ComposeMessage(pck: array?<byte>, addPck: array?<byte>, settings: uint32, nonce: uint32, iv: seq<byte>, out: array<byte>,
                        ghost c: Option<Container>, ghost d: Option<Container>) returns (addLen: uint32, msgLen: uint32)
    requires HoldsOption(pck, 0, Host, c) && HoldsOption(addPck, 0, Host, d)
    requires pck != out && addPck != out && (pck != null ==> pck != addPck)
    requires |iv| == IVLEN && MessageLength(c, d) <= out.Length && MessageLength(c, d) < 0x8000_0000
    modifies out, pck, addPck
    ensures addLen == ADD_LEN + Length(d) && msgLen == MessageLength(c, d)
    ensures out[0..4] == Pack(Net, msgLen) && out[4..8] == Pack(Net, addLen) && out[8..12] == Pack(Net, 0)
    ensures out[12..24] == iv && out[24..40] == old(out[24..40])
    ensures out[40..40 + addLen] == Additional(Net, 0, d)
    ensures out[40 + addLen..msgLen] == Plain(Net, nonce, settings, c)
    ensures HoldsOption(pck, 0, Net, c) && HoldsOption(addPck, 0, Net, d)
  {
    hide Pack;
    hide Unpack;
    hide Plain;
    hide Additional;
    hide Container.Image;
    var pckLen: uint32, userAddLen: uint32 := 0, 0;
    if pck != null {
      ReadTotal(pck[..], c.value);
      pckLen := Read32(pck, 0);
    }
    if addPck != null {
      ReadTotal(addPck[..], d.value);
      userAddLen := Read32(addPck, 0);
    }
    addLen := ADD_LEN + userAddLen;
    msgLen := 4 + 4 + 4 + IVLEN + TAGLEN + addLen + 4 + 4 + pckLen;
    WriteFields(out, msgLen, addLen, iv, nonce, settings);
    ghost var s1 := out[..];
    WriteContainers(out, addLen, pck, pckLen, addPck, userAddLen, c, d);
    ghost var s2 := out[..];
    SameWindows(s1, s2, 0, 44);
    SameWindows(s1, s2, 40 + addLen, 48 + addLen);
    BodyWindows(s2, addLen, msgLen, nonce, settings, c, d);
  }

  lemma {:induction false} ReadTotal(s: seq<byte>, c: Container)
    requires c.Valid() && c.Total() <= |s| && s[0..c.Total()] == c.Image(Host)
    ensures 8 <= c.Total() && Unpack(Host, s[0..4]) == c.Total()
  {
    assert s[..c.Total()] == s[0..c.Total()];
    ReadImage(s, Host, c);
  }

  // Converts the containers in place and copies them into the message.
  method WriteContainers(out: array<byte>, addLen: uint32, pck: array?<byte>, pckLen: uint32, addPck: array?<byte>, userAddLen: uint32,
                         ghost c: Option<Container>, ghost d: Option<Container>)
    requires HoldsOption(pck, 0, Host, c) && HoldsOption(addPck, 0, Host, d)
    requires pck != out && addPck != out && (pck != null ==> pck != addPck)
    requires pckLen == Length(c) && userAddLen == Length(d)
    requires addLen == ADD_LEN + userAddLen && 48 + addLen + pckLen <= out.Length
    modifies out, pck, addPck
    ensures out[0..44] == old(out[0..44]) && out[40 + addLen..48 + addLen] == old(out[40 + addLen..48 + addLen])
    ensures out[44..40 + addLen] == Image(Net, d) && out[48 + addLen..48 + addLen + Length(c)] == Image(Net, c)
    ensures HoldsOption(pck, 0, Net, c) && HoldsOption(addPck, 0, Net, d)
  {
    hide Pack;
    hide Splice;
    hide Container.Image;
    ghost var s0 := out[..];
    ghost var noContainer := Container([], 0);
    var r := PckDataToNetworkOrder(pck, 0, if c.Some? then c.value else noContainer);
    r := PckDataToNetworkOrder(addPck, 0, if d.Some? then d.value else noContainer);
    if pckLen > 0 {
      var bytes := pck[..pckLen];
      assert bytes == pck[0..pckLen];
      WriteBytes(out, 48 + addLen, bytes);
      SpliceKeeps(s0, 48 + addLen, bytes);
    }
    ghost var s1 := out[..];
    if userAddLen > 0 {
      var bytes := addPck[..userAddLen];
      assert bytes == addPck[0..userAddLen];
      WriteBytes(out, 44, bytes);
      SpliceKeeps(s1, 44, bytes);
    }
    ghost var t, n := out[..], 48 + addLen;
    assert t[0..44] == s1[0..44] == s0[0..44];
    assert t[n - 8..n] == s1[n - 8..n] == s0[n - 8..n];
    assert t[n..n + Length(c)] == s1[n..n + Length(c)];
  }

  // The windows of the two parts, put together.
  lemma {:induction false} BodyWindows(t: seq<byte>, addLen: uint32, n: uint32, nonce: uint32, settings: uint32,
                                       c: Option<Container>, d: Option<Container>)
    requires ValidOption(c) && ValidOption(d)
    requires addLen == ADD_LEN + Length(d) && n == 48 + addLen + Length(c) <= |t|
    requires t[40..44] == Pack(Net, 0) && t[44..40 + addLen] == Image(Net, d)
    requires t[40 + addLen..44 + addLen] == Pack(Net, nonce) && t[44 + addLen..48 + addLen] == Pack(Net, settings)
    requires t[48 + addLen..n] == Image(Net, c)
    ensures t[40..40 + addLen] == Additional(Net, 0, d)
    ensures t[40 + addLen..n] == Plain(Net, nonce, settings, c)
  {
    hide Pack;
    hide Image;
    assert t[40..40 + addLen] == t[40..44] + t[44..40 + addLen];
    Joined3(t, 40 + addLen, 44 + addLen, 48 + addLen, n);
  }

  lemma {:induction false} Joined3(t: seq<byte>, i: nat, j: nat, k: nat, l: nat)
    requires i <= j <= k <= l <= |t|
    ensures t[i..l] == t[i..j] + t[j..k] + t[k..l]
  {
  }

  // Encrypts the body in place and stores the tag.
  method Seal(a: Aead, out: array<byte>, addLen: uint32, n: uint32, iv: seq<byte>)
    requires a.Correct() && 40 + addLen <= n <= out.Length
    modifies out
    ensures out[0..24] == old(out[0..24]) && out[40..40 + addLen] == old(out[40..40 + addLen])
    ensures var (body, tag) := a.seal(iv, old(out[40..40 + addLen]), old(out[40 + addLen..n]));
            out[24..40] == tag && out[40 + addLen..n] == body && |tag| == TAGLEN
  {
    hide Splice;
    var (body, tag) := a.seal(iv, out[40..40 + addLen], out[40 + addLen..n]);
    ghost var s0 := out[..];
    WriteBytes(out, 40 + addLen, body);
    SpliceKeeps(s0, 40 + addLen, body);
    ghost var s1 := out[..];
    WriteBytes(out, 24, tag);
    SpliceKeeps(s1, 24, tag);
    ghost var t := out[..];
    assert t[0..24] == s1[0..24] == s0[0..24];
    assert t[40..40 + addLen] == s1[40..40 + addLen] == s0[40..40 + addLen];
    assert t[40 + addLen..n] == s1[40 + addLen..n];
  }

  // ---- taking apart

  // *(uint32_t *)(a + k) = ntohl(*(uint32_t *)(a + k))
  method WordToHost(a: array<byte>, k: nat, ghost v: uint32)
    requires k + 4 <= a.Length && a[k..k + 4] == Pack(Net, v)
    modifies a
    ensures a[..] == Splice(old(a[..]), k, Pack(Host, v))
  {
    SwapRead(Net, Host, v);
    var w := Read32(a, k);
    Write32(a, k, Swap(w));
  }

  // Stores the opened body in the output and converts its fields to host order.
  method StoreBody(out: array<byte>, plain: seq<byte>, ghost nonce: uint32, ghost settings: uint32, ghost c: Option<Container>)
    requires ValidOption(c) && plain == Plain(Net, nonce, settings, c) && |plain| <= out.Length
    modifies out
    ensures out[0..|plain|] == Plain(Host, nonce, settings, c)
  {
    hide Pack;
    hide Plain;
    hide Splice;
    hide Container.Image;
    ghost var n := |plain|;
    StoreFields(out, plain, nonce, settings, c);
    ghost var s3 := out[..];
    TotalAtLeastHeader(c);
    if |plain| > ENCRYPTED_LEN {
      var r := PckDataToHostOrder(out, 8, c.value);
    }
    ghost var t := out[..];
    SameWindows(s3, t, 0, 8);
    Joined3(t, 0, 4, 8, n);
    PlainIs(Host, nonce, settings, c);
  }

  lemma {:induction false} PlainIs(o: Order, nonce: uint32, settings: uint32, c: Option<Container>)
    requires ValidOption(c)
    ensures Plain(o, nonce, settings, c) == Pack(o, nonce) + Pack(o, settings) + Image(o, c)
    ensures |Plain(o, nonce, settings, c)| == 8 + Length(c)
  {
    hide Pack;
    hide Container.Image;
  }

  // The copy and the two words before the container.
  method StoreFields(out: array<byte>, plain: seq<byte>, ghost nonce: uint32, ghost settings: uint32, ghost c: Option<Container>)
    requires ValidOption(c) && plain == Plain(Net, nonce, settings, c) && |plain| <= out.Length
    modifies out
    ensures 8 <= |plain| && out[0..4] == Pack(Host, nonce) && out[4..8] == Pack(Host, settings)
    ensures out[8..|plain|] == Image(Net, c)
  {
    hide Pack;
    hide Splice;
    hide Container.Image;
    ghost var s0, n := out[..], |plain|;
    assert plain[0..4] == Pack(Net, nonce) && plain[4..8] == Pack(Net, settings) && plain[8..] == Image(Net, c);
    WriteBytes(out, 0, plain);
    SpliceKeeps(s0, 0, plain);
    ghost var s1 := out[..];
    SubWindow(s1, 0, n, 0, 4); SubWindow(s1, 0, n, 4, 8); SubWindow(s1, 0, n, 8, n);
    WordToHost(out, 0, nonce);
    SpliceKeeps(s1, 0, Pack(Host, nonce));
    ghost var s2 := out[..];
    WordToHost(out, 4, settings);
    SpliceKeeps(s2, 4, Pack(Host, settings));
    ghost var s3 := out[..];
    assert s3[8..n] == s2[8..n] == s1[8..n] == Image(Net, c);
    assert s3[0..4] == s2[0..4];
  }

  lemma {:induction false} TotalAtLeastHeader(c: Option<Container>)
    requires ValidOption(c)
    ensures Length(c) == 0 <==> c.None?
  {
  }

  // Converts the container in the additional data, if there is one.
  method StoreAdditional(msg: array<byte>, addLen: uint32, ghost d: Option<Container>)
    requires ValidOption(d) && addLen == ADD_LEN + Length(d) && 40 + addLen <= msg.Length
    requires msg[44..40 + addLen] == Image(Net, d)
    modifies msg
    ensures msg[44..40 + addLen] == Image(Host, d)
    ensures msg[0..44] == old(msg[0..44]) && msg[40 + addLen..] == old(msg[40 + addLen..])
  {
    hide Pack;
    hide Container.Image;
    TotalAtLeastHeader(d);
    if addLen - ADD_LEN > 0 {
      var r := PckDataToHostOrder(msg, 44, d.value);
    }
  }

  // An opening that fails writes n bytes nothing is known about.
  method FailedOpen(out: array<byte>, n: nat)
    requires n <= out.Length
    modifies out
    ensures out[n..] == old(out[n..])
  {
    ghost var zeros: seq<byte> := seq(n, i => 0);
    assert |zeros| == n;
    var leftover: seq<byte> :| |leftover| == n;
    WriteBytes(out, 0, leftover);
  }

  // Opens a received message. On success the output buffer and the message
  // itself hold everything in host order; on failure the message does not
  // change, and the output holds whatever the failed opening leaves there.
  method DecryptPckData(ctx: Aead, msg: array<byte>, out: array<byte>,
                        ghost iv: seq<byte>, ghost tag: seq<byte>, ghost version: uint32, ghost d: Option<Container>, ghost body: seq<byte>,
                        ghost nonce: uint32, ghost settings: uint32, ghost c: Option<Container>) returns (ret: int)
    requires ctx.Correct() && msg != out && ValidOption(c) && ValidOption(d)
    requires |iv| == IVLEN && |tag| == TAGLEN && Length(d) + ADD_LEN < 0x1_0000_0000
    requires 40 + ADD_LEN + Length(d) + |body| <= msg.Length && |body| <= out.Length
    requires 40 + ADD_LEN + Length(d) + |body| < 0x1_0000_0000
    requires var n := 40 + ADD_LEN + Length(d) + |body|;
             msg[..n] == Wire(Net, n, iv, tag, Additional(Net, version, d), body)
    requires var plainText := ctx.open(iv, Additional(Net, version, d), body, tag);
             plainText.Some? ==> plainText.value == Plain(Net, nonce, settings, c)
    modifies msg, out
    ensures ret == (if ctx.open(iv, Additional(Net, version, d), body, tag).None? then -1 else 0)
    ensures ret == -1 ==> msg[..] == old(msg[..]) && out[|body|..] == old(out[|body|..])
    ensures ret == 0 ==> |body| == ENCRYPTED_LEN + Length(c) && out[0..|body|] == Plain(Host, nonce, settings, c)
    ensures var n := 40 + ADD_LEN + Length(d) + |body|;
            ret == 0 ==> msg[..n] == Wire(Host, n, iv, tag, Additional(Host, version, d), Plain(Host, nonce, settings, c))
  {
    hide Pack;
    hide Plain;
    hide Additional;
    hide Wire;
    ghost var n: uint32 := 40 + ADD_LEN + Length(d) + |body|;
    ghost var add := Additional(Net, version, d);
    WindowsFromWire(msg[..], Net, n, iv, tag, add, body);
    SwapRead(Net, Host, n); SwapRead(Net, Host, |add|);
    var msgLen := Read32(msg, 0);
    msgLen := Swap(msgLen);
    var addLen := Read32(msg, 4);
    addLen := Swap(addLen);
    var eDataLen := msgLen - (4 + 4 + 4 + IVLEN + TAGLEN + addLen);
    var plainText := ctx.open(msg[12..24], msg[40..40 + addLen], msg[40 + addLen..40 + addLen + eDataLen], msg[24..40]);
    if plainText.None? {
      FailedOpen(out, eDataLen);
      return -1;
    }
    StoreBody(out, plainText.value, nonce, settings, c);
    PutTogether(msg, out, msgLen, iv, tag, addLen, version, d, Plain(Host, nonce, settings, c));
    return 0;
  }

  // The lengths and the version number in host order.
  method HeaderToHost(msg: array<byte>, n: uint32, addLen: uint32, ghost version: uint32)
    requires 44 <= n <= msg.Length
    requires msg[0..4] == Pack(Net, n) && msg[4..8] == Pack(Net, addLen) && msg[8..12] == Pack(Net, 0)
    requires msg[40..44] == Pack(Net, version)
    modifies msg
    ensures msg[0..4] == Pack(Host, n) && msg[4..8] == Pack(Host, addLen) && msg[8..12] == Pack(Host, 0)
    ensures msg[40..44] == Pack(Host, version)
    ensures msg[12..40] == old(msg[12..40]) && msg[44..n] == old(msg[44..n])
  {
    hide Pack;
    hide Splice;
    ghost var s2 := msg[..];
    WordToHost(msg, 0, n);
    SpliceKeeps(s2, 0, Pack(Host, n));
    ghost var s3 := msg[..];
    WordToHost(msg, 4, addLen);
    SpliceKeeps(s3, 4, Pack(Host, addLen));
    ghost var s4 := msg[..];
    WordToHost(msg, 8, 0);
    SpliceKeeps(s4, 8, Pack(Host, 0));
    ghost var s5 := msg[..];
    WordToHost(msg, 40, version);
    SpliceKeeps(s5, 40, Pack(Host, version));
    ghost var t := msg[..];
    assert t[0..4] == s5[0..4] == s4[0..4] == s3[0..4];
    assert t[4..8] == s5[4..8] == s4[4..8];
    assert t[8..12] == s5[8..12];
    assert t[12..40] == s5[12..40] == s4[12..40] == s3[12..40] == s2[12..40];
    assert t[44..n] == s5[44..n] == s4[44..n] == s3[44..n] == s2[44..n];
  }

  // The message with everything back in host order.
  method PutTogether(msg: array<byte>, out: array<byte>, n: uint32, ghost iv: seq<byte>, ghost tag: seq<byte>, addLen: uint32,
                     ghost version: uint32, ghost d: Option<Container>, ghost plain: seq<byte>)
    requires msg != out && ValidOption(d) && addLen == ADD_LEN + Length(d) && n == 40 + addLen + |plain| <= msg.Length
    requires |plain| <= out.Length && out[0..|plain|] == plain && |iv| == IVLEN && |tag| == TAGLEN
    requires msg[0..4] == Pack(Net, n) && msg[4..8] == Pack(Net, addLen) && msg[8..12] == Pack(Net, 0)
    requires msg[12..24] == iv && msg[24..40] == tag && msg[40..40 + addLen] == Additional(Net, version, d)
    modifies msg
    ensures msg[..n] == Wire(Host, n, iv, tag, Additional(Host, version, d), plain)
  {
    hide Pack;
    hide Splice;
    hide Wire;
    hide Container.Image;
    ghost var s0 := msg[..];
    assert s0[40..40 + addLen][0..4] == Pack(Net, version) && s0[40..40 + addLen][4..addLen] == Image(Net, d);
    SubWindow(s0, 40, addLen, 0, 4); SubWindow(s0, 40, addLen, 4, addLen);
    StoreAdditional(msg, addLen, d);
    ghost var s1 := msg[..];
    SameWindows(s0, s1, 0, 44);
    WriteBytes(msg, 40 + addLen, out[0..n - (40 + addLen)]);
    SpliceKeeps(s1, 40 + addLen, plain);
    ghost var s2 := msg[..];
    SameWindows(s1, s2, 0, 40 + addLen);
    HeaderToHost(msg, n, addLen, version);
    ghost var t := msg[..];
    SameWindows(s2, t, 12, 40);
    SameWindows(s2, t, 44, n);
    assert t[40..40 + addLen] == t[40..44] + t[44..40 + addLen];
    WireFromWindows(t, Host, n, iv, tag, Additional(Host, version, d), plain);
  }

  // ---- the round trip

  // A message composed from two containers, received unchanged and opened with
  // the same key: nonce, settings and both containers are back in host order,
  // and reading element k of the body gives the k-th appended element.
  method Transfer(ctx: Aead, pck: array<byte>, addPck: array<byte>, settings: uint32, nonce: uint32, iv: seq<byte>,
                  wire: array<byte>, out: array<byte>, element: array<byte>, k: nat, ghost c: Container, ghost d: Container)
    returns (ret: int, len: uint32)
    requires ctx.Correct() && Holds(pck, 0, Host, c) && Holds(addPck, 0, Host, d) && |iv| == IVLEN
    requires pck != wire && addPck != wire && pck != addPck && wire != out && out != element && element != wire && element != pck && element != addPck
    requires MessageLength(Some(c), Some(d)) <= wire.Length && MessageLength(Some(c), Some(d)) < 0x8000_0000
    requires 8 + c.Total() <= out.Length
    requires k < |c.es| && k < 0x8000_0000 && |c.es[k]| <= element.Length
    requires k == |c.es| - 1 ==> c.es[k] != []
    modifies pck, addPck, wire, out, element
    ensures ret == 0
    ensures out[0..8 + c.Total()] == Plain(Host, nonce, settings, Some(c))
    ensures wire[40..44 + d.Total()] == Additional(Host, 0, Some(d))
    ensures len == |c.es[k]| && element[..|c.es[k]|] == c.es[k]
  {
    hide Pack;
    hide Additional;
    hide Wire;
    hide Container.Image;
    var n := EncryptPckData(Some(ctx), pck, addPck, settings, nonce, iv, wire, Some(c), Some(d));
    ghost var add := Additional(Net, 0, Some(d));
    ghost var sealed := ctx.seal(iv, add, Plain(Net, nonce, settings, Some(c)));
    ret := DecryptPckData(ctx, wire, out, iv, sealed.1, 0, Some(d), sealed.0, nonce, settings, Some(c));
    WindowsFromWire(wire[..], Host, n, iv, sealed.1, Additional(Host, 0, Some(d)), Plain(Host, nonce, settings, Some(c)));
    PlainHolds(out[..], nonce, settings, c);
    len := GetElementFromPckData(out, 8, element, k, c);
  }

  lemma {:induction false} PlainHolds(t: seq<byte>, nonce: uint32, settings: uint32, c: Container)
    requires c.Valid() && 8 + c.Total() <= |t| && t[0..8 + c.Total()] == Plain(Host, nonce, settings, Some(c))
    ensures t[8..8 + c.Total()] == c.Image(Host)
    ensures c.es != [] ==> 12 <= c.Total()
  {
    hide Pack;
    hide Container.Image;
    ImageLength(c, Host);
    SubWindow(t, 0, 8 + c.Total(), 8, 8 + c.Total());
    CountBound(c.es);
  }
}
