// Establishing a session id between a node and the server:
// encryptAndSendAll of protocol/pckData/pckData.c with the session branches of
// processMsg in mainserver/mainServer/server.c and nodeClient/mainClient/client.c.
//
// A message is represented by the nonce value that encryptPckData is given. It
// is swapped once more onto the wire and once back by decryptPckData, so the
// receiver reads exactly that value (module Message).
module Handshake {
  import opened Bytes

  // The session fields of connInfo_t.
  datatype Conn = Conn(remoteNonce: uint32, localNonce: uint32, sessionId: uint32, sendSessionIncrements: uint32)

  const Fresh := Conn(0, 0, 0, 0)

  function Plus(a: uint32, b: uint32): uint32 {
    (a + b) % 0x1_0000_0000
  }

  // What a random nonce becomes: 0 is replaced, because it stands for unset.
  function Chosen(random: uint32): uint32 {
    if random == 0 then 1 else random
  }

  // encryptAndSendAll: the new record and the nonce that is passed on, if any.
  function Send(c: Conn, random: uint32): (Conn, Option<uint32>) {
    if c.sessionId != 0 then
      var n := Plus(c.sendSessionIncrements, 1);
      (c.(sendSessionIncrements := n), Some(Swap(Plus(c.sessionId, n))))
    else if c.localNonce != 0 then (c, None)
    else (c.(localNonce := Chosen(random)), Some(Swap(Chosen(random))))
  }

  // The server's reaction to a message, without what follows the handshake.
  function ServerReceive(c: Conn, nonce: uint32, random: uint32): (Conn, Option<uint32>) {
    if c.localNonce == 0 && c.remoteNonce == 0 then
      var (d, reply) := Send(c.(remoteNonce := nonce), random);
      var l := Swap(d.localNonce);
      (d.(localNonce := l, sessionId := Plus(nonce, l)), reply)
    else if c.remoteNonce == 0 && c.localNonce != 0 then
      (c.(remoteNonce := nonce, sessionId := Plus(nonce, c.localNonce)), None)
    else (c, None)
  }

  function ClientReceive(c: Conn, nonce: uint32): Conn {
    if c.sessionId == 0 then
      var l := Swap(c.localNonce);
      c.(remoteNonce := nonce, localNonce := l, sessionId := Plus(l, nonce))
    else c
  }

  class ConnInfo {
    var remoteNonce: uint32
    var localNonce: uint32
    var sessionId: uint32
    var sendSessionIncrements: uint32

    function Value(): Conn
      reads this
    {
      Conn(remoteNonce, localNonce, sessionId, sendSessionIncrements)
    }

    // initializeConnInfo
    constructor ()
      ensures Value() == Fresh
    {
      remoteNonce, localNonce, sessionId, sendSessionIncrements := 0, 0, 0, 0;
    }

    // encryptAndSendAll with a connection; -1 when the call is ignored.
    method EncryptAndSendAll(random: uint32) returns (ret: int, nonce: Option<uint32>)
      modifies this
      ensures (Value(), nonce) == Send(old(Value()), random)
      ensures ret == if nonce.None? then -1 else 0
      ensures sessionId == old(sessionId) && remoteNonce == old(remoteNonce)
      ensures old(sessionId) != 0 ==>
                && sendSessionIncrements == (old(sendSessionIncrements) + 1) % 0x1_0000_0000 && localNonce == old(localNonce)
                && nonce == Some(Swap((sessionId + sendSessionIncrements) % 0x1_0000_0000))
      ensures old(sessionId) == 0 ==>
                && sendSessionIncrements == old(sendSessionIncrements)
                && localNonce == (if old(localNonce) != 0 then old(localNonce) else if random == 0 then 1 else random)
                && nonce == (if old(localNonce) != 0 then None else Some(Swap(localNonce)))
    {
      hide Swap;
      if sessionId != 0 {
        sendSessionIncrements := (sendSessionIncrements + 1) % 0x1_0000_0000;
        var currentNonce := (sessionId + sendSessionIncrements) % 0x1_0000_0000;
        currentNonce := Swap(currentNonce);
        return 0, Some(currentNonce);
      }
      if localNonce != 0 {
        return -1, None;
      }
      localNonce := random;
      if localNonce == 0 {
        localNonce := 1;
      }
      return 0, Some(Swap(localNonce));
    }

    // processMsg of the server
    method ProcessMsgServer(received: uint32, random: uint32) returns (reply: Option<uint32>)
      modifies this
      ensures (Value(), reply) == ServerReceive(old(Value()), received, random)
      ensures old(localNonce) == 0 && old(remoteNonce) == 0 && old(sessionId) == 0 ==>
                && remoteNonce == received && localNonce == Swap(if random == 0 then 1 else random)
                && sessionId == (received + localNonce) % 0x1_0000_0000 && reply == Some(localNonce)
      ensures old(localNonce) != 0 && old(remoteNonce) == 0 ==>
                && remoteNonce == received && localNonce == old(localNonce)
                && sessionId == (received + localNonce) % 0x1_0000_0000 && reply == None
      ensures old(remoteNonce) != 0 ==> Value() == old(Value()) && reply == None
    {
      hide Swap;
      reply := None;
      if localNonce == 0 && remoteNonce == 0 {
        remoteNonce := received;
        var ret;
        ret, reply := EncryptAndSendAll(random);
        localNonce := Swap(localNonce);
        sessionId := (remoteNonce + localNonce) % 0x1_0000_0000;
      } else if remoteNonce == 0 && localNonce != 0 {
        remoteNonce := received;
        sessionId := (remoteNonce + localNonce) % 0x1_0000_0000;
      }
    }

    // processMsg of the node
    method ProcessMsgClient(received: uint32)
      modifies this
      ensures Value() == ClientReceive(old(Value()), received)
      ensures old(sessionId) != 0 ==> Value() == old(Value())
      ensures old(sessionId) == 0 ==>
                && remoteNonce == received && localNonce == Swap(old(localNonce))
                && sessionId == (localNonce + received) % 0x1_0000_0000 && sendSessionIncrements == old(sendSessionIncrements)
    {
      hide Swap;
      if sessionId == 0 {
        remoteNonce := received;
        localNonce := Swap(localNonce);
        sessionId := (localNonce + remoteNonce) % 0x1_0000_0000;
      }
    }
  }

  // ---- both ends and the two channels between them

  // The last four fields record history: the nonces that were drawn and what
  // each side passed on after its session id was there.
  datatype System = System(
    node: Conn, server: Conn,
    toServer: seq<uint32>, toNode: seq<uint32>,
    nodeNonce: uint32, serverNonce: uint32,
    nodeSent: seq<uint32>, serverSent: seq<uint32>)

  const Start := System(Fresh, Fresh, [], [], 0, 0, [], [])

  datatype Event =
    | NodeStarts(random: uint32)     // the node sends its nonce
    | NodeSends(random: uint32)      // the node sends a queued command
    | ServerSends(random: uint32)    // the server tries to send a queued command
    | ServerReceives(random: uint32)
    | NodeReceives

  // When the programs perform an event.
  predicate Enabled(y: System, e: Event) {
    match e
    case NodeStarts(_) => y.node.localNonce == 0
    case NodeSends(_) => y.node.sessionId != 0
    case ServerSends(_) => y.server.remoteNonce != 0
    case ServerReceives(_) => y.toServer != []
    case NodeReceives => y.toNode != []
  }

  function Queue(ch: seq<uint32>, n: Option<uint32>): seq<uint32> {
    if n.None? then ch else ch + [n.value]
  }

  function Do(y: System, e: Event): System
    requires Enabled(y, e)
  {
    match e
    case NodeStarts(random) =>
      var (c, n) := Send(y.node, random);
      y.(node := c, toServer := Queue(y.toServer, n), nodeNonce := Chosen(random))
    case NodeSends(random) =>
      var (c, n) := Send(y.node, random);
      y.(node := c, toServer := Queue(y.toServer, n), nodeSent := Queue(y.nodeSent, n))
    case ServerSends(random) =>
      var (c, n) := Send(y.server, random);
      y.(server := c, toNode := Queue(y.toNode, n), serverSent := Queue(y.serverSent, n))
    case ServerReceives(random) =>
      var first := y.server.remoteNonce == 0 && y.server.localNonce == 0;
      var (c, n) := ServerReceive(y.server, y.toServer[0], random);
      y.(server := c, toServer := y.toServer[1..], toNode := Queue(y.toNode, n),
         serverNonce := if first then Chosen(random) else y.serverNonce)
    case NodeReceives =>
      y.(node := ClientReceive(y.node, y.toNode[0]), toNode := y.toNode[1..])
  }

  // A run: every event is enabled where it happens.
  ghost predicate Run(y: System, es: seq<Event>, z: System)
    decreases |es|
  {
    if es == [] then y == z else Enabled(y, es[0]) && Run(Do(y, es[0]), es[1..], z)
  }

  function Session(a: uint32, b: uint32): uint32 {
    Plus(Swap(a), Swap(b))
  }

  // The nonces of an established session, by the number of the message.
  ghost predicate Numbered(sent: seq<uint32>, c: Conn) {
    && c.sendSessionIncrements == |sent| % 0x1_0000_0000
    && (sent != [] ==> c.sessionId != 0)
    && forall i :: 0 <= i < |sent| ==> sent[i] == Swap((c.sessionId + i + 1) % 0x1_0000_0000)
  }

  ghost predicate NotStarted(y: System) {
    y.node == Fresh && y.server == Fresh && y.toServer == [] && y.toNode == []
  }

  ghost predicate NonceSent(y: System) {
    && y.nodeNonce != 0 && y.server == Fresh && y.toServer == [Swap(y.nodeNonce)] && y.toNode == []
    && y.node == Fresh.(localNonce := y.nodeNonce)
  }

  ghost predicate ServerDone(y: System) {
    && y.nodeNonce != 0 && y.serverNonce != 0
    && y.server.remoteNonce == Swap(y.nodeNonce) && y.server.localNonce == Swap(y.serverNonce)
    && y.server.sessionId == Session(y.nodeNonce, y.serverNonce)
  }

  ghost predicate Replied(y: System) {
    && ServerDone(y) && y.node == Fresh.(localNonce := y.nodeNonce) && y.toServer == []
    && y.toNode != [] && y.toNode[0] == Swap(y.serverNonce)
    && (y.server.sessionId == 0 ==> |y.toNode| == 1)
  }

  ghost predicate BothDone(y: System) {
    && ServerDone(y)
    && y.node.remoteNonce == Swap(y.serverNonce) && y.node.localNonce == Swap(y.nodeNonce)
    && y.node.sessionId == Session(y.nodeNonce, y.serverNonce)
    && (y.node.sessionId == 0 ==> y.toServer == [] && y.toNode == [])
  }

  ghost predicate Inv(y: System) {
    && (NotStarted(y) || NonceSent(y) || Replied(y) || BothDone(y))
    && Numbered(y.nodeSent, y.node) && Numbered(y.serverSent, y.server)
  }

  lemma {:induction false} SwapNonZero(v: uint32)
    ensures v != 0 <==> Swap(v) != 0
  {
    SwapOrders(v);
    assert Swap(0) == 0;
  }

  lemma {:induction false} SendNumbered(c: Conn, sent: seq<uint32>, random: uint32)
    requires Numbered(sent, c) && (c.sessionId != 0 || c.localNonce != 0)
    ensures var (d, n) := Send(c, random);
            && Numbered(Queue(sent, n), d) && d.(sendSessionIncrements := 0) == c.(sendSessionIncrements := 0)
            && (n.None? <==> c.sessionId == 0)
  {
    hide Swap;
    if c.sessionId != 0 {
      Wrap(1, |sent|);
      Wrap(c.sessionId, |sent| + 1);
    }
  }

  lemma {:induction false} Wrap(a: nat, b: nat)
    ensures (b % 0x1_0000_0000 + a) % 0x1_0000_0000 == (a + b) % 0x1_0000_0000
    ensures (a + b % 0x1_0000_0000) % 0x1_0000_0000 == (a + b) % 0x1_0000_0000
  {
  }

  // Every event keeps the invariant.
  lemma {:induction false} InvKept(y: System, e: Event)
    requires Inv(y) && Enabled(y, e)
    ensures Inv(Do(y, e))
  {
    hide Swap;
    SwapNonZero(y.nodeNonce);
    SwapNonZero(y.serverNonce);
    match e {
      case NodeStarts(random) =>
        assert NotStarted(y);
      case NodeSends(random) =>
        SendNumbered(y.node, y.nodeSent, random);
      case ServerSends(random) =>
        SendNumbered(y.server, y.serverSent, random);
      case ServerReceives(random) =>
        ServerReceivesKept(y, random);
      case NodeReceives =>
        SwapOrders(y.nodeNonce);
    }
  }

  lemma {:induction false} ServerReceivesKept(y: System, random: uint32)
    requires Inv(y) && y.toServer != []
    ensures Inv(Do(y, ServerReceives(random)))
  {
    hide Swap;
    SwapNonZero(y.nodeNonce);
    if NonceSent(y) {
      var z := Do(y, ServerReceives(random));
      assert Replied(z);
    }
  }

  lemma {:induction false} InvAlways(y: System, es: seq<Event>, z: System)
    requires Inv(y) && Run(y, es, z)
    ensures Inv(z)
    decreases |es|
  {
    if es != [] {
      InvKept(y, es[0]);
      InvAlways(Do(y, es[0]), es[1..], z);
    }
  }

  // In every reachable state, two ends that have computed their session ids
  // have the same one, the sum of the byte-swapped nonces; each later message
  // carries the next number of the session.
  lemma {:induction false} SessionIdsAgree(es: seq<Event>, z: System)
    requires Run(Start, es, z)
    ensures z.node.remoteNonce != 0 && z.server.remoteNonce != 0 ==>
              z.node.sessionId == z.server.sessionId == Session(z.nodeNonce, z.serverNonce)
    ensures z.node.sessionId != 0 && z.server.sessionId != 0 ==> z.node.sessionId == z.server.sessionId
    ensures forall i :: 0 <= i < |z.nodeSent| ==> z.nodeSent[i] == Swap((z.node.sessionId + i + 1) % 0x1_0000_0000)
    ensures forall i :: 0 <= i < |z.serverSent| ==> z.serverSent[i] == Swap((z.server.sessionId + i + 1) % 0x1_0000_0000)
  {
    hide Swap;
    InvAlways(Start, es, z);
    SwapNonZero(z.nodeNonce);
    SwapNonZero(z.serverNonce);
  }

  // The handshake establishes a session exactly when the swapped nonces do not
  // cancel; if they do, both ends are stuck: nothing is in flight and neither
  // end will send again.
  lemma {:induction false} SessionEstablished(es: seq<Event>, z: System)
    requires Run(Start, es, z) && z.node.remoteNonce != 0
    ensures z.node.sessionId != 0 <==> (Swap(z.nodeNonce) + Swap(z.serverNonce)) % 0x1_0000_0000 != 0
    ensures z.node.sessionId == 0 ==> z.toServer == [] && z.toNode == []
    ensures z.node.sessionId == 0 ==> forall e :: Enabled(z, e) ==> Do(z, e) == z
  {
    hide Swap;
    InvAlways(Start, es, z);
    SwapNonZero(z.nodeNonce);
    SwapNonZero(z.serverNonce);
  }

  // The handshake alone: the node's nonce, the server's reply, its receipt.
  function Handshake(a: uint32, b: uint32): seq<Event> {
    [NodeStarts(a), ServerReceives(b), NodeReceives]
  }

  // Whatever random numbers are drawn, it runs from the start.
  lemma {:induction false} HandshakeRuns(a: uint32, b: uint32) returns (z: System)
    ensures Run(Start, Handshake(a, b), z)
    ensures z.nodeNonce == Chosen(a) && z.serverNonce == Chosen(b)
    ensures z.node.remoteNonce == Swap(Chosen(b)) != 0
  {
    hide Swap;
    SwapNonZero(Chosen(a));
    SwapNonZero(Chosen(b));
    var es := Handshake(a, b);
    var x := Do(Start, es[0]);
    var y := Do(x, es[1]);
    assert y.toNode == [Swap(Chosen(b))];
    z := Do(y, es[2]);
    RunThree(Start, es[0], es[1], es[2], z);
  }

  lemma {:induction false} RunThree(y: System, e: Event, f: Event, g: Event, z: System)
    requires Enabled(y, e) && Enabled(Do(y, e), f) && Enabled(Do(Do(y, e), f), g) && z == Do(Do(Do(y, e), f), g)
    ensures Run(y, [e, f, g], z)
  {
    hide Do;
    hide Enabled;
    assert [e, f, g][1..] == [f, g] && [f, g][1..] == [g] && [g][1..] == [];
    assert Run(Do(Do(y, e), f), [g], z);
    assert Run(Do(y, e), [f, g], z);
  }

  // A run that gets stuck: both sides draw 0x80, the handshake is complete,
  // and from then on no event changes anything.
  lemma {:induction false} SessionMayCancel() returns (z: System)
    ensures Run(Start, Handshake(0x80, 0x80), z)
    ensures z.node.remoteNonce != 0 && z.node.sessionId == 0
    ensures forall e :: Enabled(z, e) ==> Do(z, e) == z
  {
    hide Do;
    hide Enabled;
    hide Run;
    z := HandshakeRuns(0x80, 0x80);
    assert Pack(Host, 0x80) == [0x80, 0, 0, 0];
    SessionEstablished(Handshake(0x80, 0x80), z);
  }

  // In every run no two of 2^32 consecutive messages of one side carry
  // the same number.
  lemma {:induction false} NoncesDistinct(es: seq<Event>, z: System, i: nat, j: nat)
    requires Run(Start, es, z) && i < j && j - i < 0x1_0000_0000
    ensures j < |z.nodeSent| ==> z.nodeSent[i] != z.nodeSent[j]
    ensures j < |z.serverSent| ==> z.serverSent[i] != z.serverSent[j]
  {
    InvAlways(Start, es, z);
    if j < |z.nodeSent| { NumbersDistinct(z.nodeSent, z.node, i, j); }
    if j < |z.serverSent| { NumbersDistinct(z.serverSent, z.server, i, j); }
  }

  lemma {:induction false} NumbersDistinct(sent: seq<uint32>, c: Conn, i: nat, j: nat)
    requires Numbered(sent, c) && i < j < |sent| && j - i < 0x1_0000_0000
    ensures sent[i] != sent[j]
  {
    hide Swap;
    var w := 0x1_0000_0000;
    var a, b := (c.sessionId + i + 1) % w, (c.sessionId + j + 1) % w;
    SwapOrders(a);
    SwapOrders(b);
    ModPlus(c.sessionId + i + 1, j - i, w);
  }
}
