// Reassembly of a byte stream into messages: recvAll and its helpers of
// protocol/pckData/pckData.c, with one receive holder for one connection.
module Receive {
  import opened Bytes

  const MAXDEVMSGLEN := 255

  // A message on the wire starts with its own length in network order.
  predicate IsMessage(m: seq<byte>) {
    5 <= |m| <= MAXDEVMSGLEN && m[..4] == Pack(Net, |m|)
  }

  function Flatten(ms: seq<seq<byte>>): seq<byte> {
    if ms == [] then [] else ms[0] + Flatten(ms[1..])
  }

  class RecvHolder {
    var socket: int
    var recvQueue: array<byte>
    var size: nat
    var sizeUsed: nat
    var firstMsgPtr: int  // index into the queue; -1 stands for NULL
    var firstMsgSize: uint32
    var firstMsgSizeUsed: uint32

    // initRecvHolder with maxSize = MAXDEVMSGLEN * 3.
    constructor (maxSize: nat, socket: int)
      requires maxSize >= MAXDEVMSGLEN
      ensures fresh(recvQueue) && this.socket == socket && size == maxSize
      ensures State([], 0, 0)
    {
      this.socket := socket;
      firstMsgPtr := -1;
      size := maxSize;
      sizeUsed := 0;
      firstMsgSize := 0;
      firstMsgSizeUsed := 0;
      recvQueue := new byte[maxSize];
    }

    // After pos bytes in all, r of them belong to the unfinished message m:
    // the write position is pos modulo the ring size, the message starts r
    // bytes before it, and its bytes are in the ring.
    ghost predicate State(m: seq<byte>, r: nat, pos: nat)
      reads this, recvQueue
    {
      && recvQueue.Length == size >= MAXDEVMSGLEN
      && sizeUsed == pos % size
      && r <= pos && r <= |m| && firstMsgSizeUsed == r
      && (r == 0 ==> firstMsgPtr == -1 && firstMsgSize == 0)
      && (r > 0 ==>
          && IsMessage(m) && r < |m|
          && firstMsgPtr == (pos - r) % size && firstMsgPtr + 4 <= size
          && firstMsgSize == (if r < 4 then r else |m|)
          && forall k :: 0 <= k < r ==> recvQueue[Ring(firstMsgPtr, k, size)] == m[k])
    }

    // handleMsgLen: finds the start of a message and, once four bytes are
    // there, its length.
    method HandleMsgLen(rs: nat, ghost m: seq<byte>, ghost r: nat)
      requires recvQueue.Length == size
      requires IsMessage(m) && r < 4 && 0 < rs && r + rs <= |m|
      requires firstMsgSize == r
      requires var start := if r == 0 then sizeUsed else firstMsgPtr;
               0 <= start && start + 4 <= size && forall k :: 0 <= k < r + rs && k < 4 ==> recvQueue[start + k] == m[k]
      modifies this`firstMsgPtr, this`firstMsgSize
      ensures firstMsgPtr == if r == 0 then sizeUsed else old(firstMsgPtr)
      ensures firstMsgSize == if r + rs < 4 then r + rs else |m|
    {
      if firstMsgSize == 0 && firstMsgSize != 5 {
        firstMsgPtr := sizeUsed;
      }
      firstMsgSize := firstMsgSize + rs;
      if firstMsgSize >= 4 {
        var v := Read32(recvQueue, firstMsgPtr);
        assert recvQueue[firstMsgPtr..firstMsgPtr + 4] == m[..4];
        SwapOrders(|m|);
        UnpackPack(Host, Swap(|m|));
        firstMsgSize := Swap(v);
      }
    }

    // handleMsgData: hands over the message once it is complete and moves the
    // write position. The chunk does not reach into a next message.
    method HandleMsgData(rs: nat, processBuf: array<byte>, ghost m: seq<byte>) returns (count: nat)
      requires recvQueue.Length == size >= MAXDEVMSGLEN && processBuf.Length >= MAXDEVMSGLEN && processBuf != recvQueue
      requires IsMessage(m) && 0 < firstMsgSizeUsed <= |m|
      requires firstMsgSize == if firstMsgSizeUsed < 4 then firstMsgSizeUsed else |m|
      requires 0 <= firstMsgPtr < size
      requires forall k :: 0 <= k < firstMsgSizeUsed ==> recvQueue[Ring(firstMsgPtr, k, size)] == m[k]
      modifies this`firstMsgPtr, this`firstMsgSize, this`firstMsgSizeUsed, this`sizeUsed, processBuf
      ensures count == if old(firstMsgSizeUsed) == |m| then 1 else 0
      ensures count == 1 ==> processBuf[..|m|] == m && firstMsgPtr == -1 && firstMsgSize == 0 && firstMsgSizeUsed == 0
      ensures count == 0 ==> firstMsgPtr == old(firstMsgPtr) && firstMsgSize == old(firstMsgSize) && firstMsgSizeUsed == old(firstMsgSizeUsed)
      ensures sizeUsed == Circulated(old(sizeUsed), rs, size)
    {
      count := 0;
      if firstMsgSizeUsed >= firstMsgSize && firstMsgSize > 4 {
        var tillBufferEnd := (size - 1) - (firstMsgPtr + firstMsgSizeUsed - 1);
        if tillBufferEnd <= 0 {
          CopyWrapped(processBuf, firstMsgPtr, firstMsgSize + tillBufferEnd, -tillBufferEnd);
        } else {
          WriteBytes(processBuf, 0, recvQueue[firstMsgPtr..firstMsgPtr + firstMsgSize]);
        }
        assert processBuf[..|m|] == m;
        count := 1;
        firstMsgPtr := -1;
        firstMsgSize := 0;
        firstMsgSizeUsed := 0;
      }
      CirculateBuffer(rs);
    }

    // The two copies of a message that runs over the end of the ring.
    method CopyWrapped(processBuf: array<byte>, start: nat, head: nat, tail: nat)
      requires recvQueue.Length == size && processBuf != recvQueue
      requires start + head == size && tail <= start && head + tail <= processBuf.Length
      modifies processBuf
      ensures processBuf[..head + tail] == recvQueue[start..] + recvQueue[..tail]
    {
      WriteBytes(processBuf, 0, recvQueue[start..start + head]);
      WriteBytes(processBuf, head, recvQueue[0..tail]);
    }

    method CirculateBuffer(rs: nat)
      modifies this`sizeUsed
      ensures sizeUsed == Circulated(old(sizeUsed), rs, size)
    {
      sizeUsed := sizeUsed + rs;
      if size == sizeUsed {
        sizeUsed := 0;
      }
    }

    // The branch of handleMsgData for a chunk that holds a whole message and
    // n bytes of the next one, its length included. The first message is handed
    // over, and so is the second if it is complete; but the recursion moves the
    // write position a second time.
    method HandleTwoMsgs(rs: nat, processBuf: array<byte>, ghost m1: seq<byte>, ghost m2: seq<byte>, n: nat)
      returns (count: nat, handed: seq<seq<byte>>)
      requires recvQueue.Length == size >= MAXDEVMSGLEN && processBuf.Length >= MAXDEVMSGLEN && processBuf != recvQueue
      requires IsMessage(m1) && IsMessage(m2) && 4 <= n <= |m2| && rs == |m1| + n && sizeUsed + rs <= size
      requires firstMsgPtr == sizeUsed && firstMsgSize == |m1| && firstMsgSizeUsed == rs
      requires recvQueue[sizeUsed..sizeUsed + rs] == m1 + m2[..n]
      modifies this`firstMsgPtr, this`firstMsgSize, this`firstMsgSizeUsed, this`sizeUsed, processBuf
      ensures count == |handed| && handed == if n == |m2| then [m1, m2] else [m1]
      ensures n < |m2| ==> firstMsgPtr == old(sizeUsed) + |m1| && firstMsgSize == |m2| && firstMsgSizeUsed == n
      ensures n == |m2| ==> firstMsgPtr == -1 && firstMsgSize == 0 && firstMsgSizeUsed == 0
      ensures sizeUsed == Moved(old(sizeUsed), rs, size, Moves(old(firstMsgSizeUsed), old(firstMsgSize), k => |m2|))
    {
      hide Pack;
      hide Circulated;
      TwoMoves(rs, |m1|, |m2|);
      TwoParts(recvQueue[..], sizeUsed, m1, m2[..n]);
      CopyFirst(processBuf);
      handed := [processBuf[..firstMsgSize]];
      var next;
      count, next := HandleSecondMsg(rs, processBuf, m2);
      if count > 0 {
        handed := handed + [next];
      }
      count := count + 1;
    }

    // The second message of such a chunk: its start, its length, its data.
    method HandleSecondMsg(rs: nat, processBuf: array<byte>, ghost m: seq<byte>) returns (count: nat, handed: seq<byte>)
      requires recvQueue.Length == size >= MAXDEVMSGLEN && processBuf.Length >= MAXDEVMSGLEN && processBuf != recvQueue
      requires IsMessage(m) && firstMsgSize + 4 <= firstMsgSizeUsed <= firstMsgSize + |m|
      requires sizeUsed + firstMsgSizeUsed <= size
      requires recvQueue[sizeUsed + firstMsgSize..sizeUsed + firstMsgSizeUsed] == m[..firstMsgSizeUsed - firstMsgSize]
      modifies this`firstMsgPtr, this`firstMsgSize, this`firstMsgSizeUsed, this`sizeUsed, processBuf
      ensures var n := old(firstMsgSizeUsed) - old(firstMsgSize);
              && count == (if n == |m| then 1 else 0)
              && (count == 1 ==> handed == m && firstMsgPtr == -1 && firstMsgSize == 0 && firstMsgSizeUsed == 0)
              && (count == 0 ==> firstMsgPtr == old(sizeUsed) + old(firstMsgSize) && firstMsgSize == |m| && firstMsgSizeUsed == n)
      ensures sizeUsed == Circulated(Circulated(old(sizeUsed), rs, size), rs, size)
    {
      hide Pack;
      hide Circulated;
      firstMsgPtr := sizeUsed + firstMsgSize;
      firstMsgSizeUsed := firstMsgSizeUsed - firstMsgSize;
      firstMsgSize := 5;
      CirculateBuffer(rs);
      SecondMsgLen(m);
      InRing(recvQueue[..], firstMsgPtr, m[..firstMsgSizeUsed]);
      var n := firstMsgSize;
      count := HandleMsgData(rs, processBuf, m);
      handed := if count > 0 then processBuf[..n] else [];
    }

    // The copy of a message that is followed by more bytes of its chunk.
    method CopyFirst(processBuf: array<byte>)
      requires recvQueue.Length == size && processBuf != recvQueue && 0 <= firstMsgPtr
      requires 0 < firstMsgSize <= processBuf.Length && firstMsgSize < firstMsgSizeUsed && firstMsgPtr + firstMsgSizeUsed <= size
      modifies processBuf
      ensures processBuf[..firstMsgSize] == recvQueue[firstMsgPtr..firstMsgPtr + firstMsgSize]
    {
      var tillBufferEnd := (size - 1) - (firstMsgPtr + firstMsgSizeUsed - 1);
      if tillBufferEnd <= 0 {
        WriteBytes(processBuf, 0, recvQueue[firstMsgPtr..firstMsgPtr + (firstMsgSize + tillBufferEnd)]);
        WriteBytes(processBuf, firstMsgSize + tillBufferEnd, recvQueue[0..-tillBufferEnd]);
      } else {
        WriteBytes(processBuf, 0, recvQueue[firstMsgPtr..firstMsgPtr + firstMsgSize]);
      }
    }

    // handleMsgLen for a message behind another one; the size 5 says that its
    // start is set already.
    method SecondMsgLen(ghost m: seq<byte>)
      requires recvQueue.Length == size && IsMessage(m) && firstMsgSize == 5 && 4 <= firstMsgSizeUsed <= |m|
      requires 0 <= firstMsgPtr && firstMsgPtr + firstMsgSizeUsed <= size
      requires recvQueue[firstMsgPtr..firstMsgPtr + firstMsgSizeUsed] == m[..firstMsgSizeUsed]
      modifies this`firstMsgSize
      ensures firstMsgSize == |m|
    {
      firstMsgSize := firstMsgSize + firstMsgSizeUsed;
      var v := Read32(recvQueue, firstMsgPtr);
      assert recvQueue[firstMsgPtr..firstMsgPtr + 4] == recvQueue[firstMsgPtr..firstMsgPtr + firstMsgSizeUsed][..4] == m[..4];
      SwapOrders(|m|);
      UnpackPack(Host, Swap(|m|));
      firstMsgSize := Swap(v);
    }

    // One turn of the receive loop: recv stores a chunk of the message m at
    // the write position, then the length and the data are handled.
    method ReceiveChunk(chunk: seq<byte>, processBuf: array<byte>, ghost m: seq<byte>, ghost r: nat, ghost pos: nat) returns (count: nat)
      requires State(m, r, pos) && processBuf.Length >= MAXDEVMSGLEN && processBuf != recvQueue
      requires IsMessage(m) && 0 < |chunk| <= size - sizeUsed && r + |chunk| <= |m| && chunk == m[r..r + |chunk|]
      requires r == 0 ==> sizeUsed + 4 <= size
      modifies this, recvQueue, processBuf
      ensures recvQueue == old(recvQueue) && size == old(size) && socket == old(socket)
      ensures count == if r + |chunk| == |m| then 1 else 0
      ensures count == 1 ==> processBuf[..|m|] == m && State([], 0, pos + |chunk|)
      ensures count == 0 ==> State(m, r + |chunk|, pos + |chunk|)
    {
      hide IsMessage;
      hide Circulated;
      MessageBounds(m);
      var rs := |chunk|;
      RingPosition(pos, r, rs, size);
      ghost var start := (pos - r) % size;
      Store(chunk, m, r, start);
      if firstMsgPtr == -1 || firstMsgSize < 4 {
        HandleMsgLen(rs, m, r);
      }
      firstMsgSizeUsed := firstMsgSizeUsed + rs;
      count := HandleMsgData(rs, processBuf, m);
    }

    // recv: the kernel stores the chunk at the write position.
    method Store(chunk: seq<byte>, ghost m: seq<byte>, ghost r: nat, ghost start: nat)
      requires recvQueue.Length == size > 0 && start < size && sizeUsed == Ring(start, r, size)
      requires |m| <= size && r + |chunk| <= |m| && sizeUsed + |chunk| <= size && chunk == m[r..r + |chunk|]
      requires forall k :: 0 <= k < r ==> recvQueue[Ring(start, k, size)] == m[k]
      modifies recvQueue
      ensures forall k :: 0 <= k < r + |chunk| ==> recvQueue[Ring(start, k, size)] == m[k]
    {
      ghost var q := recvQueue[..];
      WriteBytes(recvQueue, sizeUsed, chunk);
      forall k | 0 <= k < r + |chunk| ensures recvQueue[Ring(start, k, size)] == m[k] {
        var i := Ring(start, k, size);
        if k >= r {
          assert i == sizeUsed + (k - r);
        } else {
          assert i < sizeUsed || i >= sizeUsed + |chunk|;
          assert recvQueue[..][i] == q[i];
        }
      }
    }
  }

  // The write position pos moved by n bytes.
  function Circulated(pos: nat, n: nat, size: nat): nat {
    if pos + n == size then 0 else pos + n
  }

  // Position k bytes after a start in the ring; k stays below the ring size.
  function Ring(start: int, k: int, size: int): int {
    if start + k < size then start + k else start + k - size
  }

  lemma {:induction false} RingPosition(pos: nat, r: nat, rs: nat, size: nat)
    requires r <= pos && r < size && 0 < size && pos % size + rs <= size
    ensures pos % size == Ring((pos - r) % size, r, size)
    ensures (pos + rs) % size == Circulated(pos % size, rs, size)
    ensures (pos - r) % size == (pos + rs - (r + rs)) % size
  {
    ModPlus(pos - r, r, size);
    ModPlus(pos, rs, size);
  }

  lemma {:induction false} TwoParts(q: seq<byte>, p: nat, m1: seq<byte>, m2: seq<byte>)
    requires p + |m1| + |m2| <= |q| && q[p..p + (|m1| + |m2|)] == m1 + m2
    ensures q[p..p + |m1|] == m1 && q[p + |m1|..p + |m1| + |m2|] == m2
  {
    var s, n := q[p..p + (|m1| + |m2|)], |m1|;
    assert s[..n] == m1 && s[n..] == m2;
  }

  lemma {:induction false} InRing(q: seq<byte>, p: nat, m: seq<byte>)
    requires p + |m| <= |q| && q[p..p + |m|] == m
    ensures forall k :: 0 <= k < |m| ==> q[Ring(p, k, |q|)] == m[k]
  {
    forall k | 0 <= k < |m| ensures q[Ring(p, k, |q|)] == m[k] { assert q[p + k] == q[p..p + |m|][k]; }
  }

  // How often one call of handleMsgData moves the write position when used
  // bytes are there and the first message has n; length says what handleMsgLen
  // reads for a message of which k bytes are there.
  function Moves(used: nat, n: nat, length: nat -> nat): nat
    decreases used
  {
    if n > 4 && used > n then 1 + Moves(used - n, length(used - n), length) else 1
  }

  function Moved(pos: nat, rs: nat, size: nat, k: nat): nat
    decreases k
  {
    if k == 0 then pos else Moved(Circulated(pos, rs, size), rs, size, k - 1)
  }

  // More than once exactly when bytes of a next message are there, whatever is
  // read as its length.
  lemma {:induction false} MovesOnce(used: nat, n: nat, length: nat -> nat)
    ensures Moves(used, n, length) == 1 <==> !(n > 4 && used > n)
  {
    if n > 4 && used > n { MovesPositive(used - n, length(used - n), length); }
  }

  lemma {:induction false} MovesPositive(used: nat, n: nat, length: nat -> nat)
    ensures Moves(used, n, length) >= 1
  {
  }

  lemma {:induction false} TwoMoves(used: nat, n: nat, m: nat)
    requires n > 4 && n < used <= n + m
    ensures Moves(used, n, k => m) == 2
    ensures forall pos: nat, rs: nat, size: nat :: Moved(pos, rs, size, 2) == Circulated(Circulated(pos, rs, size), rs, size)
  {
    hide Circulated;
    assert Moves(used - n, m, k => m) == 1;
    forall pos: nat, rs: nat, size: nat
      ensures Moved(pos, rs, size, 2) == Circulated(Circulated(pos, rs, size), rs, size)
    {
      var q := Circulated(pos, rs, size);
      assert Moved(q, rs, size, 1) == Moved(Circulated(q, rs, size), rs, size, 0);
    }
  }

  // Moved once, the position is the total received modulo the ring size; moved
  // twice it is not, unless the chunk fills the whole ring.
  lemma {:induction false} MovesTwiceLosesPosition(pos: nat, rs: nat, size: nat)
    requires 0 < rs && pos + rs <= size
    ensures Moved(pos, rs, size, 1) == (pos + rs) % size
    ensures Moved(pos, rs, size, 2) == (pos + rs) % size <==> rs == size
  {
    assert Moved(pos, rs, size, 1) == Moved(Circulated(pos, rs, size), rs, size, 0);
    var q := Circulated(pos, rs, size);
    assert Moved(q, rs, size, 1) == Moved(Circulated(q, rs, size), rs, size, 0);
  }

  // ---- whole streams

  // How the messages ms, of which the first has r bytes behind it, may arrive
  // from stream position pos on: recv returns between 1 byte and the free
  // stretch of the ring, a chunk does not span two messages, and a length field
  // does not straddle the end of the ring.
  ghost predicate Arrives(chunks: seq<seq<byte>>, ms: seq<seq<byte>>, r: nat, pos: nat, size: nat)
    requires size > 0
  {
    chunks == [] ||
    (ms != [] && IsMessage(ms[0]) && var n := |chunks[0]|;
     && 0 < n <= size - pos % size && r + n <= |ms[0]| && chunks[0] == ms[0][r..r + n]
     && (r == 0 ==> pos % size + 4 <= size)
     && if r + n == |ms[0]| then Arrives(chunks[1..], ms[1..], 0, pos + n, size)
        else Arrives(chunks[1..], ms, r + n, pos + n, size))
  }

  // The messages that the chunks complete.
  ghost function Completed(chunks: seq<seq<byte>>, ms: seq<seq<byte>>, r: nat): seq<seq<byte>> {
    if chunks == [] || ms == [] then []
    else if r + |chunks[0]| == |ms[0]| then [ms[0]] + Completed(chunks[1..], ms[1..], 0)
    else Completed(chunks[1..], ms, r + |chunks[0]|)
  }

  // The chunks are the stream, cut up.
  lemma {:induction false} ArrivesPrefix(chunks: seq<seq<byte>>, ms: seq<seq<byte>>, r: nat, pos: nat, size: nat)
    requires size > 0 && Arrives(chunks, ms, r, pos, size) && (ms != [] ==> r <= |ms[0]|) && (ms == [] ==> r == 0)
    ensures |Flatten(chunks)| <= |Flatten(ms)| - r
    ensures Flatten(chunks) == Flatten(ms)[r..r + |Flatten(chunks)|]
    decreases |chunks|
  {
    hide IsMessage;
    if chunks != [] {
      var n := |chunks[0]|;
      if r + n == |ms[0]| {
        ArrivesPrefix(chunks[1..], ms[1..], 0, pos + n, size);
        CutMessage(ms[0], Flatten(ms[1..]), chunks[0], Flatten(chunks[1..]), r);
      } else {
        ArrivesPrefix(chunks[1..], ms, r + n, pos + n, size);
        CutInside(ms[0], Flatten(ms[1..]), chunks[0], Flatten(chunks[1..]), r);
      }
    }
  }

  lemma {:induction false} CutMessage(m: seq<byte>, after: seq<byte>, c: seq<byte>, rest: seq<byte>, r: nat)
    requires r + |c| == |m| && c == m[r..r + |c|] && |rest| <= |after| && rest == after[0..|rest|]
    ensures c + rest == (m + after)[r..r + |c + rest|]
  {
  }

  lemma {:induction false} CutInside(m: seq<byte>, after: seq<byte>, c: seq<byte>, rest: seq<byte>, r: nat)
    requires r + |c| <= |m| && c == m[r..r + |c|] && r + |c| + |rest| <= |m + after|
    requires rest == (m + after)[r + |c|..r + |c| + |rest|]
    ensures c + rest == (m + after)[r..r + |c + rest|]
  {
  }

  // Every stream can arrive in full whose messages start four bytes or more
  // before the end of the ring: each recv takes what is there of the message
  // up to the end of the ring.
  lemma {:induction false} CanArrive(ms: seq<seq<byte>>, r: nat, pos: nat, size: nat) returns (chunks: seq<seq<byte>>)
    requires size > 0 && r <= pos && (ms == [] ==> r == 0)
    requires (ms != [] ==> r < |ms[0]|) && forall m :: m in ms ==> IsMessage(m)
    requires forall i :: 0 <= i < |ms| ==> (pos - r + |Flatten(ms[..i])|) % size + 4 <= size
    ensures r <= |Flatten(ms)| && Arrives(chunks, ms, r, pos, size) && Flatten(chunks) == Flatten(ms)[r..]
    decreases |ms|, if ms == [] then 0 else |ms[0]| - r
  {
    hide IsMessage;
    hide Flatten;
    FlattenIs(ms);
    if ms == [] {
      return [];
    }
    var m := ms[0];
    var free := size - pos % size;
    var n := if |m| - r < free then |m| - r else free;
    FlattenIs(ms[..0]);
    var rest;
    if r + n == |m| {
      forall i | 0 <= i < |ms[1..]| ensures (pos + n + |Flatten(ms[1..][..i])|) % size + 4 <= size {
        FlattenIs(ms[..i + 1]);
        assert ms[..i + 1][1..] == ms[1..][..i];
      }
      if ms[1..] != [] { MessageBounds(ms[1]); }
      rest := CanArrive(ms[1..], 0, pos + n, size);
    } else {
      rest := CanArrive(ms, r + n, pos + n, size);
    }
    chunks := [m[r..r + n]] + rest;
    assert chunks[1..] == rest;
    FlattenIs(chunks);
  }

  lemma {:induction false} FlattenIs(ms: seq<seq<byte>>)
    ensures Flatten(ms) == if ms == [] then [] else ms[0] + Flatten(ms[1..])
  {
  }

  // Once all bytes are there, every message is complete: each once, in order.
  lemma {:induction false} CompletedAll(chunks: seq<seq<byte>>, ms: seq<seq<byte>>, r: nat, pos: nat, size: nat)
    requires size > 0 && Arrives(chunks, ms, r, pos, size)
    requires ms == [] ==> r == 0
    requires ms != [] ==> r < |ms[0]| && forall m :: m in ms ==> IsMessage(m)
    requires |Flatten(chunks)| == |Flatten(ms)| - r
    ensures Completed(chunks, ms, r) == ms
    decreases |chunks|
  {
    assert ms != [] ==> |Flatten(ms)| >= |ms[0]|;
    if chunks != [] {
      var n := |chunks[0]|;
      if r + n == |ms[0]| {
        assert forall m :: m in ms[1..] ==> m in ms;
        if ms[1..] != [] { assert IsMessage(ms[1..][0]); }
        CompletedAll(chunks[1..], ms[1..], 0, pos + n, size);
      } else {
        CompletedAll(chunks[1..], ms, r + n, pos + n, size);
      }
    }
  }

  // The message being received.
  function Current(ms: seq<seq<byte>>): seq<byte> {
    if ms == [] then [] else ms[0]
  }

  // Between messages the state does not depend on the next one.
  lemma {:induction false} StateIdle(h: RecvHolder, m: seq<byte>, m': seq<byte>, pos: nat)
    requires h.State(m, 0, pos)
    ensures h.State(m', 0, pos)
  {
  }

  lemma {:induction false} StateBounds(h: RecvHolder, m: seq<byte>, r: nat, pos: nat)
    requires h.State(m, r, pos)
    ensures h.size > 0 && h.sizeUsed == pos % h.size
  {
  }

  lemma {:induction false} MessageBounds(m: seq<byte>)
    requires IsMessage(m)
    ensures 5 <= |m| <= MAXDEVMSGLEN
  {
  }

  // recvAll: receives until a message is complete or the queue of pending
  // chunks is empty (recv fails); an empty chunk is not part of a live stream.
  // Returns how many chunks it took and, if there is one, the message that the
  // callback found in the process buffer.
  method RecvAll(h: RecvHolder, chunks: seq<seq<byte>>, processBuf: array<byte>, ghost ms: seq<seq<byte>>, ghost r: nat, ghost pos: nat)
    returns (taken: nat, handed: seq<seq<byte>>, ghost ms': seq<seq<byte>>, ghost r': nat, ghost pos': nat)
    requires processBuf.Length >= MAXDEVMSGLEN && processBuf != h.recvQueue && h.size > 0
    requires h.State(Current(ms), r, pos) && (ms == [] ==> r == 0)
    requires Arrives(chunks, ms, r, pos, h.size)
    modifies h, h.recvQueue, processBuf
    ensures h.recvQueue == old(h.recvQueue) && h.size == old(h.size)
    ensures taken <= |chunks| && (chunks != [] ==> taken > 0) && (taken < |chunks| ==> |handed| == 1) && |handed| <= 1
    ensures h.State(Current(ms'), r', pos') && (ms' == [] ==> r' == 0)
    ensures Arrives(chunks[taken..], ms', r', pos', h.size)
    ensures Completed(chunks, ms, r) == handed + Completed(chunks[taken..], ms', r')
  {
    hide RecvHolder.State;
    hide IsMessage;
    taken, handed, ms', r', pos' := 0, [], ms, r, pos;
    while taken < |chunks|
      invariant taken <= |chunks| && handed == [] && h.size > 0
      invariant h.recvQueue == old(h.recvQueue) && h.size == old(h.size)
      invariant h.State(Current(ms'), r', pos') && (ms' == [] ==> r' == 0)
      invariant Arrives(chunks[taken..], ms', r', pos', h.size)
      invariant Completed(chunks, ms, r) == Completed(chunks[taken..], ms', r')
    {
      ghost var m := ms'[0];
      StateBounds(h, m, r', pos');
      MessageBounds(m);
      assert chunks[taken..][1..] == chunks[taken + 1..];
      var count := h.ReceiveChunk(chunks[taken], processBuf, m, r', pos');
      pos' := pos' + |chunks[taken]|;
      if count >= 1 {
        var len := MessageLength(processBuf, m);
        handed := [processBuf[..len]];
        ms', r' := ms'[1..], 0;
        StateIdle(h, [], Current(ms'), pos');
        taken := taken + 1;
        break;
      }
      r' := r' + |chunks[taken]|;
      taken := taken + 1;
    }
  }

  // The callback reads the length of the message from the buffer.
  method MessageLength(processBuf: array<byte>, ghost m: seq<byte>) returns (len: uint32)
    requires IsMessage(m) && |m| <= processBuf.Length && processBuf[..|m|] == m
    ensures len == |m|
  {
    SwapOrders(|m|);
    UnpackPack(Host, Swap(|m|));
    assert processBuf[0..4] == processBuf[..|m|][..4];
    var v := Read32(processBuf, 0);
    len := Swap(v);
  }

  // A connection: recvAll is called until all chunks are received. Every
  // message of the stream is handed over exactly once, in order, byte for byte.
  method ReceiveStream(h: RecvHolder, chunks: seq<seq<byte>>, processBuf: array<byte>, ghost ms: seq<seq<byte>>) returns (handed: seq<seq<byte>>)
    requires processBuf.Length >= MAXDEVMSGLEN && processBuf != h.recvQueue && h.size > 0
    requires h.State([], 0, 0) && Arrives(chunks, ms, 0, 0, h.size)
    requires forall m :: m in ms ==> IsMessage(m)
    modifies h, h.recvQueue, processBuf
    ensures handed == Completed(chunks, ms, 0)
    ensures Flatten(chunks) == Flatten(ms) ==> handed == ms
  {
    hide RecvHolder.State;
    hide IsMessage;
    handed := [];
    var i := 0;
    StateIdle(h, [], Current(ms), 0);
    ghost var rest, r, pos := ms, 0, 0;
    while i < |chunks|
      invariant i <= |chunks| && h.size > 0
      invariant h.recvQueue == old(h.recvQueue) && h.size == old(h.size)
      invariant h.State(Current(rest), r, pos) && (rest == [] ==> r == 0)
      invariant Arrives(chunks[i..], rest, r, pos, h.size)
      invariant Completed(chunks, ms, 0) == handed + Completed(chunks[i..], rest, r)
    {
      var taken, next;
      taken, next, rest, r, pos := RecvAll(h, chunks[i..], processBuf, rest, r, pos);
      assert chunks[i..][taken..] == chunks[i + taken..];
      handed := handed + next;
      i := i + taken;
    }
    if Flatten(chunks) == Flatten(ms) {
      if ms != [] { MessageBounds(ms[0]); }
      CompletedAll(chunks, ms, 0, 0, h.size);
    }
  }
}
