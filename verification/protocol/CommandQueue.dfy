// The growing byte list of misc/ArrayList/arrayList.c and, on top of it, the
// node's command queue: nodeClient/mainClient/client.c fills and empties it
// under a mutex, nodeClient/mainClient/socketThread.c drains it.
module CommandQueue {
  import opened Bytes

  // ---- entries of equal size in a buffer

  // The offset of entry i.
  function Off(i: nat, size: nat): nat {
    if i == 0 then 0 else Off(i - 1, size) + size
  }

  lemma {:induction false} OffIs(i: nat, size: nat)
    ensures Off(i, size) == i * size == size * i
  {
    if i > 0 {
      OffIs(i - 1, size);
      assert i * size == (i - 1) * size + size;
    }
  }

  lemma {:induction false} OffSum(i: nat, j: nat, size: nat)
    ensures Off(i + j, size) == Off(i, size) + Off(j, size)
  {
    if j > 0 { OffSum(i, j - 1, size); }
  }

  lemma {:induction false} OffMono(i: nat, n: nat, size: nat)
    ensures i <= n ==> Off(i, size) <= Off(n, size)
    ensures i < n ==> Off(i, size) + size <= Off(n, size)
  {
    if i < n { OffSum(i, n - i, size); OffSum(1, n - i - 1, size); }
  }

  // The first n entries of a buffer.
  function ItemsOf(s: seq<byte>, size: nat, n: nat): (items: seq<seq<byte>>)
    requires Off(n, size) <= |s|
    ensures |items| == n
  {
    seq(n, i requires 0 <= i < n => (OffMono(i, n, size); s[Off(i, size)..Off(i, size) + size]))
  }

  lemma {:induction false} ItemsAppend(s: seq<byte>, size: nat, n: nat, e: seq<byte>)
    requires Off(n + 1, size) <= |s| && |e| == size
    ensures ItemsOf(Splice(s, Off(n, size), e), size, n + 1) == ItemsOf(s, size, n) + [e]
  {
    var after := ItemsOf(Splice(s, Off(n, size), e), size, n + 1);
    forall i | 0 <= i <= n ensures after[i] == (ItemsOf(s, size, n) + [e])[i] {
      OffMono(i, n, size);
      SpliceWindow(s, Off(n, size), e, Off(i, size), Off(i, size) + size);
    }
  }

  lemma {:induction false} ItemsSame(s: seq<byte>, t: seq<byte>, size: nat, n: nat)
    requires Off(n, size) <= |s| && Off(n, size) <= |t| && s[0..Off(n, size)] == t[0..Off(n, size)]
    ensures ItemsOf(s, size, n) == ItemsOf(t, size, n)
  {
    forall i | 0 <= i < n ensures ItemsOf(s, size, n)[i] == ItemsOf(t, size, n)[i] {
      OffMono(i, n, size);
      SubWindow(s, 0, Off(n, size), Off(i, size), Off(i, size) + size);
      SubWindow(t, 0, Off(n, size), Off(i, size), Off(i, size) + size);
    }
  }

  // Entry index taken out by moving the bytes behind it.
  function Removed(s: seq<byte>, size: nat, n: nat, index: nat): (t: seq<byte>)
    requires index < n && Off(n, size) <= |s|
    ensures |t| == |s|
  {
    OffSum(index + 1, n - index - 1, size);
    Splice(s, Off(index, size), s[Off(index + 1, size)..Off(index + 1, size) + Off(n - index - 1, size)])
  }

  lemma {:induction false} ItemsRemove(s: seq<byte>, size: nat, n: nat, index: nat)
    requires index < n && Off(n, size) <= |s|
    ensures Off(n - 1, size) <= |s|
    ensures ItemsOf(Removed(s, size, n, index), size, n - 1) == ItemsOf(s, size, n)[..index] + ItemsOf(s, size, n)[index + 1..]
  {
    hide Removed;
    OffMono(n - 1, n, size);
    var items, after := ItemsOf(s, size, n), ItemsOf(Removed(s, size, n, index), size, n - 1);
    forall i | 0 <= i < n - 1 ensures after[i] == (items[..index] + items[index + 1..])[i] {
      RemovedAt(s, size, n, index, i);
    }
  }

  lemma {:induction false} RemovedAt(s: seq<byte>, size: nat, n: nat, index: nat, i: nat)
    requires index < n && i + 1 < n && Off(n, size) <= |s|
    ensures Off(i + 1, size) == Off(i, size) + size && Off(i + 1, size) + size <= |s|
    ensures Removed(s, size, n, index)[Off(i, size)..Off(i, size) + size]
            == if i < index then s[Off(i, size)..Off(i, size) + size]
               else s[Off(i, size) + size..Off(i, size) + size + size]
  {
    hide Off;
    hide Splice;
    var a, m, o := Off(index, size), Off(n - index - 1, size), Off(i, size);
    RemovedOffsets(size, n, index, i);
    MovedWindow(s, a, size, m, o);
  }

  lemma {:induction false} RemovedOffsets(size: nat, n: nat, index: nat, i: nat)
    requires index < n && i + 1 < n
    ensures var a, m, o := Off(index, size), Off(n - index - 1, size), Off(i, size);
            && a + size + m == Off(n, size) && Off(index + 1, size) == a + size
            && Off(i + 1, size) == o + size && o + size + size <= Off(n, size)
            && (i < index ==> o + size <= a)
            && (i >= index ==> a <= o && o + size <= a + m)
  {
    OffMono(i + 1, n, size);
    OffSum(index + 1, n - index - 1, size);
    OffMono(i, index, size);
    OffMono(index, i, size);
    OffSum(index, n - index - 1, size);
    OffMono(i, n - 1, size);
  }

  // A window of bytes after n bytes moved left by size to position a.
  lemma {:induction false} MovedWindow(s: seq<byte>, a: nat, size: nat, n: nat, o: nat)
    requires a + size + n <= |s|
    ensures var t := Splice(s, a, s[a + size..a + size + n]);
            && (o + size <= a ==> t[o..o + size] == s[o..o + size])
            && (a <= o && o + size <= a + n ==> t[o..o + size] == s[o + size..o + size + size])
  {
    var w := s[a + size..a + size + n];
    var t := Splice(s, a, w);
    SpliceWindow(s, a, w, a, a + n);
    if a <= o && o + size <= a + n {
      SubWindow(t, a, n, o - a, o - a + size);
      SubWindow(s, a + size, n, o - a, o - a + size);
    }
  }

  lemma {:induction false} Quotient(n: nat, size: nat)
    requires size > 0
    ensures n * size / size == n
  {
    ModIs(n * size, n, 0, size);
    var q := n * size / size;
    assert n * size == q * size;
    MulLess(n, q, size);
    MulLess(q, n, size);
  }

  class ArrayList {
    var data: array<byte>
    var dataSize: nat
    var capacity: nat       // the field allocated: room in entries
    var length: nat         // entries in use
    var listIncrement: nat

    ghost predicate Valid()
      reads this, data
    {
      && dataSize > 0 && listIncrement > 0 && length <= capacity
      && data.Length == Off(capacity, dataSize) && Off(length, dataSize) <= data.Length
    }

    // The entries in use.
    ghost function Items(): (s: seq<seq<byte>>)
      requires Valid()
      reads this, data
    {
      ItemsOf(data[..], dataSize, length)
    }

    // initList
    constructor (dataSize: nat)
      requires dataSize > 0
      ensures Valid() && fresh(data) && this.dataSize == dataSize && Items() == []
      ensures capacity == listIncrement == 5
    {
      this.dataSize := dataSize;
      listIncrement := 5;
      OffIs(5, dataSize);
      data := new byte[dataSize * 5];
      length := 0;
      capacity := 5;
    }

    // addToList: grows the buffer when it is full, doubling the increment.
    method AddToList(e: seq<byte>) returns (ret: int)
      requires Valid() && |e| == dataSize
      modifies this, data
      ensures Valid() && dataSize == old(dataSize) && (data == old(data) || fresh(data))
      ensures ret == 0 && Items() == old(Items()) + [e]
      ensures old(capacity > length) ==> capacity == old(capacity) && listIncrement == old(listIncrement)
      ensures old(capacity == length) ==> listIncrement == 2 * old(listIncrement) && capacity == old(capacity) + listIncrement
    {
      hide ItemsOf;
      if !(capacity > length) {
        Grow();
      }
      OffMono(length + 1, capacity, dataSize);
      OffIs(length, dataSize);
      ItemsAppend(data[..], dataSize, length, e);
      WriteBytes(data, length * dataSize, e);
      length := length + 1;
      return 0;
    }

    // realloc: a buffer with more room and the same entries.
    method Grow()
      requires Valid() && capacity == length
      modifies this
      ensures Valid() && fresh(data) && dataSize == old(dataSize) && length == old(length) && length < capacity
      ensures listIncrement == 2 * old(listIncrement) && capacity == old(capacity) + listIncrement
      ensures Items() == old(Items())
    {
      hide ItemsOf;
      listIncrement := listIncrement * 2;
      OffIs(capacity, dataSize);
      OffIs(listIncrement, dataSize);
      OffSum(capacity, listIncrement, dataSize);
      OffIs(capacity + listIncrement, dataSize);
      var newSize := capacity * dataSize + dataSize * listIncrement;
      var tempReallocPtr := new byte[newSize];
      WriteBytes(tempReallocPtr, 0, data[..]);
      assert tempReallocPtr[..][0..data.Length] == data[..][0..data.Length];
      ItemsSame(data[..], tempReallocPtr[..], dataSize, length);
      Quotient(capacity + listIncrement, dataSize);
      data := tempReallocPtr;
      capacity := newSize / dataSize;
    }

    // getFromList: the bytes behind the returned pointer.
    method GetFromList(index: int) returns (e: seq<byte>, found: bool)
      requires Valid()
      ensures found <==> 0 <= index < length
      ensures found ==> e == Items()[index]
    {
      if index < length && index >= 0 {
        OffMono(index, length, dataSize);
        OffIs(index, dataSize);
        return data[index * dataSize..index * dataSize + dataSize], true;
      }
      return [], false;
    }

    // removeFromList: shifts the later entries left.
    method RemoveFromList(index: int) returns (ret: int)
      requires Valid()
      modifies this`length, data
      ensures Valid() && ret == if 0 <= index < old(length) then 0 else -1
      ensures Items() == if 0 <= index < old(length) then old(Items())[..index] + old(Items())[index + 1..] else old(Items())
    {
      hide ItemsOf;
      if !(index < length && index >= 0) {
        return -1;
      }
      ItemsRemove(data[..], dataSize, length, index);
      MoveEntries(index);
      length := length - 1;
      return 0;
    }

    // memmove of the entries behind index.
    method MoveEntries(index: nat)
      requires Valid() && index < length
      modifies data
      ensures data[..] == Removed(old(data[..]), dataSize, length, index)
    {
      hide Off;
      var itemsToMove := length - index - 1;
      OffSum(index + 1, itemsToMove, dataSize);
      OffSum(index, 1, dataSize);
      OffIs(1, dataSize);
      OffIs(index, dataSize);
      OffIs(index + 1, dataSize);
      OffIs(itemsToMove, dataSize);
      var dst, src, bytes := index * dataSize, (index + 1) * dataSize, dataSize * itemsToMove;
      WriteBytes(data, dst, data[src..src + bytes]);
    }
  }

  // ---- the command queue

  const DEVIDLEN := 16
  const ARGSLEN := 8                        // sizeof(unsigned char *)
  const SERIALIZED := DEVIDLEN + 12 + ARGSLEN  // sizeOfSerializedCmdInfo

  // nodeCmdInfo; args is the pointer itself, as its bytes.
  datatype CmdInfo = CmdInfo(devId: seq<byte>, devType: uint32, opcode: uint32, argsLen: uint32, args: seq<byte>) {
    predicate Valid() {
      |devId| == DEVIDLEN && |args| == ARGSLEN
    }
  }

  function Serialize(c: CmdInfo): (s: seq<byte>)
    requires c.Valid()
    ensures |s| == SERIALIZED
  {
    c.devId + Pack(Host, c.devType) + Pack(Host, c.opcode) + Pack(Host, c.argsLen) + c.args
  }

  function Deserialize(s: seq<byte>): (c: CmdInfo)
    requires |s| == SERIALIZED
    ensures c.Valid()
  {
    CmdInfo(s[..DEVIDLEN], Unpack(Host, s[DEVIDLEN..DEVIDLEN + 4]), Unpack(Host, s[DEVIDLEN + 4..DEVIDLEN + 8]),
            Unpack(Host, s[DEVIDLEN + 8..DEVIDLEN + 12]), s[DEVIDLEN + 12..])
  }

  // The fields one after the other, integers in host order.
  lemma {:induction false} SerializeIs(c: CmdInfo)
    requires c.Valid()
    ensures var s := Serialize(c);
            && |s| == 36 && s[0..16] == c.devId && s[16..20] == Pack(Host, c.devType) && s[20..24] == Pack(Host, c.opcode)
            && s[24..28] == Pack(Host, c.argsLen) && s[28..36] == c.args
  {
    hide Pack;
  }

  lemma {:induction false} DeserializeSerialize(c: CmdInfo)
    requires c.Valid()
    ensures Deserialize(Serialize(c)) == c
  {
    hide Pack;
    hide Unpack;
    var s := Serialize(c);
    assert s[..DEVIDLEN] == c.devId && s[DEVIDLEN + 12..] == c.args;
    assert s[DEVIDLEN..DEVIDLEN + 4] == Pack(Host, c.devType);
    assert s[DEVIDLEN + 4..DEVIDLEN + 8] == Pack(Host, c.opcode);
    assert s[DEVIDLEN + 8..DEVIDLEN + 12] == Pack(Host, c.argsLen);
    UnpackPack(Host, c.devType);
    UnpackPack(Host, c.opcode);
    UnpackPack(Host, c.argsLen);
  }

  // A list of serialized commands stands for the queue q.
  ghost predicate Stands(list: ArrayList, q: seq<CmdInfo>)
    reads list, list.data
  {
    && list.Valid() && list.dataSize == SERIALIZED && list.length == |q|
    && forall i :: 0 <= i < |q| ==> q[i].Valid() && list.Items()[i] == Serialize(q[i])
  }

  // addToCommandQueue, inside the mutex.
  method AddToCommandQueue(list: ArrayList, cmd: CmdInfo, ghost q: seq<CmdInfo>)
    requires Stands(list, q) && cmd.Valid()
    modifies list, list.data
    ensures Stands(list, q + [cmd]) && (list.data == old(list.data) || fresh(list.data))
  {
    hide Serialize;
    hide ItemsOf;
    var r := list.AddToList(Serialize(cmd));
  }

  // popCommandQueue, inside the mutex. It reads the first entry without
  // looking at the length, so the queue must not be empty.
  method PopCommandQueue(list: ArrayList, ghost q: seq<CmdInfo>) returns (cmd: CmdInfo)
    requires Stands(list, q) && q != []
    modifies list`length, list.data
    ensures cmd == q[0] && Stands(list, q[1..])
  {
    hide Serialize;
    hide ItemsOf;
    hide Deserialize;
    var e, found := list.GetFromList(0);
    DeserializeSerialize(q[0]);
    cmd := Deserialize(e);
    var r := list.RemoveFromList(0);
    assert list.Items() == old(list.Items())[1..];
  }

  // ---- two threads on one queue

  // Where the socket thread is in one connection.
  datatype Pc =
    | Idle                        // before the beacon
    | Sample                      // before getCommandQueueLength
    | Drain(num: nat, i: nat)     // in the loop over the sampled length
    | Done

  // q stands for the byte list; added and popped record what happened.
  datatype Shared = Shared(q: seq<CmdInfo>, pc: Pc, added: seq<CmdInfo>, popped: seq<CmdInfo>)

  // The atomic sections, in any order the mutex allows.
  datatype Event =
    | MainAdds(cmd: CmdInfo)      // the main loop queues a command
    | Beacon(cmd: CmdInfo)        // the socket thread queues its beacon
    | NoBeacon                    // or has none to queue
    | Samples                     // numOfCommands = getCommandQueueLength(...)
    | Pops                        // one turn of the loop
    | Leaves                      // the loop condition fails
    | Reconnects                  // the next connection

  predicate Enabled(s: Shared, e: Event) {
    match e
    case MainAdds(_) => true
    case Beacon(_) => s.pc == Idle
    case NoBeacon => s.pc == Idle
    case Samples => s.pc == Sample
    case Pops => s.pc.Drain? && s.pc.i < s.pc.num
    case Leaves => s.pc.Drain? && s.pc.i >= s.pc.num
    case Reconnects => s.pc == Done
  }

  // What one section does. A pop from an empty queue would fail; it is given
  // no effect here and DrainNeverEmpty shows that it does not occur.
  function Do(s: Shared, e: Event): Shared
    requires Enabled(s, e)
  {
    match e
    case MainAdds(cmd) => s.(q := s.q + [cmd], added := s.added + [cmd])
    case Beacon(cmd) => s.(q := s.q + [cmd], added := s.added + [cmd], pc := Sample)
    case NoBeacon => s.(pc := Sample)
    case Samples => s.(pc := Drain(|s.q|, 0))
    case Pops =>
      if s.q == [] then s
      else s.(q := s.q[1..], popped := s.popped + [s.q[0]], pc := Drain(s.pc.num, s.pc.i + 1))
    case Leaves => s.(pc := Done)
    case Reconnects => s.(pc := Idle)
  }

  ghost predicate Run(s: Shared, es: seq<Event>, t: Shared)
    decreases |es|
  {
    if es == [] then s == t else Enabled(s, es[0]) && Run(Do(s, es[0]), es[1..], t)
  }

  // The sampled length stays a lower bound, and nothing is lost or reordered.
  ghost predicate Inv(s: Shared) {
    (s.pc.Drain? ==> s.pc.i <= s.pc.num <= s.pc.i + |s.q|) && s.added == s.popped + s.q
  }

  lemma {:induction false} InvKept(s: Shared, e: Event)
    requires Inv(s) && Enabled(s, e)
    ensures Inv(Do(s, e))
  {
    match e {
      case MainAdds(cmd) => assert s.popped + s.q + [cmd] == s.popped + (s.q + [cmd]);
      case Beacon(cmd) => assert s.popped + s.q + [cmd] == s.popped + (s.q + [cmd]);
      case Pops => assert s.popped + s.q == (s.popped + [s.q[0]]) + s.q[1..];
      case _ =>
    }
  }

  lemma {:induction false} InvAlways(s: Shared, es: seq<Event>, t: Shared)
    requires Inv(s) && Run(s, es, t)
    ensures Inv(t)
    decreases |es|
  {
    if es != [] {
      InvKept(s, es[0]);
      InvAlways(Do(s, es[0]), es[1..], t);
    }
  }

  // Under every interleaving a turn of the loop finds a command to pop, and
  // the popped commands are the added ones in order, each once.
  lemma {:induction false} DrainNeverEmpty(es: seq<Event>, t: Shared)
    requires Run(Shared([], Idle, [], []), es, t)
    ensures Enabled(t, Pops) ==> t.q != []
    ensures t.added == t.popped + t.q
  {
    InvAlways(Shared([], Idle, [], []), es, t);
  }

  // What a loop has popped after i turns: the first i of the commands that
  // were in the queue when the length was sampled.
  ghost predicate Draining(s: Shared, before: seq<CmdInfo>, sampled: seq<CmdInfo>) {
    && s.pc.Drain? && s.pc.num == |sampled| && s.pc.i <= |sampled|
    && s.popped == before + sampled[..s.pc.i] && sampled[s.pc.i..] <= s.q
  }

  lemma {:induction false} DrainingKept(s: Shared, e: Event, before: seq<CmdInfo>, sampled: seq<CmdInfo>)
    requires Draining(s, before, sampled) && Enabled(s, e) && e != Leaves
    ensures Draining(Do(s, e), before, sampled)
  {
    var i := s.pc.i;
    if e.Pops? {
      assert sampled[i..] == [sampled[i]] + sampled[i + 1..];
      assert sampled[..i + 1] == sampled[..i] + [sampled[i]];
      assert s.popped + [s.q[0]] == before + sampled[..i + 1];
    }
  }

  lemma {:induction false} DrainingAlways(s: Shared, es: seq<Event>, t: Shared, before: seq<CmdInfo>, sampled: seq<CmdInfo>)
    requires Draining(s, before, sampled) && Run(s, es, t) && Leaves !in es
    ensures Draining(t, before, sampled)
    decreases |es|
  {
    if es != [] {
      DrainingKept(s, es[0], before, sampled);
      DrainingAlways(Do(s, es[0]), es[1..], t, before, sampled);
    }
  }

  // A loop that ends has popped exactly the commands that were queued when its
  // length was sampled, in order, whatever was added meanwhile; only what was
  // added since then is left.
  lemma {:induction false} DrainPopsSampled(s: Shared, es: seq<Event>, t: Shared)
    requires Inv(s) && s.pc == Sample && Run(Do(s, Samples), es, t) && Leaves !in es
    requires Enabled(t, Leaves)
    ensures t.popped == s.popped + s.q && t.added == s.added + t.q
  {
    var b := Do(s, Samples);
    assert b.popped == s.popped + s.q[..0];
    DrainingAlways(b, es, t, s.popped, s.q);
    assert s.q[..|s.q|] == s.q;
    InvKept(s, Samples);
    InvAlways(b, es, t);
  }

  // The same run on the byte list: whatever the events, the list stands for
  // the queue of the run.
  method RunOnBytes(list: ArrayList, es: seq<Event>) returns (ghost t: Shared, popped: seq<CmdInfo>)
    requires Stands(list, [])
    requires exists z :: Run(Shared([], Idle, [], []), es, z)
    requires forall e :: e in es ==> (e.MainAdds? || e.Beacon?) ==> e.cmd.Valid()
    modifies list, list.data
    ensures Run(Shared([], Idle, [], []), es, t)
    ensures Stands(list, t.q) && popped == t.popped
  {
    hide Serialize;
    hide ItemsOf;
    popped := [];
    t := Shared([], Idle, [], []);
    ghost var z :| Run(t, es, z);
    var i := 0;
    while i < |es|
      invariant 0 <= i <= |es|
      invariant Inv(t) && Run(t, es[i..], z)
      invariant Stands(list, t.q) && popped == t.popped
      invariant list.data == old(list.data) || fresh(list.data)
    {
      var e := es[i];
      assert es[i..][0] == e && es[i..][1..] == es[i + 1..];
      InvKept(t, e);
      match e {
        case MainAdds(cmd) => AddToCommandQueue(list, cmd, t.q);
        case Beacon(cmd) => AddToCommandQueue(list, cmd, t.q);
        case Pops =>
          var cmd := PopCommandQueue(list, t.q);
          popped := popped + [cmd];
        case _ =>
      }
      t := Do(t, e);
      i := i + 1;
    }
    assert es[i..] == [];
  }
}
