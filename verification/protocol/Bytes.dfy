// Bytes in memory and 32-bit words stored in them on a little-endian machine.
module Bytes {
  type byte = b: nat | b < 256
  type uint32 = w: nat | w < 0x1_0000_0000

  // 256^n
  function Radix(n: nat): (r: nat)
    ensures r > 0
  {
    if n == 0 then 1 else 256 * Radix(n - 1)
  }

  datatype Option<T> = None | Some(value: T)

  // Host order is little-endian; network order is big-endian.
  datatype Order = Host | Net

  function Pack(o: Order, v: uint32): (s: seq<byte>)
    ensures |s| == 4
  {
    var b0, b1, b2, b3 := v % 256, v / 256 % 256, v / 65536 % 256, v / 16777216;
    if o == Host then [b0, b1, b2, b3] else [b3, b2, b1, b0]
  }

  // The word with the given bytes, least significant first.
  function Word(b0: byte, b1: byte, b2: byte, b3: byte): uint32 {
    (b0 as int) + 256 * (b1 as int) + 65536 * (b2 as int) + 16777216 * (b3 as int)
  }

  function Unpack(o: Order, s: seq<byte>): uint32
    requires |s| == 4
  {
    if o == Host then Word(s[0], s[1], s[2], s[3]) else Word(s[3], s[2], s[1], s[0])
  }

  // htonl and ntohl.
  function Swap(v: uint32): uint32 {
    Unpack(Net, Pack(Host, v))
  }

  lemma {:induction false} UnpackPack(o: Order, v: uint32)
    ensures Unpack(o, Pack(o, v)) == v
  {
    var q := v / 256;
    var r := q / 256;
    assert v / 65536 == r;
    assert v / 16777216 == r / 256;
  }

  // The low byte comes first in host order and last in network order.
  lemma {:induction false} PackIs(v: uint32)
    ensures var s := Pack(Host, v); s[0] + 256 * (s[1] as int) + 65536 * (s[2] as int) + 16777216 * (s[3] as int) == v
    ensures var s := Pack(Net, v); s[3] + 256 * (s[2] as int) + 65536 * (s[1] as int) + 16777216 * (s[0] as int) == v
  {
    UnpackPack(Host, v);
    UnpackPack(Net, v);
  }

  lemma {:induction false} PackUnpack(o: Order, s: seq<byte>)
    requires |s| == 4
    ensures Pack(o, Unpack(o, s)) == s
  {
    var a, b, c, d := if o == Host then s[0] else s[3], if o == Host then s[1] else s[2],
                      if o == Host then s[2] else s[1], if o == Host then s[3] else s[0];
    Digits(a, b, c, d);
  }

  lemma {:induction false} Digits(a: byte, b: byte, c: byte, d: byte)
    ensures var v := Word(a, b, c, d);
            v % 256 == a && v / 256 % 256 == b && v / 65536 % 256 == c && v / 16777216 == d
  {
    var v := Word(a, b, c, d);
    assert v / 256 == (b as int) + 256 * (c as int) + 65536 * (d as int);
    assert v / 65536 == (c as int) + 256 * (d as int);
  }

  // Swapping exchanges the two orders, and twice is the identity.
  lemma {:induction false} SwapOrders(v: uint32)
    ensures Pack(Host, Swap(v)) == Pack(Net, v)
    ensures Pack(Net, Swap(v)) == Pack(Host, v)
    ensures Swap(Swap(v)) == v
  {
    var s, t := Pack(Host, v), Pack(Net, v);
    assert t == [s[3], s[2], s[1], s[0]];
    PackUnpack(Net, s);
    assert Unpack(Net, s) == Unpack(Host, t);
    PackUnpack(Host, t);
    UnpackPack(Host, v);
  }

  // s with the bytes from position k replaced by w.
  function Splice(s: seq<byte>, k: nat, w: seq<byte>): (t: seq<byte>)
    requires k + |w| <= |s|
    ensures |t| == |s|
  {
    s[..k] + w + s[k + |w|..]
  }

  lemma {:induction false} SpliceWindow(s: seq<byte>, k: nat, w: seq<byte>, i: nat, j: nat)
    requires k + |w| <= |s| && i <= j <= |s|
    ensures i == k && j == k + |w| ==> Splice(s, k, w)[i..j] == w
    ensures j <= k || k + |w| <= i ==> Splice(s, k, w)[i..j] == s[i..j]
  {
  }

  // A window of a window.
  lemma {:induction false} SubWindow(s: seq<byte>, off: nat, n: nat, i: nat, j: nat)
    requires off + n <= |s| && i <= j <= n
    ensures s[off..off + n][i..j] == s[off + i..off + j]
  {
    var t := s[off..off + n];
    forall k | 0 <= k < j - i ensures t[i..j][k] == s[off + i..off + j][k] {
      assert t[i + k] == s[off + i + k];
    }
  }

  // A splice inside one part of a concatenation.
  lemma {:induction false} SpliceInside(p: seq<byte>, s: seq<byte>, q: seq<byte>, k: nat, w: seq<byte>)
    requires k + |w| <= |s|
    ensures Splice(p + s + q, |p| + k, w) == p + Splice(s, k, w) + q
    ensures (p + s + q)[|p| + k..|p| + k + |w|] == s[k..k + |w|]
  {
  }

  // *(uint32_t *)(a + k)
  method Read32(a: array<byte>, k: nat) returns (v: uint32)
    requires k + 4 <= a.Length
    ensures v == Unpack(Host, a[k..k + 4])
  {
    v := Word(a[k], a[k + 1], a[k + 2], a[k + 3]);
  }

  // *(uint32_t *)(a + k) = v
  method Write32(a: array<byte>, k: nat, v: uint32)
    requires k + 4 <= a.Length
    modifies a
    ensures a[..] == Splice(old(a[..]), k, Pack(Host, v))
  {
    a[k], a[k + 1], a[k + 2], a[k + 3] := v % 256, v / 256 % 256, v / 65536 % 256, v / 16777216;
  }

  // memcpy(a + k, s, |s|)
  method WriteBytes(a: array<byte>, k: nat, s: seq<byte>)
    requires k + |s| <= a.Length
    modifies a
    ensures a[..] == Splice(old(a[..]), k, s)
  {
    ghost var t := a[..];
    var i := 0;
    while i < |s|
      invariant 0 <= i <= |s|
      invariant forall j :: 0 <= j < i ==> a[k + j] == s[j]
      invariant forall j :: 0 <= j < k || k + i <= j < a.Length ==> a[j] == t[j]
    {
      a[k + i] := s[i];
      i := i + 1;
    }
    assert a[k..k + |s|] == s;
  }

  // ---- remainders

  lemma {:induction false} ModPlus(a: nat, b: nat, n: nat)
    requires n > 0 && b <= n
    ensures (a + b) % n == if a % n + b < n then a % n + b else a % n + b - n
  {
    var q, s := a / n, a % n;
    assert a == q * n + s;
    if s + b < n {
      ModIs(a + b, q, s + b, n);
    } else {
      assert (q + 1) * n == q * n + n;
      ModIs(a + b, q + 1, s + b - n, n);
    }
  }

  lemma {:induction false} ModIs(a: nat, q: nat, s: nat, n: nat)
    requires n > 0 && s < n && a == q * n + s
    ensures a % n == s
  {
    var q', s' := a / n, a % n;
    assert a == q' * n + s';
    MulLess(q', q, n);
    MulLess(q, q', n);
  }

  lemma {:induction false} MulLess(a: nat, b: nat, n: nat)
    ensures a < b ==> a * n + n <= b * n
    decreases b
  {
    if a + 1 < b { MulLess(a, b - 1, n); }
  }
}
