// aes_gen_tables of misc/mbedtls/library/aes.c: the tables of a build without
// ROM tables, computed from powers and logarithms to base 3 in GF(2^8). They
// are proved equal to the ROM tables.
module AesGen {
  import opened Words
  import opened SBoxes
  import opened AesColumns
  import opened AesTables
  import opened AesField
  import opened AesSBox
  import opened Blocks
  import Aes

  function Index(b: bv8): nat { b as nat }

  lemma {:induction false} Indices()
    ensures forall b: bv8 :: Index(b) < 256 && ToByte(Index(b)) == b
    ensures forall i: nat | i < 256 :: Index(ToByte(i)) == i
    ensures Index(0) == 0
  {
    hide ToByte;
    forall i: nat | i < 256 ensures Index(ToByte(i)) == i { ByteOf(i); }
    forall b: bv8 ensures Index(b) < 256 && ToByte(Index(b)) == b {
      ByteOf(Index(b));
      SameIndex(b, ToByte(Index(b)));
    }
  }

  lemma {:induction false} SameIndex(a: bv8, b: bv8)
    requires Index(a) == Index(b)
    ensures a == b
  {
    LastDigit(0, 0, a, b);
  }

  // The static tables; row r of ft and rt is FTr and RTr.
  class Statics {
    const fsb: array<bv8>
    const rsb: array<bv8>
    const ft: array2<bv32>
    const rt: array2<bv32>
    const rcon: array<bv32>

    constructor ()
      ensures Valid() && fresh(fsb) && fresh(rsb) && fresh(ft) && fresh(rt) && fresh(rcon)
    {
      fsb, rsb := new bv8[256], new bv8[256];
      ft, rt := new bv32[4, 256], new bv32[4, 256];
      rcon := new bv32[10];
    }

    predicate Valid() {
      && fsb.Length == rsb.Length == 256 && rcon.Length == 10 && fsb != rsb
      && ft.Length0 == rt.Length0 == 4 && ft.Length1 == rt.Length1 == 256 && ft != rt
    }

    ghost predicate IsRomBoxes()
      requires Valid()
      reads fsb, rsb
    {
      Indices();
      forall b: bv8 :: fsb[Index(b)] == Rom().fsb(b) && rsb[Index(b)] == Rom().rsb(b)
    }

    ghost predicate IsRomTables()
      requires Valid()
      reads ft, rt
    {
      Indices();
      forall r: nat, b: bv8 :: r < 4 ==> ft[r, Index(b)] == Forward(r, b) && rt[r, Index(b)] == Reverse(r, b)
    }
  }

  // pow[i] = 3^i, and log inverts it; log[0] is not set.
  method PowLog(pow: array<bv8>, log: array<nat>)
    requires pow.Length == log.Length == 256 && pow as object != log as object
    modifies pow, log
    ensures ArePowers(pow[..]) && AreLogs(log[..])
  {
    hide Index;
    hide Triple;
    hide ToByte;
    hide IsLog;
    hide LogsBelow;
    hide AreLogs;
    Indices();
    NoLogs(log[..]);
    var i, x := 0, 1;
    while i < 256
      invariant 0 <= i <= 256 && x == Power(i)
      invariant forall k: nat :: k < i ==> pow[k] == Power(k)
      invariant LogsBelow(log[..], i)
    {
      pow[i] := x;
      LogWritten(log[..], i);
      log[Index(x)] := i;
      x := Xor8(x, Xtime(x));
      TripleIs(i);
      i := i + 1;
    }
    AllLogs(log[..]);
  }

  lemma {:induction false} NoLogs(log: seq<nat>)
    ensures LogsBelow(log, 0)
  {
  }

  lemma {:induction false} TripleIs(i: nat)
    ensures Power(i + 1) == Xor8(Power(i), Xtime(Power(i)))
  {
  }

  ghost predicate ArePowers(pow: seq<bv8>) {
    |pow| == 256 && forall k: nat :: k < 256 ==> pow[k] == Power(k)
  }

  predicate IsLog(log: seq<nat>, x: bv8) {
    var i := Index(x);
    i < |log| && log[i] < 256 && Power(log[i]) == x
  }

  ghost predicate LogsBelow(log: seq<nat>, i: nat) {
    forall k: nat :: k < i ==> IsLog(log, Power(k))
  }

  lemma {:induction false} LogWritten(log: seq<nat>, i: nat)
    requires |log| == 256 && i < 256 && LogsBelow(log, i) && Index(Power(i)) < 256
    ensures LogsBelow(log[Index(Power(i)) := i], i + 1)
  {
    hide Index;
    hide Power;
    var x := Power(i);
    var l := log[Index(x) := i];
    forall k: nat | k < i + 1 ensures IsLog(l, Power(k)) {
      if k < i { assert IsLog(log, Power(k)); }
      if Index(Power(k)) == Index(x) { SameIndex(Power(k), x); }
    }
  }

  lemma {:induction false} AllLogs(log: seq<nat>)
    requires |log| == 256 && LogsBelow(log, 256)
    ensures AreLogs(log)
  {
    hide IsLog;
    hide Power;
    forall x: bv8 | x != 0 ensures IsLog(log, x) {
      var k := Generates(x);
      assert IsLog(log, Power(k));
    }
  }

  ghost predicate AreLogs(log: seq<nat>) {
    |log| == 256 && forall x: bv8 :: x != 0 ==> IsLog(log, x)
  }

  method RoundConstants(rcon: array<bv32>)
    requires rcon.Length == 10
    modifies rcon
    ensures forall i :: 0 <= i < 10 ==> rcon[i] == Join(Aes.Rcon(i), 0, 0, 0)
  {
    hide Join;
    hide Xtime;
    var i, x := 0, 1;
    while i < 10
      invariant 0 <= i <= 10 && x == Aes.Rcon(i)
      invariant forall k :: 0 <= k < i ==> rcon[k] == Join(Aes.Rcon(k), 0, 0, 0)
    {
      JoinOne(x);
      rcon[i] := x as bv32;
      x := Xtime(x);
      i := i + 1;
    }
  }

  // Rcon[i] is x^i in GF(2^8), section 5.2 of FIPS 197; these are the first ten.
  lemma {:induction false} RconIs(i: nat)
    ensures Aes.Rcon(0) == 1 && Aes.Rcon(i + 1) == Product(Aes.Rcon(i), 2)
  {
    hide Product;
    hide Xtime;
    ProductSmall(Aes.Rcon(i));
  }

  lemma {:induction false} RconValues()
    ensures Aes.Rcon(0) == 0x01 && Aes.Rcon(1) == 0x02 && Aes.Rcon(2) == 0x04 && Aes.Rcon(3) == 0x08 && Aes.Rcon(4) == 0x10
    ensures Aes.Rcon(5) == 0x20 && Aes.Rcon(6) == 0x40 && Aes.Rcon(7) == 0x80 && Aes.Rcon(8) == 0x1B && Aes.Rcon(9) == 0x36
  {
  }

  lemma {:induction false} ConstantsAre(rcon: seq<bv32>)
    requires |rcon| == 10 && forall i :: 0 <= i < 10 ==> rcon[i] == Join(Aes.Rcon(i), 0, 0, 0)
    ensures rcon == [0x01, 0x02, 0x04, 0x08, 0x10, 0x20, 0x40, 0x80, 0x1B, 0x36]
  {
    hide Aes.Rcon;
    RconValues();
    JoinOne(0x01); JoinOne(0x02); JoinOne(0x04); JoinOne(0x08); JoinOne(0x10);
    JoinOne(0x20); JoinOne(0x40); JoinOne(0x80); JoinOne(0x1B); JoinOne(0x36);
    hide Join;
    assert rcon[0] == 0x01 && rcon[1] == 0x02 && rcon[2] == 0x04 && rcon[3] == 0x08 && rcon[4] == 0x10;
    assert rcon[5] == 0x20 && rcon[6] == 0x40 && rcon[7] == 0x80 && rcon[8] == 0x1B && rcon[9] == 0x36;
  }

  lemma {:induction false} JoinOne(x: bv8)
    ensures x as bv32 == Join(x, 0, 0, 0)
  {
  }

  // The S-boxes from the inverses.
  method SubstitutionBoxes(t: Statics, pow: seq<bv8>, log: seq<nat>)
    requires t.Valid() && ArePowers(pow) && AreLogs(log)
    modifies t.fsb, t.rsb
    ensures t.IsRomBoxes()
  {
    hide Index;
    hide ToByte;
    hide Sb1;
    hide Boxes;
    hide ArePowers;
    hide AreLogs;
    hide Statics.IsRomBoxes;
    t.fsb[0] := 0x63;
    t.rsb[0x63] := 0;
    FirstBox(t.fsb[..], t.rsb[..]);
    var i := 1;
    while i < 256
      invariant 1 <= i <= 256 && Boxes(t.fsb[..], t.rsb[..], i)
    {
      NextBox(t.fsb[..], t.rsb[..], i);
      BoxEntry(t, i, pow, log);
      i := i + 1;
    }
    AllBoxes(t);
  }

  // The entries of the first n bytes.
  ghost predicate Boxes(fsb: seq<bv8>, rsb: seq<bv8>, n: nat) {
    && |fsb| == |rsb| == 256 && n <= 256
    && forall k: nat :: k < n ==> fsb[k] == Sb1(ToByte(k)) && Index(Sb1(ToByte(k))) < 256 && rsb[Index(Sb1(ToByte(k)))] == ToByte(k)
  }

  lemma {:induction false} FirstBox(fsb: seq<bv8>, rsb: seq<bv8>)
    requires |fsb| == |rsb| == 256 && fsb[0] == 0x63 && rsb[0x63] == 0
    ensures Boxes(fsb, rsb, 1)
  {
    hide Sb1;
    hide Index;
    hide ToByte;
    ZeroEntries();
  }

  lemma {:induction false} NextBox(fsb: seq<bv8>, rsb: seq<bv8>, i: nat)
    requires i < 256 && Boxes(fsb, rsb, i)
    ensures Index(Sb1(ToByte(i))) < 256
    ensures Boxes(fsb[i := Sb1(ToByte(i))], rsb[Index(Sb1(ToByte(i))) := ToByte(i)], i + 1)
  {
    hide Sb1;
    hide Index;
    hide ToByte;
    Indices();
    KeptEntries(i);
  }

  lemma {:induction false} AllBoxes(t: Statics)
    requires t.Valid() && Boxes(t.fsb[..], t.rsb[..], 256)
    ensures t.IsRomBoxes()
  {
    hide Sb1;
    hide Is1;
    hide Index;
    hide ToByte;
    Indices();
    forall b: bv8 ensures t.fsb[Index(b)] == Sb1(b) && t.rsb[Index(b)] == Is1(b) {
      Is1Sb1(b);
      assert t.fsb[..][Index(b)] == Sb1(ToByte(Index(b)));
      assert t.rsb[..][Index(Sb1(ToByte(Index(Is1(b)))))] == ToByte(Index(Is1(b)));
    }
  }

  // One turn of the loop.
  method BoxEntry(t: Statics, i: nat, pow: seq<bv8>, log: seq<nat>)
    requires t.Valid() && 0 < i < 256 && ArePowers(pow) && AreLogs(log)
    modifies t.fsb, t.rsb
    ensures Index(Sb1(ToByte(i))) < 256
    ensures t.fsb[..] == old(t.fsb[..])[i := Sb1(ToByte(i))]
    ensures t.rsb[..] == old(t.rsb[..])[Index(Sb1(ToByte(i))) := ToByte(i)]
  {
    hide Index;
    hide ToByte;
    hide Sb1;
    hide Affine;
    hide Power;
    Indices();
    ZeroEntries();
    var b := ToByte(i);
    assert IsLog(log, b);
    Substituted(b, log[i]);
    var x := AffineOf(pow[255 - log[i]]);
    t.fsb[i] := x;
    t.rsb[Index(x)] := b;
  }

  lemma {:induction false} ZeroEntries()
    ensures Sb1(0) == 0x63 && Index(0x63) == 0x63 && ToByte(0) == 0
  {
  }

  // S-box entries of different bytes are different.
  lemma {:induction false} KeptEntries(i: nat)
    requires i < 256
    ensures forall k: nat :: k < i ==> Index(Sb1(ToByte(k))) != Index(Sb1(ToByte(i)))
  {
    hide Sb1;
    hide Is1;
    hide ToByte;
    hide Index;
    Indices();
    forall k: nat | k < i ensures Index(Sb1(ToByte(k))) != Index(Sb1(ToByte(i))) {
      Is1Sb1(ToByte(k));
      Is1Sb1(ToByte(i));
    }
  }

  // The chain of rotations in the code.
  method AffineOf(v: bv8) returns (x: bv8)
    ensures x == Affine(v)
  {
    x := v;
    var y := x;
    y := (y << 1) | (y >> 7);
    x := x ^ y;
    y := (y << 1) | (y >> 7);
    x := x ^ y;
    y := (y << 1) | (y >> 7);
    x := x ^ y;
    y := (y << 1) | (y >> 7);
    x := x ^ (y ^ 0x63);
  }

  // ---- the forward and reverse tables

  // The entry of FTr and RTr at the index with value i.
  function Forward(r: nat, i: bv8): bv32 { Rolled(FT0(Rom(), i), r) }

  function Reverse(r: nat, i: bv8): bv32 { Rolled(RT0(Rom(), i), r) }

  function Rolled(w: bv32, r: nat): bv32 {
    if r == 0 then w else Rotl8(Rolled(w, r - 1))
  }

  // They are the tables of the rounds.
  lemma {:induction false} RolledTables(i: bv8)
    ensures Forward(0, i) == FT0(Rom(), i) && Forward(1, i) == FT1(Rom(), i)
    ensures Forward(2, i) == FT2(Rom(), i) && Forward(3, i) == FT3(Rom(), i)
    ensures Reverse(0, i) == RT0(Rom(), i) && Reverse(1, i) == RT1(Rom(), i)
    ensures Reverse(2, i) == RT2(Rom(), i) && Reverse(3, i) == RT3(Rom(), i)
  {
    hide Rotl8;
    hide FT0;
    hide RT0;
    RolledFour(FT0(Rom(), i));
    RolledFour(RT0(Rom(), i));
  }

  lemma {:induction false} RolledFour(w: bv32)
    ensures Rolled(w, 0) == w && Rolled(w, 1) == Rotl8(w)
    ensures Rolled(w, 2) == Rotl8(Rotl8(w)) && Rolled(w, 3) == Rotl8(Rotl8(Rotl8(w)))
  {
    hide Rotl8;
    assert Rolled(w, 1) == Rotl8(Rolled(w, 0));
    assert Rolled(w, 2) == Rotl8(Rolled(w, 1));
    assert Rolled(w, 3) == Rotl8(Rolled(w, 2));
  }

  // MUL(c, x)
  method Mul(c: bv8, x: bv8, pow: seq<bv8>, log: seq<nat>) returns (r: bv8)
    requires Factor(c) && ArePowers(pow) && AreLogs(log)
    ensures r == Times(c, x)
  {
    hide Index;
    hide Times;
    hide Power;
    Indices();
    TimesZero(c);
    if c != 0 && x != 0 {
      assert IsLog(log, c) && IsLog(log, x);
      PowerMod(log[Index(c)] + log[Index(x)]);
      TimesPower(c, log[Index(c)], log[Index(x)]);
      r := pow[(log[Index(c)] + log[Index(x)]) % 255];
    } else {
      r := 0;
    }
  }

  // a ^ b << 8 ^ c << 16 ^ d << 24
  method Word(a: bv8, b: bv8, c: bv8, d: bv8) returns (w: bv32)
    ensures w == Join(a, b, c, d)
  {
    w := a as bv32 ^ (b as bv32 << 8) ^ (c as bv32 << 16) ^ (d as bv32 << 24);
  }

  method FillForward(t: Statics, i: nat)
    requires t.Valid() && i < 256 && t.fsb[i] == Sb1(ToByte(i))
    modifies t.ft
    ensures forall r: nat :: r < 4 ==> t.ft[r, i] == Forward(r, ToByte(i))
    ensures forall r: nat, k: nat :: r < 4 && k < 256 && k != i ==> t.ft[r, k] == old(t.ft[r, k])
  {
    hide Sb1;
    hide ToByte;
    hide Join;
    hide Rotl8;
    var x := t.fsb[i];
    var y := Xtime(x);
    var z := Xor8(y, x);
    var w := Word(y, x, x, z);
    FillColumn(t.ft, i, w);
  }

  method FillReverse(t: Statics, i: nat, pow: seq<bv8>, log: seq<nat>)
    requires t.Valid() && i < 256 && t.rsb[i] == Is1(ToByte(i)) && ArePowers(pow) && AreLogs(log)
    modifies t.rt
    ensures forall r: nat :: r < 4 ==> t.rt[r, i] == Reverse(r, ToByte(i))
    ensures forall r: nat, k: nat :: r < 4 && k < 256 && k != i ==> t.rt[r, k] == old(t.rt[r, k])
  {
    hide Is1;
    hide ToByte;
    hide Join;
    hide Rotl8;
    hide Times9;
    hide Times11;
    hide Times13;
    hide Times14;
    hide ArePowers;
    hide AreLogs;
    var x := t.rsb[i];
    var b0 := Mul(0x0E, x, pow, log);
    var b1 := Mul(0x09, x, pow, log);
    var b2 := Mul(0x0D, x, pow, log);
    var b3 := Mul(0x0B, x, pow, log);
    var w := Word(b0, b1, b2, b3);
    FillColumn(t.rt, i, w);
  }

  // T1[i] = ROTL8( T0[i] ), and so on.
  method FillColumn(a: array2<bv32>, i: nat, w: bv32)
    requires a.Length0 == 4 && a.Length1 == 256 && i < 256
    modifies a
    ensures forall r: nat :: r < 4 ==> a[r, i] == Rolled(w, r)
    ensures forall r: nat, k: nat :: r < 4 && k < 256 && k != i ==> a[r, k] == old(a[r, k])
  {
    hide Rotl8;
    RolledFour(w);
    a[0, i] := w;
    a[1, i] := Rotl8(a[0, i]);
    a[2, i] := Rotl8(a[1, i]);
    a[3, i] := Rotl8(a[2, i]);
  }

  method RoundTables(t: Statics, pow: seq<bv8>, log: seq<nat>)
    requires t.Valid() && ArePowers(pow) && AreLogs(log) && t.IsRomBoxes()
    modifies t.ft, t.rt
    ensures t.IsRomBoxes() && t.IsRomTables()
  {
    hide Index;
    hide ToByte;
    hide Forward;
    hide Reverse;
    hide Sb1;
    hide Is1;
    hide ArePowers;
    hide AreLogs;
    Indices();
    var i := 0;
    while i < 256
      invariant 0 <= i <= 256
      invariant forall r: nat, k: nat :: r < 4 && k < i ==> t.ft[r, k] == Forward(r, ToByte(k))
      invariant forall r: nat, k: nat :: r < 4 && k < i ==> t.rt[r, k] == Reverse(r, ToByte(k))
    {
      assert t.fsb[Index(ToByte(i))] == Sb1(ToByte(i)) && t.rsb[Index(ToByte(i))] == Is1(ToByte(i));
      FillForward(t, i);
      FillReverse(t, i, pow, log);
      i := i + 1;
    }
  }

  // aes_gen_tables: every table it generates is the ROM table.
  method AesGenTables(t: Statics)
    requires t.Valid()
    modifies t.fsb, t.rsb, t.ft, t.rt, t.rcon
    ensures t.IsRomBoxes() && t.IsRomTables()
    ensures t.rcon[..] == [0x01, 0x02, 0x04, 0x08, 0x10, 0x20, 0x40, 0x80, 0x1B, 0x36]
  {
    hide ArePowers;
    hide AreLogs;
    hide Statics.IsRomBoxes;
    hide Statics.IsRomTables;
    hide Join;
    hide Aes.Rcon;
    var pow, log := new bv8[256], new nat[256];
    PowLog(pow, log);
    var p, l := pow[..], log[..];
    RoundConstants(t.rcon);
    ConstantsAre(t.rcon[..]);
    SubstitutionBoxes(t, p, l);
    RoundTables(t, p, l);
  }
}
