// The code of misc/mbedtls/library/aes.c behind Aes: key setup and block
// processing, for a build without AES-NI and Padlock.
module AesCode {
  import opened Words
  import opened AesColumns
  import opened AesTables
  import opened Spn
  import opened Aes

  const INVALID_KEY_LENGTH: int := -0x20

  class Context {
    var nr: nat
    const rk: array<bv32>

    constructor ()
      ensures fresh(rk) && rk.Length == 68 && nr == 0
    {
      nr := 0;
      rk := new bv32[68](_ => 0);
    }

    ghost predicate Ready()
      reads this
    {
      rk.Length == 68 && (nr == 10 || nr == 12 || nr == 14)
    }

    ghost function Keys(): (keys: seq<Quad>)
      requires Ready()
      reads this, rk
      ensures |keys| == nr + 1
    {
      RoundKeys(rk[..], nr)
    }
  }

  ghost function QuadAt(rk: array<bv32>, p: nat): Quad
    requires p + 4 <= rk.Length
    reads rk
  {
    Quad(rk[p], rk[p + 1], rk[p + 2], rk[p + 3])
  }

  // ---- rounds

  // AES_FROUND
  method FRound(sb: Tables, rk: array<bv32>, p: nat, y: Quad) returns (x: Quad)
    requires p + 4 <= rk.Length
    ensures x == XorQuad(MixColumns(ShiftRows(SubBytes(sb, y))), QuadAt(rk, p))
  {
    hide *;
    var x0 := Column(rk[p], FT0(sb, Byte0(y.a)), FT1(sb, Byte1(y.b)), FT2(sb, Byte2(y.c)), FT3(sb, Byte3(y.d)));
    var x1 := Column(rk[p + 1], FT0(sb, Byte0(y.b)), FT1(sb, Byte1(y.c)), FT2(sb, Byte2(y.d)), FT3(sb, Byte3(y.a)));
    var x2 := Column(rk[p + 2], FT0(sb, Byte0(y.c)), FT1(sb, Byte1(y.d)), FT2(sb, Byte2(y.a)), FT3(sb, Byte3(y.b)));
    var x3 := Column(rk[p + 3], FT0(sb, Byte0(y.d)), FT1(sb, Byte1(y.a)), FT2(sb, Byte2(y.b)), FT3(sb, Byte3(y.c)));
    x := Quad(x0, x1, x2, x3);
    FRoundIs(sb, QuadAt(rk, p), y);
    QuadAtIs(rk, p);
  }

  lemma {:induction false} QuadAtIs(rk: array<bv32>, p: nat)
    requires p + 4 <= rk.Length
    ensures QuadAt(rk, p) == Quad(rk[p], rk[p + 1], rk[p + 2], rk[p + 3])
  {
  }

  lemma {:induction false} FRoundIs(sb: Tables, k: Quad, y: Quad)
    ensures XorQuad(MixColumns(ShiftRows(SubBytes(sb, y))), k)
         == Quad(Column(k.a, FT0(sb, Byte0(y.a)), FT1(sb, Byte1(y.b)), FT2(sb, Byte2(y.c)), FT3(sb, Byte3(y.d))),
                 Column(k.b, FT0(sb, Byte0(y.b)), FT1(sb, Byte1(y.c)), FT2(sb, Byte2(y.d)), FT3(sb, Byte3(y.a))),
                 Column(k.c, FT0(sb, Byte0(y.c)), FT1(sb, Byte1(y.d)), FT2(sb, Byte2(y.a)), FT3(sb, Byte3(y.b))),
                 Column(k.d, FT0(sb, Byte0(y.d)), FT1(sb, Byte1(y.a)), FT2(sb, Byte2(y.b)), FT3(sb, Byte3(y.c))))
  {
    hide *;
    SubShiftWord(sb, y);
    ForwardWord(sb, k.a, Byte0(y.a), Byte1(y.b), Byte2(y.c), Byte3(y.d));
    ForwardWord(sb, k.b, Byte0(y.b), Byte1(y.c), Byte2(y.d), Byte3(y.a));
    ForwardWord(sb, k.c, Byte0(y.c), Byte1(y.d), Byte2(y.a), Byte3(y.b));
    ForwardWord(sb, k.d, Byte0(y.d), Byte1(y.a), Byte2(y.b), Byte3(y.c));
    MixAndAdd(ShiftRows(SubBytes(sb, y)), k);
  }

  lemma {:induction false} MixAndAdd(q: Quad, k: Quad)
    ensures XorQuad(MixColumns(q), k)
         == Quad(Xor(MixColumn(q.a), k.a), Xor(MixColumn(q.b), k.b), Xor(MixColumn(q.c), k.c), Xor(MixColumn(q.d), k.d))
    ensures XorQuad(InvMixColumns(q), k)
         == Quad(Xor(InvMixColumn(q.a), k.a), Xor(InvMixColumn(q.b), k.b), Xor(InvMixColumn(q.c), k.c), Xor(InvMixColumn(q.d), k.d))
  {
    hide MixColumn;
    hide InvMixColumn;
    hide Xor;
  }

  lemma {:induction false} ForwardWord(sb: Tables, k: bv32, i0: bv8, i1: bv8, i2: bv8, i3: bv8)
    ensures Column(k, FT0(sb, i0), FT1(sb, i1), FT2(sb, i2), FT3(sb, i3)) == Xor(MixColumn(Join(sb.fsb(i0), sb.fsb(i1), sb.fsb(i2), sb.fsb(i3))), k)
  {
    hide *;
    ColumnIs(k, FT0(sb, i0), FT1(sb, i1), FT2(sb, i2), FT3(sb, i3));
    ForwardColumn(sb, i0, i1, i2, i3);
  }

  // AES_RROUND
  method RRound(sb: Tables, rk: array<bv32>, p: nat, y: Quad) returns (x: Quad)
    requires p + 4 <= rk.Length
    ensures x == XorQuad(InvMixColumns(InvShiftRows(InvSubBytes(sb, y))), QuadAt(rk, p))
  {
    hide *;
    var x0 := Column(rk[p], RT0(sb, Byte0(y.a)), RT1(sb, Byte1(y.d)), RT2(sb, Byte2(y.c)), RT3(sb, Byte3(y.b)));
    var x1 := Column(rk[p + 1], RT0(sb, Byte0(y.b)), RT1(sb, Byte1(y.a)), RT2(sb, Byte2(y.d)), RT3(sb, Byte3(y.c)));
    var x2 := Column(rk[p + 2], RT0(sb, Byte0(y.c)), RT1(sb, Byte1(y.b)), RT2(sb, Byte2(y.a)), RT3(sb, Byte3(y.d)));
    var x3 := Column(rk[p + 3], RT0(sb, Byte0(y.d)), RT1(sb, Byte1(y.c)), RT2(sb, Byte2(y.b)), RT3(sb, Byte3(y.a)));
    x := Quad(x0, x1, x2, x3);
    RRoundIs(sb, QuadAt(rk, p), y);
    QuadAtIs(rk, p);
  }

  lemma {:induction false} RRoundIs(sb: Tables, k: Quad, y: Quad)
    ensures XorQuad(InvMixColumns(InvShiftRows(InvSubBytes(sb, y))), k)
         == Quad(Column(k.a, RT0(sb, Byte0(y.a)), RT1(sb, Byte1(y.d)), RT2(sb, Byte2(y.c)), RT3(sb, Byte3(y.b))),
                 Column(k.b, RT0(sb, Byte0(y.b)), RT1(sb, Byte1(y.a)), RT2(sb, Byte2(y.d)), RT3(sb, Byte3(y.c))),
                 Column(k.c, RT0(sb, Byte0(y.c)), RT1(sb, Byte1(y.b)), RT2(sb, Byte2(y.a)), RT3(sb, Byte3(y.d))),
                 Column(k.d, RT0(sb, Byte0(y.d)), RT1(sb, Byte1(y.c)), RT2(sb, Byte2(y.b)), RT3(sb, Byte3(y.a))))
  {
    hide *;
    SubShiftWord(sb, y);
    InverseWord(sb, k.a, Byte0(y.a), Byte1(y.d), Byte2(y.c), Byte3(y.b));
    InverseWord(sb, k.b, Byte0(y.b), Byte1(y.a), Byte2(y.d), Byte3(y.c));
    InverseWord(sb, k.c, Byte0(y.c), Byte1(y.b), Byte2(y.a), Byte3(y.d));
    InverseWord(sb, k.d, Byte0(y.d), Byte1(y.c), Byte2(y.b), Byte3(y.a));
    MixAndAdd(InvShiftRows(InvSubBytes(sb, y)), k);
  }

  lemma {:induction false} InverseWord(sb: Tables, k: bv32, i0: bv8, i1: bv8, i2: bv8, i3: bv8)
    ensures Column(k, RT0(sb, i0), RT1(sb, i1), RT2(sb, i2), RT3(sb, i3)) == Xor(InvMixColumn(Join(sb.rsb(i0), sb.rsb(i1), sb.rsb(i2), sb.rsb(i3))), k)
  {
    hide *;
    ColumnIs(k, RT0(sb, i0), RT1(sb, i1), RT2(sb, i2), RT3(sb, i3));
    InverseColumn(sb, i0, i1, i2, i3);
  }

  // The last round of encryption: S-boxes only.
  method FLast(sb: Tables, rk: array<bv32>, p: nat, y: Quad) returns (x: Quad)
    requires p + 4 <= rk.Length
    ensures x == XorQuad(ShiftRows(SubBytes(sb, y)), QuadAt(rk, p))
  {
    hide *;
    var x0 := Xor(rk[p], Join(sb.fsb(Byte0(y.a)), sb.fsb(Byte1(y.b)), sb.fsb(Byte2(y.c)), sb.fsb(Byte3(y.d))));
    var x1 := Xor(rk[p + 1], Join(sb.fsb(Byte0(y.b)), sb.fsb(Byte1(y.c)), sb.fsb(Byte2(y.d)), sb.fsb(Byte3(y.a))));
    var x2 := Xor(rk[p + 2], Join(sb.fsb(Byte0(y.c)), sb.fsb(Byte1(y.d)), sb.fsb(Byte2(y.a)), sb.fsb(Byte3(y.b))));
    var x3 := Xor(rk[p + 3], Join(sb.fsb(Byte0(y.d)), sb.fsb(Byte1(y.a)), sb.fsb(Byte2(y.b)), sb.fsb(Byte3(y.c))));
    x := Quad(x0, x1, x2, x3);
    SubShiftWord(sb, y);
    AddKey(QuadAt(rk, p), ShiftRows(SubBytes(sb, y)));
    QuadAtIs(rk, p);
  }

  // The last round of decryption.
  method RLast(sb: Tables, rk: array<bv32>, p: nat, y: Quad) returns (x: Quad)
    requires p + 4 <= rk.Length
    ensures x == XorQuad(InvShiftRows(InvSubBytes(sb, y)), QuadAt(rk, p))
  {
    hide *;
    var x0 := Xor(rk[p], Join(sb.rsb(Byte0(y.a)), sb.rsb(Byte1(y.d)), sb.rsb(Byte2(y.c)), sb.rsb(Byte3(y.b))));
    var x1 := Xor(rk[p + 1], Join(sb.rsb(Byte0(y.b)), sb.rsb(Byte1(y.a)), sb.rsb(Byte2(y.d)), sb.rsb(Byte3(y.c))));
    var x2 := Xor(rk[p + 2], Join(sb.rsb(Byte0(y.c)), sb.rsb(Byte1(y.b)), sb.rsb(Byte2(y.a)), sb.rsb(Byte3(y.d))));
    var x3 := Xor(rk[p + 3], Join(sb.rsb(Byte0(y.d)), sb.rsb(Byte1(y.c)), sb.rsb(Byte2(y.b)), sb.rsb(Byte3(y.a))));
    x := Quad(x0, x1, x2, x3);
    SubShiftWord(sb, y);
    AddKey(QuadAt(rk, p), InvShiftRows(InvSubBytes(sb, y)));
    QuadAtIs(rk, p);
  }

  lemma {:induction false} AddKey(k: Quad, q: Quad)
    ensures XorQuad(q, k) == Quad(Xor(k.a, q.a), Xor(k.b, q.b), Xor(k.c, q.c), Xor(k.d, q.d))
  {
    hide Xor;
    XorTwice(k.a, q.a);
    XorTwice(k.b, q.b);
    XorTwice(k.c, q.c);
    XorTwice(k.d, q.d);
  }

  // ---- block processing

  lemma {:induction false} KeyAt(rk: array<bv32>, nr: nat, i: nat)
    requires rk.Length >= 4 * (nr + 1) && i <= nr
    ensures RoundKeys(rk[..], nr)[i] == QuadAt(rk, 4 * i)
  {
  }

  lemma {:induction false} EncSub(sb: Tables, i: nat, q: Quad)
    ensures EncLayers(sb).sub(i, q) == ShiftRows(SubBytes(sb, q))
  {
    hide ShiftRows;
    hide SubBytes;
  }

  lemma {:induction false} EncLin(sb: Tables, q: Quad)
    ensures EncLayers(sb).lin(q) == MixColumns(q)
  {
    hide MixColumns;
  }

  lemma {:induction false} DecSub(sb: Tables, i: nat, q: Quad)
    ensures DecLayers(sb).sub(i, q) == InvShiftRows(InvSubBytes(sb, q))
  {
    hide InvShiftRows;
    hide InvSubBytes;
  }

  lemma {:induction false} DecLin(sb: Tables, q: Quad)
    ensures DecLayers(sb).lin(q) == InvMixColumns(q)
  {
    hide InvMixColumns;
  }

  lemma {:induction false} EncRound(sb: Tables, keys: seq<Quad>, i: nat, x: Quad)
    requires 0 < i < |keys|
    ensures Rounds(EncLayers(sb), keys, i, x)
         == XorQuad(MixColumns(ShiftRows(SubBytes(sb, Rounds(EncLayers(sb), keys, i - 1, x)))), keys[i])
  {
    hide *;
    NextRound(EncLayers(sb), keys, i, x);
    EncSub(sb, i - 1, Rounds(EncLayers(sb), keys, i - 1, x));
    EncLin(sb, ShiftRows(SubBytes(sb, Rounds(EncLayers(sb), keys, i - 1, x))));
  }

  lemma {:induction false} DecRound(sb: Tables, keys: seq<Quad>, i: nat, x: Quad)
    requires 0 < i < |keys|
    ensures Rounds(DecLayers(sb), keys, i, x)
         == XorQuad(InvMixColumns(InvShiftRows(InvSubBytes(sb, Rounds(DecLayers(sb), keys, i - 1, x)))), keys[i])
  {
    hide *;
    NextRound(DecLayers(sb), keys, i, x);
    DecSub(sb, i - 1, Rounds(DecLayers(sb), keys, i - 1, x));
    DecLin(sb, InvShiftRows(InvSubBytes(sb, Rounds(DecLayers(sb), keys, i - 1, x))));
  }

  lemma {:induction false} RunIs(sb: Tables, keys: seq<Quad>, x: Quad)
    requires |keys| >= 2
    ensures var nr := |keys| - 1;
            && Run(EncLayers(sb), keys, x) == XorQuad(ShiftRows(SubBytes(sb, Rounds(EncLayers(sb), keys, nr - 1, x))), keys[nr])
            && Run(DecLayers(sb), keys, x) == XorQuad(InvShiftRows(InvSubBytes(sb, Rounds(DecLayers(sb), keys, nr - 1, x))), keys[nr])
  {
    hide *;
    var nr := |keys| - 1;
    LastRound(EncLayers(sb), keys, x);
    LastRound(DecLayers(sb), keys, x);
    EncSub(sb, nr - 1, Rounds(EncLayers(sb), keys, nr - 1, x));
    DecSub(sb, nr - 1, Rounds(DecLayers(sb), keys, nr - 1, x));
  }

  lemma {:induction false} KeysAre(ctx: Context)
    requires ctx.Ready()
    ensures ctx.Keys() == RoundKeys(ctx.rk[..], ctx.nr) && ctx.rk.Length == 68 && ctx.nr % 2 == 0 && 10 <= ctx.nr <= 14
  {
    hide RoundKeys;
  }

  lemma {:induction false} BytesAre(sb: Tables, keys: seq<Quad>, input: seq<bv8>)
    requires |keys| >= 2 && |input| == 16
    ensures Encrypted(sb, keys, input) == PutLE(Run(EncLayers(sb), keys, GetLE(input)))
    ensures Decrypted(sb, keys, input) == PutLE(Run(DecLayers(sb), keys, GetLE(input)))
  {
    hide Run;
    hide PutLE;
    hide GetLE;
    hide EncLayers;
    hide DecLayers;
  }

  // mbedtls_internal_aes_encrypt
  method Encrypt(sb: Tables, ctx: Context, input: seq<bv8>, output: array<bv8>)
    requires ctx.Ready() && |input| == 16 && output.Length == 16
    modifies output
    ensures output[..] == Encrypted(sb, ctx.Keys(), input)
  {
    hide *;
    KeysAre(ctx);
    var rk, nr := ctx.rk, ctx.nr;
    ghost var keys, x := ctx.Keys(), GetLE(input);
    KeyAt(rk, nr, 0);
    QuadAtIs(rk, 0);
    var q := XorQuad(GetLE(input), Quad(rk[0], rk[1], rk[2], rk[3]));
    FirstRound(EncLayers(sb), keys, x);
    var p, i := 4, nr / 2 - 1;
    while i > 0
      invariant 0 <= i <= nr / 2 - 1 && p == 4 + 8 * (nr / 2 - 1 - i)
      invariant q == Rounds(EncLayers(sb), keys, p / 4 - 1, x)
    {
      q := NextEncrypt(sb, rk, nr, p, q, keys, x);
      q := NextEncrypt(sb, rk, nr, p + 4, q, keys, x);
      p, i := p + 8, i - 1;
    }
    q := NextEncrypt(sb, rk, nr, p, q, keys, x);
    p := p + 4;
    KeyAt(rk, nr, nr);
    q := FLast(sb, rk, p, q);
    RunIs(sb, keys, x);
    WriteLE(q, output);
    BytesAre(sb, keys, input);
    KeysAre(ctx);
  }

  method NextEncrypt(sb: Tables, rk: array<bv32>, nr: nat, p: nat, q: Quad, ghost keys: seq<Quad>, ghost x: Quad) returns (r: Quad)
    requires p % 4 == 0 && 4 <= p <= 4 * nr && 4 * (nr + 1) <= rk.Length && keys == RoundKeys(rk[..], nr)
    requires q == Rounds(EncLayers(sb), keys, p / 4 - 1, x)
    ensures r == Rounds(EncLayers(sb), keys, p / 4, x)
  {
    hide *;
    r := FRound(sb, rk, p, q);
    KeyAt(rk, nr, p / 4);
    EncRound(sb, keys, p / 4, x);
  }

  // mbedtls_internal_aes_decrypt
  method Decrypt(sb: Tables, ctx: Context, input: seq<bv8>, output: array<bv8>)
    requires ctx.Ready() && |input| == 16 && output.Length == 16
    modifies output
    ensures output[..] == Decrypted(sb, ctx.Keys(), input)
  {
    hide *;
    KeysAre(ctx);
    var rk, nr := ctx.rk, ctx.nr;
    ghost var keys, x := ctx.Keys(), GetLE(input);
    KeyAt(rk, nr, 0);
    QuadAtIs(rk, 0);
    var q := XorQuad(GetLE(input), Quad(rk[0], rk[1], rk[2], rk[3]));
    FirstRound(DecLayers(sb), keys, x);
    var p, i := 4, nr / 2 - 1;
    while i > 0
      invariant 0 <= i <= nr / 2 - 1 && p == 4 + 8 * (nr / 2 - 1 - i)
      invariant q == Rounds(DecLayers(sb), keys, p / 4 - 1, x)
    {
      q := NextDecrypt(sb, rk, nr, p, q, keys, x);
      q := NextDecrypt(sb, rk, nr, p + 4, q, keys, x);
      p, i := p + 8, i - 1;
    }
    q := NextDecrypt(sb, rk, nr, p, q, keys, x);
    p := p + 4;
    KeyAt(rk, nr, nr);
    q := RLast(sb, rk, p, q);
    RunIs(sb, keys, x);
    WriteLE(q, output);
    BytesAre(sb, keys, input);
    KeysAre(ctx);
  }

  method NextDecrypt(sb: Tables, rk: array<bv32>, nr: nat, p: nat, q: Quad, ghost keys: seq<Quad>, ghost x: Quad) returns (r: Quad)
    requires p % 4 == 0 && 4 <= p <= 4 * nr && 4 * (nr + 1) <= rk.Length && keys == RoundKeys(rk[..], nr)
    requires q == Rounds(DecLayers(sb), keys, p / 4 - 1, x)
    ensures r == Rounds(DecLayers(sb), keys, p / 4, x)
  {
    hide *;
    r := RRound(sb, rk, p, q);
    KeyAt(rk, nr, p / 4);
    DecRound(sb, keys, p / 4, x);
  }

  // ---- key setup

  predicate KeySize(keybits: nat) { keybits == 128 || keybits == 192 || keybits == 256 }

  // mbedtls_aes_setkey_enc
  method SetkeyEnc(sb: Tables, ctx: Context, key: seq<bv8>, keybits: nat) returns (ret: int)
    requires ctx.rk.Length == 68 && (KeySize(keybits) ==> 8 * |key| == keybits)
    modifies ctx, ctx.rk
    ensures ret == if keybits == 128 || keybits == 192 || keybits == 256 then 0 else INVALID_KEY_LENGTH
    ensures KeySize(keybits) ==> ctx.Ready() && ctx.nr == keybits / 32 + 6 && Expands(sb, ctx.rk[..], key, keybits / 32)
    ensures !KeySize(keybits) ==> ctx.nr == old(ctx.nr) && ctx.rk[..] == old(ctx.rk[..])
  {
    hide Follows;
    var nk, blocks;
    match keybits {
      case 128 => ctx.nr, nk, blocks := 10, 4, 10;
      case 192 => ctx.nr, nk, blocks := 12, 6, 8;
      case 256 => ctx.nr, nk, blocks := 14, 8, 7;
      case _ => return INVALID_KEY_LENGTH;
    }
    LoadKey(ctx.rk, key, nk);
    var i, p := 0, 0;
    while i < blocks
      invariant 0 <= i <= blocks && p == nk * i && p + nk <= 68 && ctx.nr == nk + 6
      invariant forall k :: 0 <= k < nk ==> ctx.rk[k] == KeyWord(key, k)
      invariant forall k :: nk <= k < p + nk ==> Follows(sb, ctx.rk[..], k, nk)
    {
      ghost var before := ctx.rk[..];
      ExpandBlock(sb, ctx.rk, p, nk, i);
      FollowsKept(sb, before, ctx.rk[..], nk, p + nk);
      i, p := i + 1, p + nk;
    }
    ret := 0;
  }

  lemma {:induction false} FollowsKept(sb: Tables, rk: seq<bv32>, rk': seq<bv32>, nk: nat, n: nat)
    requires 0 < nk <= n <= |rk| == |rk'| && rk'[..n] == rk[..n]
    requires forall k :: nk <= k < n ==> Follows(sb, rk, k, nk)
    ensures forall k :: nk <= k < n ==> Follows(sb, rk', k, nk)
  {
    hide Temp;
    hide Xor;
    forall k | nk <= k < n ensures Follows(sb, rk', k, nk) {
      assert Follows(sb, rk, k, nk);
      assert rk'[..n][k] == rk[..n][k] && rk'[..n][k - 1] == rk[..n][k - 1] && rk'[..n][k - nk] == rk[..n][k - nk];
    }
  }

  // GET_UINT32_LE( RK[i], key, i << 2 )
  method LoadKey(rk: array<bv32>, key: seq<bv8>, nk: nat)
    requires nk <= rk.Length && |key| == 4 * nk
    modifies rk
    ensures forall k :: 0 <= k < nk ==> rk[k] == KeyWord(key, k)
  {
    hide Join;
    var i := 0;
    while i < nk
      invariant 0 <= i <= nk
      invariant forall k :: 0 <= k < i ==> rk[k] == KeyWord(key, k)
    {
      rk[i] := Join(key[4 * i], key[4 * i + 1], key[4 * i + 2], key[4 * i + 3]);
      i := i + 1;
    }
  }

  // One pass of the key expansion loop: the nk words from RK + nk on.
  method ExpandBlock(sb: Tables, rk: array<bv32>, p: nat, nk: nat, i: nat)
    requires nk == 4 || nk == 6 || nk == 8
    requires p == nk * i && p + 2 * nk <= rk.Length
    modifies rk
    ensures rk[..p + nk] == old(rk[..p + nk])
    ensures forall k :: p + nk <= k < p + 2 * nk ==> Follows(sb, rk[..], k, nk)
  {
    hide *;
    ghost var before := rk[..];
    var w := rk[p + nk - 1];
    rk[p + nk] := Xor(Xor(rk[p], Join(Rcon(i), 0, 0, 0)),
                      Join(sb.fsb(Byte1(w)), sb.fsb(Byte2(w)), sb.fsb(Byte3(w)), sb.fsb(Byte0(w))));
    FirstWord(sb, rk[..], p, nk, i);
    var j := 1;
    while j < nk
      invariant 1 <= j <= nk && rk[..p + nk] == before[..p + nk]
      invariant forall k :: p + nk <= k < p + nk + j ==> Follows(sb, rk[..], k, nk)
    {
      ghost var seen := rk[..];
      ExpandWord(sb, rk, p, nk, i, j);
      FollowsLater(sb, seen, rk[..], nk, p + nk, p + nk + j);
      j := j + 1;
    }
  }

  method ExpandWord(sb: Tables, rk: array<bv32>, p: nat, nk: nat, i: nat, j: nat)
    requires nk == 4 || nk == 6 || nk == 8
    requires p == nk * i && 0 < j < nk && p + 2 * nk <= rk.Length
    modifies rk
    ensures rk[..p + nk + j] == old(rk[..p + nk + j])
    ensures Follows(sb, rk[..], p + nk + j, nk)
  {
    hide *;
    var t := rk[p + nk + j - 1];
    if nk == 8 && j == 4 {
      t := Join(sb.fsb(Byte0(t)), sb.fsb(Byte1(t)), sb.fsb(Byte2(t)), sb.fsb(Byte3(t)));
    }
    rk[p + nk + j] := Xor(rk[p + j], t);
    LaterWord(sb, rk[..], p, nk, i, j);
  }

  lemma {:induction false} FollowsLater(sb: Tables, rk: seq<bv32>, rk': seq<bv32>, nk: nat, m: nat, n: nat)
    requires 0 < nk <= m <= n <= |rk| == |rk'| && rk'[..n] == rk[..n]
    requires forall k :: m <= k < n ==> Follows(sb, rk, k, nk)
    ensures forall k :: m <= k < n ==> Follows(sb, rk', k, nk)
    ensures rk'[..m] == rk[..m]
  {
    hide Temp;
    hide Xor;
    forall k | m <= k < n ensures Follows(sb, rk', k, nk) {
      assert Follows(sb, rk, k, nk);
      assert rk'[..n][k] == rk[..n][k] && rk'[..n][k - 1] == rk[..n][k - 1] && rk'[..n][k - nk] == rk[..n][k - nk];
    }
    assert rk'[..m] == rk'[..n][..m] && rk[..m] == rk[..n][..m];
  }

  // Word p + nk + j is word j of block i + 1.
  lemma {:induction false} Place(p: nat, nk: nat, i: nat, j: nat)
    requires (nk == 4 || nk == 6 || nk == 8) && p == nk * i && j < nk
    ensures (p + nk + j) % nk == j && (p + nk + j) / nk == i + 1
  {
    if nk == 4 {
      assert p == 4 * i;
    } else if nk == 6 {
      assert p == 6 * i;
    } else {
      assert p == 8 * i;
    }
  }

  lemma {:induction false} FirstWord(sb: Tables, rk: seq<bv32>, p: nat, nk: nat, i: nat)
    requires (nk == 4 || nk == 6 || nk == 8) && p == nk * i && p + nk < |rk|
    requires var w := rk[p + nk - 1];
             rk[p + nk] == Xor(Xor(rk[p], Join(Rcon(i), 0, 0, 0)),
                               Join(sb.fsb(Byte1(w)), sb.fsb(Byte2(w)), sb.fsb(Byte3(w)), sb.fsb(Byte0(w))))
    ensures Follows(sb, rk, p + nk, nk)
  {
    hide Xor;
    hide Join;
    hide Rcon;
    hide Byte0;
    hide Byte1;
    hide Byte2;
    hide Byte3;
    var w := rk[p + nk - 1];
    Place(p, nk, i, 0);
    BytesJoin(Byte1(w), Byte2(w), Byte3(w), Byte0(w));
    var rc, t := Join(Rcon(i), 0, 0, 0), SubWord(sb, RotWord(w));
    XorAssoc(rk[p], rc, t);
    XorTwice(rc, t);
  }

  lemma {:induction false} LaterWord(sb: Tables, rk: seq<bv32>, p: nat, nk: nat, i: nat, j: nat)
    requires (nk == 4 || nk == 6 || nk == 8) && p == nk * i && 0 < j < nk && p + nk + j < |rk|
    requires var w := rk[p + nk + j - 1];
             rk[p + nk + j] == Xor(rk[p + j], if nk == 8 && j == 4 then
                                     Join(sb.fsb(Byte0(w)), sb.fsb(Byte1(w)), sb.fsb(Byte2(w)), sb.fsb(Byte3(w))) else w)
    ensures Follows(sb, rk, p + nk + j, nk)
  {
    hide Xor;
    hide Join;
    hide Rcon;
    hide Byte0;
    hide Byte1;
    hide Byte2;
    hide Byte3;
    Place(p, nk, i, j);
  }

  // mbedtls_aes_setkey_dec
  method SetkeyDec(sb: Tables, ctx: Context, key: seq<bv8>, keybits: nat) returns (ret: int)
    requires ctx.rk.Length == 68 && (KeySize(keybits) ==> 8 * |key| == keybits) && sb.Inverse()
    modifies ctx, ctx.rk
    ensures ret == if keybits == 128 || keybits == 192 || keybits == 256 then 0 else INVALID_KEY_LENGTH
    ensures KeySize(keybits) ==> ctx.Ready() && ctx.nr == keybits / 32 + 6
    ensures KeySize(keybits) ==> forall rk :: Expands(sb, rk, key, keybits / 32) ==>
              ctx.Keys() == DecryptionKeys(sb, RoundKeys(rk, ctx.nr))
    ensures !KeySize(keybits) ==> ctx.nr == old(ctx.nr) && ctx.rk[..] == old(ctx.rk[..])
  {
    hide Expands;
    hide RoundKeys;
    hide DecryptionKeys;
    var cty := new Context();
    ret := SetkeyEnc(sb, cty, key, keybits);
    if ret != 0 {
      return;
    }
    ctx.nr := cty.nr;
    Invert(sb, ctx.rk, cty.rk, cty.nr);
    ReadyIs(ctx);
    ReadyIs(cty);
    SameKeys(sb, cty.rk[..], key, keybits / 32);
  }

  lemma {:induction false} ReadyIs(ctx: Context)
    ensures ctx.Ready() <==> ctx.rk.Length == 68 && (ctx.nr == 10 || ctx.nr == 12 || ctx.nr == 14)
    ensures ctx.Ready() ==> ctx.Keys() == RoundKeys(ctx.rk[..], ctx.nr)
  {
    hide RoundKeys;
  }

  lemma {:induction false} SameKeys(sb: Tables, rk: seq<bv32>, key: seq<bv8>, nk: nat)
    requires Expands(sb, rk, key, nk)
    ensures forall rk' :: Expands(sb, rk', key, nk) ==> |rk'| >= 4 * (nk + 7) && RoundKeys(rk', nk + 6) == RoundKeys(rk, nk + 6)
  {
    hide Follows;
    hide KeyWord;
    forall rk' | Expands(sb, rk', key, nk) ensures |rk'| >= 4 * (nk + 7) && RoundKeys(rk', nk + 6) == RoundKeys(rk, nk + 6) {
      ExpansionUnique(sb, rk, rk', key, nk, 4 * (nk + 7));
      RoundKeysOf(rk, rk', nk + 6);
    }
  }

  lemma {:induction false} RoundKeysOf(rk: seq<bv32>, rk': seq<bv32>, nr: nat)
    requires |rk| >= 4 * (nr + 1) && |rk'| >= 4 * (nr + 1) && rk[..4 * (nr + 1)] == rk'[..4 * (nr + 1)]
    ensures RoundKeys(rk, nr) == RoundKeys(rk', nr)
  {
    var n := 4 * (nr + 1);
    forall k | 0 <= k < n ensures rk[k] == rk'[k] {
      assert rk[..n][k] == rk'[..n][k];
    }
  }

  // Round key m of a schedule.
  ghost function KeyOf(rk: array<bv32>, m: nat): Quad
    requires 4 * m + 4 <= rk.Length
    reads rk
  {
    QuadAt(rk, 4 * m)
  }

  // The walk of SK down the encryption schedule.
  method Invert(sb: Tables, dk: array<bv32>, rk: array<bv32>, nr: nat)
    requires sb.Inverse() && dk != rk && 0 < nr && 4 * (nr + 1) <= dk.Length && 4 * (nr + 1) <= rk.Length
    modifies dk
    ensures RoundKeys(dk[..], nr) == DecryptionKeys(sb, RoundKeys(rk[..], nr))
  {
    hide InvMixColumns;
    hide KeyOf;
    hide RoundKeys;
    hide DecryptionKeys;
    var p, sk := 0, 4 * nr;
    CopyQuad(dk, p, rk, sk);
    p, sk := p + 4, sk + 4;
    var i := nr - 1;
    sk := sk - 8;
    while i > 0
      invariant 0 <= i < nr && p == 4 * (nr - i) && sk == 4 * i
      invariant KeyOf(dk, 0) == KeyOf(rk, nr)
      invariant forall m :: 0 < m < nr - i ==> KeyOf(dk, m) == InvMixColumns(KeyOf(rk, nr - m))
    {
      InvertQuad(sb, dk, p, rk, sk);
      p, sk := p + 4, sk + 4;
      i := i - 1;
      sk := sk - 8;
    }
    CopyQuad(dk, p, rk, sk);
    InvertedKeys(sb, dk, rk, nr);
  }

  lemma {:induction false} InvertedKeys(sb: Tables, dk: array<bv32>, rk: array<bv32>, nr: nat)
    requires 0 < nr && 4 * (nr + 1) <= dk.Length && 4 * (nr + 1) <= rk.Length
    requires KeyOf(dk, 0) == KeyOf(rk, nr) && KeyOf(dk, nr) == KeyOf(rk, 0)
    requires forall m :: 0 < m < nr ==> KeyOf(dk, m) == InvMixColumns(KeyOf(rk, nr - m))
    ensures RoundKeys(dk[..], nr) == DecryptionKeys(sb, RoundKeys(rk[..], nr))
  {
    hide InvMixColumns;
    hide QuadAt;
    hide RoundKeys;
    hide DecryptionKeys;
    var keys, d := RoundKeys(rk[..], nr), RoundKeys(dk[..], nr);
    var e := DecryptionKeys(sb, keys);
    forall m | 0 <= m <= nr ensures d[m] == e[m] {
      KeyAt(dk, nr, m);
      KeyAt(rk, nr, nr - m);
      DecryptionKeyAt(sb, keys, m);
      assert d[m] == KeyOf(dk, m) && keys[nr - m] == KeyOf(rk, nr - m);
    }
  }

  lemma {:induction false} DecryptionKeyAt(sb: Tables, keys: seq<Quad>, m: nat)
    requires 2 <= |keys| && m < |keys|
    ensures var nr := |keys| - 1;
            DecryptionKeys(sb, keys)[m] == if m == 0 || m == nr then keys[nr - m] else InvMixColumns(keys[nr - m])
  {
    hide InvMixColumns;
    hide Inverted;
    InvertedAt(DecLayers(sb).lin, keys, m);
  }

  // *RK++ = *SK++, four times.
  method CopyQuad(dk: array<bv32>, p: nat, rk: array<bv32>, sk: nat)
    requires dk != rk && p % 4 == 0 && sk % 4 == 0 && p + 4 <= dk.Length && sk + 4 <= rk.Length
    modifies dk
    ensures KeyOf(dk, p / 4) == KeyOf(rk, sk / 4)
    ensures forall m: nat :: 4 * m + 4 <= dk.Length && m != p / 4 ==> KeyOf(dk, m) == old(KeyOf(dk, m))
  {
    dk[p] := rk[sk];
    dk[p + 1] := rk[sk + 1];
    dk[p + 2] := rk[sk + 2];
    dk[p + 3] := rk[sk + 3];
  }

  // The inner loop: InvMixColumns by the table lookup RT[FSb[.]].
  method InvertQuad(sb: Tables, dk: array<bv32>, p: nat, rk: array<bv32>, sk: nat)
    requires sb.Inverse() && dk != rk && p % 4 == 0 && sk % 4 == 0 && p + 4 <= dk.Length && sk + 4 <= rk.Length
    modifies dk
    ensures KeyOf(dk, p / 4) == InvMixColumns(KeyOf(rk, sk / 4))
    ensures forall m: nat :: 4 * m + 4 <= dk.Length && m != p / 4 ==> KeyOf(dk, m) == old(KeyOf(dk, m))
  {
    hide InvMixColumn;
    var j := 0;
    while j < 4
      invariant 0 <= j <= 4
      invariant forall k :: p <= k < p + j ==> dk[k] == InvMixColumn(rk[sk + (k - p)])
      invariant forall k :: 0 <= k < p || p + 4 <= k < dk.Length ==> dk[k] == old(dk[k])
    {
      dk[p + j] := InvertWord(sb, rk[sk + j]);
      j := j + 1;
    }
  }

  method InvertWord(sb: Tables, w: bv32) returns (r: bv32)
    requires sb.Inverse()
    ensures r == InvMixColumn(w)
  {
    hide Sum;
    hide RT0;
    hide RT1;
    hide RT2;
    hide RT3;
    hide InvMixColumn;
    hide Join;
    hide Byte0;
    hide Byte1;
    hide Byte2;
    hide Byte3;
    r := Sum(RT0(sb, sb.fsb(Byte0(w))), RT1(sb, sb.fsb(Byte1(w))), RT2(sb, sb.fsb(Byte2(w))), RT3(sb, sb.fsb(Byte3(w))));
    InverseColumn(sb, sb.fsb(Byte0(w)), sb.fsb(Byte1(w)), sb.fsb(Byte2(w)), sb.fsb(Byte3(w)));
    JoinBytes(w);
  }

  // Two contexts set up from one key: decrypting under the second what was
  // encrypted under the first returns the input.
  method EncryptThenDecrypt(sb: Tables, key: seq<bv8>, keybits: nat, input: seq<bv8>) returns (output: array<bv8>)
    requires KeySize(keybits) && 8 * |key| == keybits && sb.Inverse() && |input| == 16
    ensures output[..] == input
  {
    hide Expands;
    hide RoundKeys;
    hide DecryptionKeys;
    hide Encrypted;
    hide Decrypted;
    hide Tables.Inverse;
    var enc := new Context();
    var dec := new Context();
    var r := SetkeyEnc(sb, enc, key, keybits);
    r := SetkeyDec(sb, dec, key, keybits);
    var middle := new bv8[16];
    output := new bv8[16];
    Encrypt(sb, enc, input, middle);
    ReadyIs(enc);
    Decrypt(sb, dec, middle[..], output);
    DecryptUndoesEncrypt(sb, enc.Keys(), input);
  }
}
