// The block function of misc/mbedtls/library/aes.c: rounds by table look-up
// under the schedules of mbedtls_aes_setkey_enc and mbedtls_aes_setkey_dec,
// against the definitions of FIPS 197.
module Aes {
  import opened Words
  import opened AesTables
  import opened AesColumns
  import opened Spn

  // ---- the layers of FIPS 197, a word being a column

  function SubBytes(sb: Tables, q: Quad): Quad { Quad(SubWord(sb, q.a), SubWord(sb, q.b), SubWord(sb, q.c), SubWord(sb, q.d)) }

  function SubWord(sb: Tables, w: bv32): bv32 { Join(sb.fsb(Byte0(w)), sb.fsb(Byte1(w)), sb.fsb(Byte2(w)), sb.fsb(Byte3(w))) }

  function InvSubBytes(sb: Tables, q: Quad): Quad { Quad(InvSubWord(sb, q.a), InvSubWord(sb, q.b), InvSubWord(sb, q.c), InvSubWord(sb, q.d)) }

  function InvSubWord(sb: Tables, w: bv32): bv32 { Join(sb.rsb(Byte0(w)), sb.rsb(Byte1(w)), sb.rsb(Byte2(w)), sb.rsb(Byte3(w))) }

  // Row r is rotated by r columns to the left.
  function ShiftRows(q: Quad): Quad {
    Quad(Join(Byte0(q.a), Byte1(q.b), Byte2(q.c), Byte3(q.d)), Join(Byte0(q.b), Byte1(q.c), Byte2(q.d), Byte3(q.a)),
         Join(Byte0(q.c), Byte1(q.d), Byte2(q.a), Byte3(q.b)), Join(Byte0(q.d), Byte1(q.a), Byte2(q.b), Byte3(q.c)))
  }

  function InvShiftRows(q: Quad): Quad {
    Quad(Join(Byte0(q.a), Byte1(q.d), Byte2(q.c), Byte3(q.b)), Join(Byte0(q.b), Byte1(q.a), Byte2(q.d), Byte3(q.c)),
         Join(Byte0(q.c), Byte1(q.b), Byte2(q.a), Byte3(q.d)), Join(Byte0(q.d), Byte1(q.c), Byte2(q.b), Byte3(q.a)))
  }

  function MixColumns(q: Quad): Quad { Quad(MixColumn(q.a), MixColumn(q.b), MixColumn(q.c), MixColumn(q.d)) }

  function InvMixColumns(q: Quad): Quad {
    Quad(InvMixColumn(q.a), InvMixColumn(q.b), InvMixColumn(q.c), InvMixColumn(q.d))
  }

  function EncLayers(sb: Tables): Layers {
    Layers((i: nat, x: Quad) => ShiftRows(SubBytes(sb, x)), (x: Quad) => MixColumns(x))
  }

  function DecLayers(sb: Tables): Layers {
    Layers((i: nat, x: Quad) => InvShiftRows(InvSubBytes(sb, x)), (x: Quad) => InvMixColumns(x))
  }

  // ---- the layers of decryption take back those of encryption, and conversely

  lemma {:induction false} WordBack(sb: Tables, w: bv32)
    requires sb.Inverse()
    ensures InvSubWord(sb, SubWord(sb, w)) == w && SubWord(sb, InvSubWord(sb, w)) == w
  {
    hide Join;
    hide Byte0;
    hide Byte1;
    hide Byte2;
    hide Byte3;
    var a, b, c, d := Byte0(w), Byte1(w), Byte2(w), Byte3(w);
    JoinBytes(w);
    BytesJoin(sb.fsb(a), sb.fsb(b), sb.fsb(c), sb.fsb(d));
    BytesJoin(sb.rsb(a), sb.rsb(b), sb.rsb(c), sb.rsb(d));
  }

  lemma {:induction false} BytesBack(sb: Tables, q: Quad)
    requires sb.Inverse()
    ensures InvSubBytes(sb, SubBytes(sb, q)) == q && SubBytes(sb, InvSubBytes(sb, q)) == q
  {
    hide SubWord;
    hide InvSubWord;
    WordBack(sb, q.a);
    WordBack(sb, q.b);
    WordBack(sb, q.c);
    WordBack(sb, q.d);
  }

  lemma {:induction false} RowsBack(q: Quad)
    ensures InvShiftRows(ShiftRows(q)) == q && ShiftRows(InvShiftRows(q)) == q
  {
    hide Join;
    hide Byte0;
    hide Byte1;
    hide Byte2;
    hide Byte3;
    JoinBytes(q.a);
    JoinBytes(q.b);
    JoinBytes(q.c);
    JoinBytes(q.d);
    RowBytes(q);
  }

  lemma {:induction false} RowBytes(q: Quad)
    ensures var r := ShiftRows(q);
            && Byte0(r.a) == Byte0(q.a) && Byte1(r.a) == Byte1(q.b) && Byte2(r.a) == Byte2(q.c) && Byte3(r.a) == Byte3(q.d)
            && Byte0(r.b) == Byte0(q.b) && Byte1(r.b) == Byte1(q.c) && Byte2(r.b) == Byte2(q.d) && Byte3(r.b) == Byte3(q.a)
            && Byte0(r.c) == Byte0(q.c) && Byte1(r.c) == Byte1(q.d) && Byte2(r.c) == Byte2(q.a) && Byte3(r.c) == Byte3(q.b)
            && Byte0(r.d) == Byte0(q.d) && Byte1(r.d) == Byte1(q.a) && Byte2(r.d) == Byte2(q.b) && Byte3(r.d) == Byte3(q.c)
    ensures var r := InvShiftRows(q);
            && Byte0(r.a) == Byte0(q.a) && Byte1(r.a) == Byte1(q.d) && Byte2(r.a) == Byte2(q.c) && Byte3(r.a) == Byte3(q.b)
            && Byte0(r.b) == Byte0(q.b) && Byte1(r.b) == Byte1(q.a) && Byte2(r.b) == Byte2(q.d) && Byte3(r.b) == Byte3(q.c)
            && Byte0(r.c) == Byte0(q.c) && Byte1(r.c) == Byte1(q.b) && Byte2(r.c) == Byte2(q.a) && Byte3(r.c) == Byte3(q.d)
            && Byte0(r.d) == Byte0(q.d) && Byte1(r.d) == Byte1(q.c) && Byte2(r.d) == Byte2(q.b) && Byte3(r.d) == Byte3(q.a)
  {
    hide Join;
    hide Byte0;
    hide Byte1;
    hide Byte2;
    hide Byte3;
    var a, b, c, d := q.a, q.b, q.c, q.d;
    BytesJoin(Byte0(a), Byte1(b), Byte2(c), Byte3(d));
    BytesJoin(Byte0(b), Byte1(c), Byte2(d), Byte3(a));
    BytesJoin(Byte0(c), Byte1(d), Byte2(a), Byte3(b));
    BytesJoin(Byte0(d), Byte1(a), Byte2(b), Byte3(c));
    BytesJoin(Byte0(a), Byte1(d), Byte2(c), Byte3(b));
    BytesJoin(Byte0(b), Byte1(a), Byte2(d), Byte3(c));
    BytesJoin(Byte0(c), Byte1(b), Byte2(a), Byte3(d));
    BytesJoin(Byte0(d), Byte1(c), Byte2(b), Byte3(a));
  }

  lemma {:induction false} SubBytesOf(sb: Tables, w: bv32)
    ensures Byte0(SubWord(sb, w)) == sb.fsb(Byte0(w)) && Byte1(SubWord(sb, w)) == sb.fsb(Byte1(w))
    ensures Byte2(SubWord(sb, w)) == sb.fsb(Byte2(w)) && Byte3(SubWord(sb, w)) == sb.fsb(Byte3(w))
    ensures Byte0(InvSubWord(sb, w)) == sb.rsb(Byte0(w)) && Byte1(InvSubWord(sb, w)) == sb.rsb(Byte1(w))
    ensures Byte2(InvSubWord(sb, w)) == sb.rsb(Byte2(w)) && Byte3(InvSubWord(sb, w)) == sb.rsb(Byte3(w))
  {
    hide Join;
    hide Byte0;
    hide Byte1;
    hide Byte2;
    hide Byte3;
    BytesJoin(sb.fsb(Byte0(w)), sb.fsb(Byte1(w)), sb.fsb(Byte2(w)), sb.fsb(Byte3(w)));
    BytesJoin(sb.rsb(Byte0(w)), sb.rsb(Byte1(w)), sb.rsb(Byte2(w)), sb.rsb(Byte3(w)));
  }

  // Substituting bytes and moving them commute. This is the word at a time
  // form of the substitution half of a round.
  lemma {:induction false} SubShiftWord(sb: Tables, q: Quad)
    ensures ShiftRows(SubBytes(sb, q))
         == Quad(Join(sb.fsb(Byte0(q.a)), sb.fsb(Byte1(q.b)), sb.fsb(Byte2(q.c)), sb.fsb(Byte3(q.d))),
                 Join(sb.fsb(Byte0(q.b)), sb.fsb(Byte1(q.c)), sb.fsb(Byte2(q.d)), sb.fsb(Byte3(q.a))),
                 Join(sb.fsb(Byte0(q.c)), sb.fsb(Byte1(q.d)), sb.fsb(Byte2(q.a)), sb.fsb(Byte3(q.b))),
                 Join(sb.fsb(Byte0(q.d)), sb.fsb(Byte1(q.a)), sb.fsb(Byte2(q.b)), sb.fsb(Byte3(q.c))))
    ensures InvShiftRows(InvSubBytes(sb, q))
         == Quad(Join(sb.rsb(Byte0(q.a)), sb.rsb(Byte1(q.d)), sb.rsb(Byte2(q.c)), sb.rsb(Byte3(q.b))),
                 Join(sb.rsb(Byte0(q.b)), sb.rsb(Byte1(q.a)), sb.rsb(Byte2(q.d)), sb.rsb(Byte3(q.c))),
                 Join(sb.rsb(Byte0(q.c)), sb.rsb(Byte1(q.b)), sb.rsb(Byte2(q.a)), sb.rsb(Byte3(q.d))),
                 Join(sb.rsb(Byte0(q.d)), sb.rsb(Byte1(q.c)), sb.rsb(Byte2(q.b)), sb.rsb(Byte3(q.a))))
  {
    hide Join;
    hide Byte0;
    hide Byte1;
    hide Byte2;
    hide Byte3;
    hide SubWord;
    hide InvSubWord;
    SubBytesOf(sb, q.a);
    SubBytesOf(sb, q.b);
    SubBytesOf(sb, q.c);
    SubBytesOf(sb, q.d);
  }

  lemma {:induction false} SubShift(sb: Tables, q: Quad)
    requires sb.Inverse()
    ensures InvShiftRows(InvSubBytes(sb, ShiftRows(SubBytes(sb, q)))) == q
    ensures ShiftRows(SubBytes(sb, InvShiftRows(InvSubBytes(sb, q)))) == q
  {
    hide *;
    var s, t := SubBytes(sb, q), InvSubBytes(sb, q);
    Commute(sb, s, t);
    BytesBack(sb, q);
    RowsBack(q);
  }

  lemma {:induction false} Commute(sb: Tables, s: Quad, t: Quad)
    ensures InvSubBytes(sb, ShiftRows(s)) == ShiftRows(InvSubBytes(sb, s))
    ensures SubBytes(sb, InvShiftRows(t)) == InvShiftRows(SubBytes(sb, t))
  {
    hide Join;
    hide Byte0;
    hide Byte1;
    hide Byte2;
    hide Byte3;
    hide ShiftRows;
    hide InvShiftRows;
    RowBytes(s);
    RowBytes(t);
    RowsOf(InvSubBytes(sb, s));
    RowsOf(SubBytes(sb, t));
    SubBytesOf(sb, s.a);
    SubBytesOf(sb, s.b);
    SubBytesOf(sb, s.c);
    SubBytesOf(sb, s.d);
    SubBytesOf(sb, t.a);
    SubBytesOf(sb, t.b);
    SubBytesOf(sb, t.c);
    SubBytesOf(sb, t.d);
  }

  lemma {:induction false} RowsOf(q: Quad)
    ensures ShiftRows(q) == Quad(Join(Byte0(q.a), Byte1(q.b), Byte2(q.c), Byte3(q.d)), Join(Byte0(q.b), Byte1(q.c), Byte2(q.d), Byte3(q.a)),
                                 Join(Byte0(q.c), Byte1(q.d), Byte2(q.a), Byte3(q.b)), Join(Byte0(q.d), Byte1(q.a), Byte2(q.b), Byte3(q.c)))
    ensures InvShiftRows(q) == Quad(Join(Byte0(q.a), Byte1(q.d), Byte2(q.c), Byte3(q.b)), Join(Byte0(q.b), Byte1(q.a), Byte2(q.d), Byte3(q.c)),
                                    Join(Byte0(q.c), Byte1(q.b), Byte2(q.a), Byte3(q.d)), Join(Byte0(q.d), Byte1(q.c), Byte2(q.b), Byte3(q.a)))
  {
    hide Join;
    hide Byte0;
    hide Byte1;
    hide Byte2;
    hide Byte3;
  }

  lemma {:induction false} ColumnsBack(q: Quad)
    ensures InvMixColumns(MixColumns(q)) == q && MixColumns(InvMixColumns(q)) == q
  {
    hide MixColumn;
    hide InvMixColumn;
    InvMixMix(q.a);
    InvMixMix(q.b);
    InvMixMix(q.c);
    InvMixMix(q.d);
  }

  lemma {:induction false} MixingLinear(x: Quad, y: Quad)
    ensures MixColumns(XorQuad(x, y)) == XorQuad(MixColumns(x), MixColumns(y))
    ensures InvMixColumns(XorQuad(x, y)) == XorQuad(InvMixColumns(x), InvMixColumns(y))
  {
    hide MixColumn;
    hide InvMixColumn;
    hide Xor;
    ColumnsLinear(x.a, y.a);
    ColumnsLinear(x.b, y.b);
    ColumnsLinear(x.c, y.c);
    ColumnsLinear(x.d, y.d);
  }

  lemma {:induction false} LayersUndo(sb: Tables, nr: nat)
    requires sb.Inverse()
    ensures Undoes(DecLayers(sb), EncLayers(sb), nr)
    ensures Undoes(EncLayers(sb), DecLayers(sb), nr)
  {
    hide SubBack;
    hide LinBack;
    hide LinearOverXor;
    SubsBack(sb, nr);
    LinsBack(sb);
    LinsLinear(sb);
  }

  lemma {:induction false} SubsBack(sb: Tables, nr: nat)
    requires sb.Inverse()
    ensures SubBack(DecLayers(sb), EncLayers(sb), nr)
    ensures SubBack(EncLayers(sb), DecLayers(sb), nr)
  {
    hide SubBytes;
    hide InvSubBytes;
    hide ShiftRows;
    hide InvShiftRows;
    hide MixColumns;
    hide InvMixColumns;
    hide XorQuad;
    forall x: Quad ensures InvShiftRows(InvSubBytes(sb, ShiftRows(SubBytes(sb, x)))) == x {
      SubShift(sb, x);
    }
    forall x: Quad ensures ShiftRows(SubBytes(sb, InvShiftRows(InvSubBytes(sb, x)))) == x {
      SubShift(sb, x);
    }
  }

  lemma {:induction false} LinsBack(sb: Tables)
    ensures LinBack(DecLayers(sb), EncLayers(sb))
    ensures LinBack(EncLayers(sb), DecLayers(sb))
  {
    hide SubBytes;
    hide InvSubBytes;
    hide ShiftRows;
    hide InvShiftRows;
    hide MixColumns;
    hide InvMixColumns;
    hide XorQuad;
    forall x: Quad ensures InvMixColumns(MixColumns(x)) == x && MixColumns(InvMixColumns(x)) == x {
      ColumnsBack(x);
    }
  }

  lemma {:induction false} LinsLinear(sb: Tables)
    ensures LinearOverXor(DecLayers(sb))
    ensures LinearOverXor(EncLayers(sb))
  {
    hide SubBytes;
    hide InvSubBytes;
    hide ShiftRows;
    hide InvShiftRows;
    hide MixColumns;
    hide InvMixColumns;
    hide XorQuad;
    forall x: Quad, y: Quad
      ensures MixColumns(XorQuad(x, y)) == XorQuad(MixColumns(x), MixColumns(y))
      ensures InvMixColumns(XorQuad(x, y)) == XorQuad(InvMixColumns(x), InvMixColumns(y))
    {
      MixingLinear(x, y);
    }
  }

  // ---- the cipher on bytes

  // Encryption under the round keys of the encryption schedule.
  function Encrypted(sb: Tables, keys: seq<Quad>, input: seq<bv8>): (output: seq<bv8>)
    requires |keys| >= 2 && |input| == 16
    ensures |output| == 16
  {
    PutLE(Run(EncLayers(sb), keys, GetLE(input)))
  }

  // The equivalent inverse cipher under the round keys of a decryption schedule.
  function Decrypted(sb: Tables, dk: seq<Quad>, input: seq<bv8>): (output: seq<bv8>)
    requires |dk| >= 2 && |input| == 16
    ensures |output| == 16
  {
    PutLE(Run(DecLayers(sb), dk, GetLE(input)))
  }

  // The round keys reversed, the inner ones sent through InvMixColumns.
  function DecryptionKeys(sb: Tables, keys: seq<Quad>): (dk: seq<Quad>)
    requires |keys| >= 2
    ensures |dk| == |keys|
  {
    Inverted(DecLayers(sb).lin, keys)
  }

  // Section 5.3.5 of FIPS 197, for any number of rounds and any round keys.
  lemma {:induction false} DecryptUndoesEncrypt(sb: Tables, keys: seq<Quad>, input: seq<bv8>)
    requires |keys| >= 2 && |input| == 16 && sb.Inverse()
    ensures Decrypted(sb, DecryptionKeys(sb, keys), Encrypted(sb, keys, input)) == input
    ensures Encrypted(sb, keys, Decrypted(sb, DecryptionKeys(sb, keys), input)) == input
  {
    hide Run;
    hide Inverted;
    hide GetLE;
    hide PutLE;
    hide Undoes;
    hide EncLayers;
    hide DecLayers;
    var d, e, x := DecLayers(sb), EncLayers(sb), GetLE(input);
    LayersUndo(sb, |keys| - 1);
    GetPutLE(Run(e, keys, x));
    RunBack(d, e, keys, x);
    GetPutLE(Run(d, DecryptionKeys(sb, keys), x));
    RunForth(d, e, keys, x);
    PutGetLE(input);
  }

  // ---- key expansion, section 5.2 of FIPS 197

  function RotWord(w: bv32): bv32 { Join(Byte1(w), Byte2(w), Byte3(w), Byte0(w)) }

  // x^i in GF(2^8).
  function Rcon(i: nat): bv8 {
    if i == 0 then 1 else Xtime(Rcon(i - 1))
  }

  // What is added to word i - nk to get word i, from word i - 1.
  function Temp(sb: Tables, w: bv32, i: nat, nk: nat): bv32
    requires 0 < nk <= i
  {
    if i % nk == 0 then Xor(SubWord(sb, RotWord(w)), Join(Rcon(i / nk - 1), 0, 0, 0))
    else if nk > 6 && i % nk == 4 then SubWord(sb, w)
    else w
  }

  // rk holds the key expansion of key: nk words of key, 4 * (nk + 7) words in all.
  ghost predicate Expands(sb: Tables, rk: seq<bv32>, key: seq<bv8>, nk: nat) {
    && 0 < nk && |key| == 4 * nk && |rk| >= 4 * (nk + 7)
    && (forall i :: 0 <= i < nk ==> rk[i] == KeyWord(key, i))
    && (forall i :: nk <= i < 4 * (nk + 7) ==> Follows(sb, rk, i, nk))
  }

  predicate Follows(sb: Tables, rk: seq<bv32>, i: nat, nk: nat)
    requires 0 < nk <= i < |rk|
  {
    rk[i] == Xor(rk[i - nk], Temp(sb, rk[i - 1], i, nk))
  }

  function KeyWord(key: seq<bv8>, i: nat): bv32
    requires 4 * i + 3 < |key|
  {
    Join(key[4 * i], key[4 * i + 1], key[4 * i + 2], key[4 * i + 3])
  }

  // The expansion is determined by the key.
  lemma {:induction false} ExpansionUnique(sb: Tables, rk: seq<bv32>, rk': seq<bv32>, key: seq<bv8>, nk: nat, n: nat)
    requires Expands(sb, rk, key, nk) && Expands(sb, rk', key, nk) && n <= 4 * (nk + 7)
    ensures rk[..n] == rk'[..n]
  {
    hide Temp;
    hide KeyWord;
    hide Xor;
    if n > 0 {
      ExpansionUnique(sb, rk, rk', key, nk, n - 1);
      var i := n - 1;
      if i < nk {
        assert rk[i] == rk'[i];
      } else {
        assert Follows(sb, rk, i, nk) && Follows(sb, rk', i, nk);
        assert rk[i - nk] == rk[..i][i - nk] && rk[i - 1] == rk[..i][i - 1];
        assert rk'[i - nk] == rk'[..i][i - nk] && rk'[i - 1] == rk'[..i][i - 1];
      }
      assert rk[..n] == rk[..i] + [rk[i]] && rk'[..n] == rk'[..i] + [rk'[i]];
    }
  }

  // The round keys as states.
  function RoundKeys(rk: seq<bv32>, nr: nat): (keys: seq<Quad>)
    requires |rk| >= 4 * (nr + 1)
    ensures |keys| == nr + 1
  {
    seq(nr + 1, i requires 0 <= i <= nr => Quad(rk[4 * i], rk[4 * i + 1], rk[4 * i + 2], rk[4 * i + 3]))
  }
}
