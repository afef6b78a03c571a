// A test vector of misc/mbedtls/library/aes.c: what AES with a key of 128 bits
// computes is checked against the first block of the first CFB128 vector, from
// the key to the ciphertext.
module AesVector {
  import opened Words
  import opened Spn
  import opened AesSBox
  import opened Aes
  import opened Blocks
  import AesCode
  import Cfb

  const KEY: seq<bv8> := [0x2b, 0x7e, 0x15, 0x16, 0x28, 0xae, 0xd2, 0xa6, 0xab, 0xf7, 0x15, 0x88, 0x09, 0xcf, 0x4f, 0x3c]
  const IV: seq<bv8> := [0x00, 0x01, 0x02, 0x03, 0x04, 0x05, 0x06, 0x07, 0x08, 0x09, 0x0a, 0x0b, 0x0c, 0x0d, 0x0e, 0x0f]
  const PLAIN: seq<bv8> := [0x6b, 0xc1, 0xbe, 0xe2, 0x2e, 0x40, 0x9f, 0x96, 0xe9, 0x3d, 0x7e, 0x11, 0x73, 0x93, 0x17, 0x2a]
  const CIPHER: seq<bv8> := [0x3b, 0x3f, 0xd9, 0x2e, 0xb7, 0x2d, 0xad, 0x20, 0x33, 0x34, 0x49, 0xf8, 0xe8, 0x3c, 0xfb, 0x4a]

  // ---- the key schedule

  lemma {:induction false} KeyQuad()
    ensures |KEY| == 16 && Quad(KeyWord(KEY, 0), KeyWord(KEY, 1), KeyWord(KEY, 2), KeyWord(KEY, 3)) == Quad(0x16157e2b, 0xa6d2ae28, 0x8815f7ab, 0x3c4fcf09)
  {
  }

  // Round key r from round key r - 1; t is what its first word gets added.
  lemma {:induction false} NextKey(rk: seq<bv32>, r: nat, k: Quad, t: bv32, n: Quad)
    requires Expands(Rom(), rk, KEY, 4) && 0 < r <= 10 && RoundKeys(rk, 10)[r - 1] == k
    requires t == Xor(SubWord(Rom(), RotWord(k.d)), Join(Rcon(r - 1), 0, 0, 0))
    requires n.a == Xor(k.a, t) && n.b == Xor(k.b, n.a) && n.c == Xor(k.c, n.b) && n.d == Xor(k.d, n.c)
    ensures RoundKeys(rk, 10)[r] == n
  {
    hide SubWord;
    hide RotWord;
    hide Rcon;
    hide Join;
    hide Xor;
    hide Expands;
    FirstOf(rk, r);
    OtherOf(rk, r, 1);
    OtherOf(rk, r, 2);
    OtherOf(rk, r, 3);
  }

  lemma {:induction false} FirstOf(rk: seq<bv32>, r: nat)
    requires Expands(Rom(), rk, KEY, 4) && 0 < r <= 10
    ensures |rk| >= 44 && rk[4 * r] == Xor(rk[4 * r - 4], Xor(SubWord(Rom(), RotWord(rk[4 * r - 1])), Join(Rcon(r - 1), 0, 0, 0)))
  {
    hide SubWord;
    hide RotWord;
    hide Rcon;
    hide Join;
    hide Xor;
    hide KeyWord;
    assert 4 * r % 4 == 0 && 4 * r / 4 == r;
    assert Follows(Rom(), rk, 4 * r, 4);
  }

  lemma {:induction false} OtherOf(rk: seq<bv32>, r: nat, j: nat)
    requires Expands(Rom(), rk, KEY, 4) && 0 < r <= 10 && 0 < j < 4
    ensures |rk| >= 44 && rk[4 * r + j] == Xor(rk[4 * r + j - 4], rk[4 * r + j - 1])
  {
    hide SubWord;
    hide RotWord;
    hide Rcon;
    hide Join;
    hide Xor;
    hide KeyWord;
    assert (4 * r + j) % 4 == j;
    assert Follows(Rom(), rk, 4 * r + j, 4);
  }

  lemma {:induction false} FirstKey(rk: seq<bv32>)
    requires Expands(Rom(), rk, KEY, 4)
    ensures RoundKeys(rk, 10)[0] == Quad(0x16157e2b, 0xa6d2ae28, 0x8815f7ab, 0x3c4fcf09)
  {
    hide KeyWord;
    hide Follows;
    KeyQuad();
  }

  lemma {:induction false} Key1(rk: seq<bv32>)
    requires Expands(Rom(), rk, KEY, 4) && RoundKeys(rk, 10)[0] == Quad(0x16157e2b, 0xa6d2ae28, 0x8815f7ab, 0x3c4fcf09)
    ensures RoundKeys(rk, 10)[1] == Quad(0x17fefaa0, 0xb12c5488, 0x3939a323, 0x05766c2a)
  {
    hide Expands;
    hide RoundKeys;
    NextKey(rk, 1, Quad(0x16157e2b, 0xa6d2ae28, 0x8815f7ab, 0x3c4fcf09), 0x01eb848b, Quad(0x17fefaa0, 0xb12c5488, 0x3939a323, 0x05766c2a));
  }

  lemma {:induction false} Key2(rk: seq<bv32>)
    requires Expands(Rom(), rk, KEY, 4) && RoundKeys(rk, 10)[1] == Quad(0x17fefaa0, 0xb12c5488, 0x3939a323, 0x05766c2a)
    ensures RoundKeys(rk, 10)[2] == Quad(0xf295c2f2, 0x43b9967a, 0x7a803559, 0x7ff65973)
  {
    hide Expands;
    hide RoundKeys;
    NextKey(rk, 2, Quad(0x17fefaa0, 0xb12c5488, 0x3939a323, 0x05766c2a), 0xe56b3852, Quad(0xf295c2f2, 0x43b9967a, 0x7a803559, 0x7ff65973));
  }

  lemma {:induction false} Key3(rk: seq<bv32>)
    requires Expands(Rom(), rk, KEY, 4) && RoundKeys(rk, 10)[2] == Quad(0xf295c2f2, 0x43b9967a, 0x7a803559, 0x7ff65973)
    ensures RoundKeys(rk, 10)[3] == Quad(0x7d47803d, 0x3efe1647, 0x447e231e, 0x3b887a6d)
  {
    hide Expands;
    hide RoundKeys;
    NextKey(rk, 3, Quad(0xf295c2f2, 0x43b9967a, 0x7a803559, 0x7ff65973), 0x8fd242cf, Quad(0x7d47803d, 0x3efe1647, 0x447e231e, 0x3b887a6d));
  }

  lemma {:induction false} Key4(rk: seq<bv32>)
    requires Expands(Rom(), rk, KEY, 4) && RoundKeys(rk, 10)[3] == Quad(0x7d47803d, 0x3efe1647, 0x447e231e, 0x3b887a6d)
    ensures RoundKeys(rk, 10)[4] == Quad(0x41a544ef, 0x7f5b52a8, 0x3b2571b6, 0x00ad0bdb)
  {
    hide Expands;
    hide RoundKeys;
    NextKey(rk, 4, Quad(0x7d47803d, 0x3efe1647, 0x447e231e, 0x3b887a6d), 0x3ce2c4d2, Quad(0x41a544ef, 0x7f5b52a8, 0x3b2571b6, 0x00ad0bdb));
  }

  lemma {:induction false} Key5(rk: seq<bv32>)
    requires Expands(Rom(), rk, KEY, 4) && RoundKeys(rk, 10)[4] == Quad(0x41a544ef, 0x7f5b52a8, 0x3b2571b6, 0x00ad0bdb)
    ensures RoundKeys(rk, 10)[5] == Quad(0xf8c6d1d4, 0x879d837c, 0xbcb8f2ca, 0xbc15f911)
  {
    hide Expands;
    hide RoundKeys;
    NextKey(rk, 5, Quad(0x41a544ef, 0x7f5b52a8, 0x3b2571b6, 0x00ad0bdb), 0xb963953b, Quad(0xf8c6d1d4, 0x879d837c, 0xbcb8f2ca, 0xbc15f911));
  }

  lemma {:induction false} Key6(rk: seq<bv32>)
    requires Expands(Rom(), rk, KEY, 4) && RoundKeys(rk, 10)[5] == Quad(0xf8c6d1d4, 0x879d837c, 0xbcb8f2ca, 0xbc15f911)
    ensures RoundKeys(rk, 10)[6] == Quad(0x7aa3886d, 0xfd3e0b11, 0x4186f9db, 0xfd9300ca)
  {
    hide Expands;
    hide RoundKeys;
    NextKey(rk, 6, Quad(0xf8c6d1d4, 0x879d837c, 0xbcb8f2ca, 0xbc15f911), 0x826559b9, Quad(0x7aa3886d, 0xfd3e0b11, 0x4186f9db, 0xfd9300ca));
  }

  lemma {:induction false} Key7(rk: seq<bv32>)
    requires Expands(Rom(), rk, KEY, 4) && RoundKeys(rk, 10)[6] == Quad(0x7aa3886d, 0xfd3e0b11, 0x4186f9db, 0xfd9300ca)
    ensures RoundKeys(rk, 10)[7] == Quad(0x0ef7544e, 0xf3c95f5f, 0xb24fa684, 0x4fdca64e)
  {
    hide Expands;
    hide RoundKeys;
    NextKey(rk, 7, Quad(0x7aa3886d, 0xfd3e0b11, 0x4186f9db, 0xfd9300ca), 0x7454dc23, Quad(0x0ef7544e, 0xf3c95f5f, 0xb24fa684, 0x4fdca64e));
  }

  lemma {:induction false} Key8(rk: seq<bv32>)
    requires Expands(Rom(), rk, KEY, 4) && RoundKeys(rk, 10)[7] == Quad(0x0ef7544e, 0xf3c95f5f, 0xb24fa684, 0x4fdca64e)
    ensures RoundKeys(rk, 10)[8] == Quad(0x2173d2ea, 0xd2ba8db5, 0x60f52b31, 0x2f298d7f)
  {
    hide Expands;
    hide RoundKeys;
    NextKey(rk, 8, Quad(0x0ef7544e, 0xf3c95f5f, 0xb24fa684, 0x4fdca64e), 0x2f8486a4, Quad(0x2173d2ea, 0xd2ba8db5, 0x60f52b31, 0x2f298d7f));
  }

  lemma {:induction false} Key9(rk: seq<bv32>)
    requires Expands(Rom(), rk, KEY, 4) && RoundKeys(rk, 10)[8] == Quad(0x2173d2ea, 0xd2ba8db5, 0x60f52b31, 0x2f298d7f)
    ensures RoundKeys(rk, 10)[9] == Quad(0xf36677ac, 0x21dcfa19, 0x4129d128, 0x6e005c57)
  {
    hide Expands;
    hide RoundKeys;
    NextKey(rk, 9, Quad(0x2173d2ea, 0xd2ba8db5, 0x60f52b31, 0x2f298d7f), 0xd215a546, Quad(0xf36677ac, 0x21dcfa19, 0x4129d128, 0x6e005c57));
  }

  lemma {:induction false} Key10(rk: seq<bv32>)
    requires Expands(Rom(), rk, KEY, 4) && RoundKeys(rk, 10)[9] == Quad(0xf36677ac, 0x21dcfa19, 0x4129d128, 0x6e005c57)
    ensures RoundKeys(rk, 10)[10] == Quad(0xa8f914d0, 0x8925eec9, 0xc80c3fe1, 0xa60c63b6)
  {
    hide Expands;
    hide RoundKeys;
    NextKey(rk, 10, Quad(0xf36677ac, 0x21dcfa19, 0x4129d128, 0x6e005c57), 0x5b9f637c, Quad(0xa8f914d0, 0x8925eec9, 0xc80c3fe1, 0xa60c63b6));
  }

  // ---- the rounds

  // The state after round i.
  predicate At(keys: seq<Quad>, x: Quad, i: nat, q: Quad)
    requires i < |keys|
  {
    Rounds(EncLayers(Rom()), keys, i, x) == q
  }

  lemma {:induction false} NextState(keys: seq<Quad>, x: Quad, i: nat, q: Quad, s: Quad, m: Quad, k: Quad, r: Quad)
    requires 0 < i < |keys| && At(keys, x, i - 1, q) && keys[i] == k
    requires ShiftRows(SubBytes(Rom(), q)) == s && MixColumns(s) == m && XorQuad(m, k) == r
    ensures At(keys, x, i, r)
  {
    hide MixColumns;
    hide ShiftRows;
    hide SubBytes;
    hide XorQuad;
    hide Rounds;
    hide EncLayers;
    AesCode.EncRound(Rom(), keys, i, x);
  }

  lemma {:induction false} State1(keys: seq<Quad>, x: Quad, i: nat)
    requires 0 < i < |keys| && At(keys, x, i - 1, Quad(0x15177f2b, 0xa1d4ab2c, 0x831ffea3, 0x3341c205)) && keys[i] == Quad(0x17fefaa0, 0xb12c5488, 0x3939a323, 0x05766c2a)
    ensures At(keys, x, i, Quad(0x20a857fc, 0xa8108f66, 0x96bbda9a, 0xe1708c35))
  {
    hide *;
    Substituted1();
    Mixed1();
    Added1();
    NextState(keys, x, i, Quad(0x15177f2b, 0xa1d4ab2c, 0x831ffea3, 0x3341c205), Quad(0xc3c062f1, 0x5983bb71, 0x32f0250a, 0xec48d26b), Quad(0x3756ad5c, 0x193cdbee, 0xaf8279b9, 0xe406e01f), Quad(0x17fefaa0, 0xb12c5488, 0x3939a323, 0x05766c2a), Quad(0x20a857fc, 0xa8108f66, 0x96bbda9a, 0xe1708c35));
  }

  lemma {:induction false} Substituted1()
    ensures ShiftRows(SubBytes(Rom(), Quad(0x15177f2b, 0xa1d4ab2c, 0x831ffea3, 0x3341c205))) == Quad(0xc3c062f1, 0x5983bb71, 0x32f0250a, 0xec48d26b)
  {
  }

  lemma {:induction false} Mixed1()
    ensures MixColumns(Quad(0xc3c062f1, 0x5983bb71, 0x32f0250a, 0xec48d26b)) == Quad(0x3756ad5c, 0x193cdbee, 0xaf8279b9, 0xe406e01f)
  {
  }

  lemma {:induction false} Added1()
    ensures XorQuad(Quad(0x3756ad5c, 0x193cdbee, 0xaf8279b9, 0xe406e01f), Quad(0x17fefaa0, 0xb12c5488, 0x3939a323, 0x05766c2a)) == Quad(0x20a857fc, 0xa8108f66, 0x96bbda9a, 0xe1708c35)
  {
  }

  lemma {:induction false} State2(keys: seq<Quad>, x: Quad, i: nat)
    requires 0 < i < |keys| && At(keys, x, i - 1, Quad(0x20a857fc, 0xa8108f66, 0x96bbda9a, 0xe1708c35)) && keys[i] == Quad(0xf295c2f2, 0x43b9967a, 0x7a803559, 0x7ff65973)
    ensures At(keys, x, i, Quad(0x4b8a490e, 0x65bd4f03, 0x909eda9e, 0x741facf3))
  {
    hide *;
    Substituted2();
    Mixed2();
    Added2();
    NextState(keys, x, i, Quad(0x20a857fc, 0xa8108f66, 0x96bbda9a, 0xe1708c35), Quad(0xf8ea73b0, 0xb7515733, 0xc2c264b8, 0x90ca5b96), Quad(0xb91f8bfc, 0x2604d979, 0xea1eefc7, 0x0be9f580), Quad(0xf295c2f2, 0x43b9967a, 0x7a803559, 0x7ff65973), Quad(0x4b8a490e, 0x65bd4f03, 0x909eda9e, 0x741facf3));
  }

  lemma {:induction false} Substituted2()
    ensures ShiftRows(SubBytes(Rom(), Quad(0x20a857fc, 0xa8108f66, 0x96bbda9a, 0xe1708c35))) == Quad(0xf8ea73b0, 0xb7515733, 0xc2c264b8, 0x90ca5b96)
  {
  }

  lemma {:induction false} Mixed2()
    ensures MixColumns(Quad(0xf8ea73b0, 0xb7515733, 0xc2c264b8, 0x90ca5b96)) == Quad(0xb91f8bfc, 0x2604d979, 0xea1eefc7, 0x0be9f580)
  {
  }

  lemma {:induction false} Added2()
    ensures XorQuad(Quad(0xb91f8bfc, 0x2604d979, 0xea1eefc7, 0x0be9f580), Quad(0xf295c2f2, 0x43b9967a, 0x7a803559, 0x7ff65973)) == Quad(0x4b8a490e, 0x65bd4f03, 0x909eda9e, 0x741facf3)
  {
  }

  lemma {:induction false} State3(keys: seq<Quad>, x: Quad, i: nat)
    requires 0 < i < |keys| && At(keys, x, i - 1, Quad(0x4b8a490e, 0x65bd4f03, 0x909eda9e, 0x741facf3)) && keys[i] == Quad(0x7d47803d, 0x3efe1647, 0x447e231e, 0x3b887a6d)
    ensures At(keys, x, i, Quad(0x2bd3b77e, 0x59872b3b, 0x2ccfde93, 0xadeaef20))
  {
    hide *;
    Substituted3();
    Mixed3();
    Added3();
    NextState(keys, x, i, Quad(0x4b8a490e, 0x65bd4f03, 0x909eda9e, 0x741facf3), Quad(0x920b84ab, 0xb3c0577b, 0x4d7e910b, 0x607a3b0d), Quad(0x56943743, 0x67793d7c, 0x68b1fd8d, 0x9662954d), Quad(0x7d47803d, 0x3efe1647, 0x447e231e, 0x3b887a6d), Quad(0x2bd3b77e, 0x59872b3b, 0x2ccfde93, 0xadeaef20));
  }

  lemma {:induction false} Substituted3()
    ensures ShiftRows(SubBytes(Rom(), Quad(0x4b8a490e, 0x65bd4f03, 0x909eda9e, 0x741facf3))) == Quad(0x920b84ab, 0xb3c0577b, 0x4d7e910b, 0x607a3b0d)
  {
  }

  lemma {:induction false} Mixed3()
    ensures MixColumns(Quad(0x920b84ab, 0xb3c0577b, 0x4d7e910b, 0x607a3b0d)) == Quad(0x56943743, 0x67793d7c, 0x68b1fd8d, 0x9662954d)
  {
  }

  lemma {:induction false} Added3()
    ensures XorQuad(Quad(0x56943743, 0x67793d7c, 0x68b1fd8d, 0x9662954d), Quad(0x7d47803d, 0x3efe1647, 0x447e231e, 0x3b887a6d)) == Quad(0x2bd3b77e, 0x59872b3b, 0x2ccfde93, 0xadeaef20)
  {
  }

  lemma {:induction false} State4(keys: seq<Quad>, x: Quad, i: nat)
    requires 0 < i < |keys| && At(keys, x, i - 1, Quad(0x2bd3b77e, 0x59872b3b, 0x2ccfde93, 0xadeaef20)) && keys[i] == Quad(0x41a544ef, 0x7f5b52a8, 0x3b2571b6, 0x00ad0bdb)
    ensures At(keys, x, i, Quad(0x050c5e05, 0x21b9e926, 0x70ac69c2, 0x9e0ebd28))
  {
    hide *;
    Substituted4();
    Mixed4();
    Added4();
    NextState(keys, x, i, Quad(0x2bd3b77e, 0x59872b3b, 0x2ccfde93, 0xadeaef20), Quad(0x958af1f3, 0xf1871de2, 0xcb66dfdc, 0x7117a9b7), Quad(0x44a91aea, 0x5ee2bb8e, 0x4b891874, 0x9ea3b6f3), Quad(0x41a544ef, 0x7f5b52a8, 0x3b2571b6, 0x00ad0bdb), Quad(0x050c5e05, 0x21b9e926, 0x70ac69c2, 0x9e0ebd28));
  }

  lemma {:induction false} Substituted4()
    ensures ShiftRows(SubBytes(Rom(), Quad(0x2bd3b77e, 0x59872b3b, 0x2ccfde93, 0xadeaef20))) == Quad(0x958af1f3, 0xf1871de2, 0xcb66dfdc, 0x7117a9b7)
  {
  }

  lemma {:induction false} Mixed4()
    ensures MixColumns(Quad(0x958af1f3, 0xf1871de2, 0xcb66dfdc, 0x7117a9b7)) == Quad(0x44a91aea, 0x5ee2bb8e, 0x4b891874, 0x9ea3b6f3)
  {
  }

  lemma {:induction false} Added4()
    ensures XorQuad(Quad(0x44a91aea, 0x5ee2bb8e, 0x4b891874, 0x9ea3b6f3), Quad(0x41a544ef, 0x7f5b52a8, 0x3b2571b6, 0x00ad0bdb)) == Quad(0x050c5e05, 0x21b9e926, 0x70ac69c2, 0x9e0ebd28)
  {
  }

  lemma {:induction false} State5(keys: seq<Quad>, x: Quad, i: nat)
    requires 0 < i < |keys| && At(keys, x, i - 1, Quad(0x050c5e05, 0x21b9e926, 0x70ac69c2, 0x9e0ebd28)) && keys[i] == Quad(0xf8c6d1d4, 0x879d837c, 0xbcb8f2ca, 0xbc15f911)
    ensures At(keys, x, i, Quad(0xdc9725ba, 0x01631059, 0xb61cc70d, 0x4c26d696))
  {
    hide *;
    Substituted5();
    Mixed5();
    Added5();
    NextState(keys, x, i, Quad(0x050c5e05, 0x21b9e926, 0x70ac69c2, 0x9e0ebd28), Quad(0x0b911e6b, 0x6babf9f7, 0xfdfe7a25, 0x51565834), Quad(0x2451f46e, 0x86fe9325, 0x0aa435c7, 0xf0332f87), Quad(0xf8c6d1d4, 0x879d837c, 0xbcb8f2ca, 0xbc15f911), Quad(0xdc9725ba, 0x01631059, 0xb61cc70d, 0x4c26d696));
  }

  lemma {:induction false} Substituted5()
    ensures ShiftRows(SubBytes(Rom(), Quad(0x050c5e05, 0x21b9e926, 0x70ac69c2, 0x9e0ebd28))) == Quad(0x0b911e6b, 0x6babf9f7, 0xfdfe7a25, 0x51565834)
  {
  }

  lemma {:induction false} Mixed5()
    ensures MixColumns(Quad(0x0b911e6b, 0x6babf9f7, 0xfdfe7a25, 0x51565834)) == Quad(0x2451f46e, 0x86fe9325, 0x0aa435c7, 0xf0332f87)
  {
  }

  lemma {:induction false} Added5()
    ensures XorQuad(Quad(0x2451f46e, 0x86fe9325, 0x0aa435c7, 0xf0332f87), Quad(0xf8c6d1d4, 0x879d837c, 0xbcb8f2ca, 0xbc15f911)) == Quad(0xdc9725ba, 0x01631059, 0xb61cc70d, 0x4c26d696)
  {
  }

  lemma {:induction false} State6(keys: seq<Quad>, x: Quad, i: nat)
    requires 0 < i < |keys| && At(keys, x, i - 1, Quad(0xdc9725ba, 0x01631059, 0xb61cc70d, 0x4c26d696)) && keys[i] == Quad(0x7aa3886d, 0xfd3e0b11, 0x4186f9db, 0xfd9300ca)
    ensures At(keys, x, i, Quad(0x79c5656e, 0x9d57d3bc, 0xa528269b, 0x0e03b605))
  {
    hide *;
    Substituted6();
    Mixed6();
    Added6();
    NextState(keys, x, i, Quad(0xdc9725ba, 0x01631059, 0xb61cc70d, 0x4c26d696), Quad(0x299ccaf4, 0x86f7c6cb, 0x7c88f6d7, 0x4efb3f90), Quad(0x0366ed03, 0x6069d8ad, 0xe4aedf40, 0xf390b6cf), Quad(0x7aa3886d, 0xfd3e0b11, 0x4186f9db, 0xfd9300ca), Quad(0x79c5656e, 0x9d57d3bc, 0xa528269b, 0x0e03b605));
  }

  lemma {:induction false} Substituted6()
    ensures ShiftRows(SubBytes(Rom(), Quad(0xdc9725ba, 0x01631059, 0xb61cc70d, 0x4c26d696))) == Quad(0x299ccaf4, 0x86f7c6cb, 0x7c88f6d7, 0x4efb3f90)
  {
  }

  lemma {:induction false} Mixed6()
    ensures MixColumns(Quad(0x299ccaf4, 0x86f7c6cb, 0x7c88f6d7, 0x4efb3f90)) == Quad(0x0366ed03, 0x6069d8ad, 0xe4aedf40, 0xf390b6cf)
  {
  }

  lemma {:induction false} Added6()
    ensures XorQuad(Quad(0x0366ed03, 0x6069d8ad, 0xe4aedf40, 0xf390b6cf), Quad(0x7aa3886d, 0xfd3e0b11, 0x4186f9db, 0xfd9300ca)) == Quad(0x79c5656e, 0x9d57d3bc, 0xa528269b, 0x0e03b605)
  {
  }

  lemma {:induction false} State7(keys: seq<Quad>, x: Quad, i: nat)
    requires 0 < i < |keys| && At(keys, x, i - 1, Quad(0x79c5656e, 0x9d57d3bc, 0xa528269b, 0x0e03b605)) && keys[i] == Quad(0x0ef7544e, 0xf3c95f5f, 0xb24fa684, 0x4fdca64e)
    ensures At(keys, x, i, Quad(0xab80f05e, 0xa76cf45a, 0xdaa08186, 0xe846bc12))
  {
    hide *;
    Substituted7();
    Mixed7();
    Added7();
    NextState(keys, x, i, Quad(0x79c5656e, 0x9d57d3bc, 0xa528269b, 0x0e03b605), Quad(0xab34669f, 0xb67bf765, 0x5ea64e14, 0x065b4d6b), Quad(0xa577a410, 0x54a5ab05, 0x68ef2702, 0xa79a1a5c), Quad(0x0ef7544e, 0xf3c95f5f, 0xb24fa684, 0x4fdca64e), Quad(0xab80f05e, 0xa76cf45a, 0xdaa08186, 0xe846bc12));
  }

  lemma {:induction false} Substituted7()
    ensures ShiftRows(SubBytes(Rom(), Quad(0x79c5656e, 0x9d57d3bc, 0xa528269b, 0x0e03b605))) == Quad(0xab34669f, 0xb67bf765, 0x5ea64e14, 0x065b4d6b)
  {
  }

  lemma {:induction false} Mixed7()
    ensures MixColumns(Quad(0xab34669f, 0xb67bf765, 0x5ea64e14, 0x065b4d6b)) == Quad(0xa577a410, 0x54a5ab05, 0x68ef2702, 0xa79a1a5c)
  {
  }

  lemma {:induction false} Added7()
    ensures XorQuad(Quad(0xa577a410, 0x54a5ab05, 0x68ef2702, 0xa79a1a5c), Quad(0x0ef7544e, 0xf3c95f5f, 0xb24fa684, 0x4fdca64e)) == Quad(0xab80f05e, 0xa76cf45a, 0xdaa08186, 0xe846bc12)
  {
  }

  lemma {:induction false} State8(keys: seq<Quad>, x: Quad, i: nat)
    requires 0 < i < |keys| && At(keys, x, i - 1, Quad(0xab80f05e, 0xa76cf45a, 0xdaa08186, 0xe846bc12)) && keys[i] == Quad(0x2173d2ea, 0xd2ba8db5, 0x60f52b31, 0x2f298d7f)
    ensures At(keys, x, i, Quad(0xbbf94ffb, 0x991aa7fe, 0xbcb1b587, 0x1d35e07e))
  {
    hide *;
    Substituted8();
    Mixed8();
    Added8();
    NextState(keys, x, i, Quad(0xab80f05e, 0xa76cf45a, 0xdaa08186, 0xe846bc12), Quad(0x9be0bf58, 0x625a0cbe, 0x5ccd6544, 0x57508cc9), Quad(0x9a8a9d11, 0x4ba02a4b, 0xdc449eb6, 0x321c6d01), Quad(0x2173d2ea, 0xd2ba8db5, 0x60f52b31, 0x2f298d7f), Quad(0xbbf94ffb, 0x991aa7fe, 0xbcb1b587, 0x1d35e07e));
  }

  lemma {:induction false} Substituted8()
    ensures ShiftRows(SubBytes(Rom(), Quad(0xab80f05e, 0xa76cf45a, 0xdaa08186, 0xe846bc12))) == Quad(0x9be0bf58, 0x625a0cbe, 0x5ccd6544, 0x57508cc9)
  {
  }

  lemma {:induction false} Mixed8()
    ensures MixColumns(Quad(0x9be0bf58, 0x625a0cbe, 0x5ccd6544, 0x57508cc9)) == Quad(0x9a8a9d11, 0x4ba02a4b, 0xdc449eb6, 0x321c6d01)
  {
  }

  lemma {:induction false} Added8()
    ensures XorQuad(Quad(0x9a8a9d11, 0x4ba02a4b, 0xdc449eb6, 0x321c6d01), Quad(0x2173d2ea, 0xd2ba8db5, 0x60f52b31, 0x2f298d7f)) == Quad(0xbbf94ffb, 0x991aa7fe, 0xbcb1b587, 0x1d35e07e)
  {
  }

  lemma {:induction false} State9(keys: seq<Quad>, x: Quad, i: nat)
    requires 0 < i < |keys| && At(keys, x, i - 1, Quad(0xbbf94ffb, 0x991aa7fe, 0xbcb1b587, 0x1d35e07e)) && keys[i] == Quad(0xf36677ac, 0x21dcfa19, 0x4129d128, 0x6e005c57)
    ensures At(keys, x, i, Quad(0x2549273a, 0x7ba0bb6c, 0xc7df4149, 0x8c8724fa))
  {
    hide *;
    Substituted9();
    Mixed9();
    Added9();
    NextState(keys, x, i, Quad(0xbbf94ffb, 0x991aa7fe, 0xbcb1b587, 0x1d35e07e), Quad(0xa4c85c0f, 0xea96d5bb, 0xee99e117, 0x65a284f3), Quad(0xd62f5096, 0x5a7c4175, 0x86f69061, 0xe28778ad), Quad(0xf36677ac, 0x21dcfa19, 0x4129d128, 0x6e005c57), Quad(0x2549273a, 0x7ba0bb6c, 0xc7df4149, 0x8c8724fa));
  }

  lemma {:induction false} Substituted9()
    ensures ShiftRows(SubBytes(Rom(), Quad(0xbbf94ffb, 0x991aa7fe, 0xbcb1b587, 0x1d35e07e))) == Quad(0xa4c85c0f, 0xea96d5bb, 0xee99e117, 0x65a284f3)
  {
  }

  lemma {:induction false} Mixed9()
    ensures MixColumns(Quad(0xa4c85c0f, 0xea96d5bb, 0xee99e117, 0x65a284f3)) == Quad(0xd62f5096, 0x5a7c4175, 0x86f69061, 0xe28778ad)
  {
  }

  lemma {:induction false} Added9()
    ensures XorQuad(Quad(0xd62f5096, 0x5a7c4175, 0x86f69061, 0xe28778ad), Quad(0xf36677ac, 0x21dcfa19, 0x4129d128, 0x6e005c57)) == Quad(0x2549273a, 0x7ba0bb6c, 0xc7df4149, 0x8c8724fa)
  {
  }

  lemma {:induction false} LastState(keys: seq<Quad>, x: Quad, n: nat)
    requires |keys| == n + 2 && At(keys, x, n, Quad(0x2549273a, 0x7ba0bb6c, 0xc7df4149, 0x8c8724fa)) && keys[n + 1] == Quad(0xa8f914d0, 0x8925eec9, 0xc80c3fe1, 0xa60c63b6)
    ensures Run(EncLayers(Rom()), keys, x) == Quad(0xcc67fe50, 0xb6326d99, 0xe93709da, 0x60ecaf9b)
  {
    hide *;
    LastSubstituted();
    LastAdded();
    Finish(keys, x, n, Quad(0x2549273a, 0x7ba0bb6c, 0xc7df4149, 0x8c8724fa));
  }

  lemma {:induction false} Finish(keys: seq<Quad>, x: Quad, n: nat, q: Quad)
    requires |keys| == n + 2 && At(keys, x, n, q)
    ensures Run(EncLayers(Rom()), keys, x) == XorQuad(ShiftRows(SubBytes(Rom(), q)), keys[n + 1])
  {
    hide ShiftRows;
    hide SubBytes;
    hide XorQuad;
    hide Rounds;
    hide Run;
    hide EncLayers;
    AesCode.RunIs(Rom(), keys, x);
  }

  lemma {:induction false} LastSubstituted()
    ensures ShiftRows(SubBytes(Rom(), Quad(0x2549273a, 0x7ba0bb6c, 0xc7df4149, 0x8c8724fa))) == Quad(0x649eea80, 0x3f178350, 0x213b363b, 0xc6e0cc2d)
  {
  }

  lemma {:induction false} LastAdded()
    ensures XorQuad(Quad(0x649eea80, 0x3f178350, 0x213b363b, 0xc6e0cc2d), Quad(0xa8f914d0, 0x8925eec9, 0xc80c3fe1, 0xa60c63b6)) == Quad(0xcc67fe50, 0xb6326d99, 0xe93709da, 0x60ecaf9b)
  {
  }

  lemma {:induction false} FirstState(keys: seq<Quad>)
    requires |keys| == 11 && keys[0] == Quad(0x16157e2b, 0xa6d2ae28, 0x8815f7ab, 0x3c4fcf09)
    ensures |IV| == 16 && At(keys, GetLE(IV), 0, Quad(0x15177f2b, 0xa1d4ab2c, 0x831ffea3, 0x3341c205))
  {
    hide XorQuad;
    InputIs();
    FirstRound(EncLayers(Rom()), keys, GetLE(IV));
    FirstAdded();
  }

  lemma {:induction false} InputIs()
    ensures |IV| == 16 && GetLE(IV) == Quad(0x03020100, 0x07060504, 0x0b0a0908, 0x0f0e0d0c)
  {
  }

  lemma {:induction false} FirstAdded()
    ensures XorQuad(Quad(0x03020100, 0x07060504, 0x0b0a0908, 0x0f0e0d0c), Quad(0x16157e2b, 0xa6d2ae28, 0x8815f7ab, 0x3c4fcf09)) == Quad(0x15177f2b, 0xa1d4ab2c, 0x831ffea3, 0x3341c205)
  {
  }

  lemma {:induction false} OutputIs()
    ensures PutLE(Quad(0xcc67fe50, 0xb6326d99, 0xe93709da, 0x60ecaf9b)) == [0x50, 0xfe, 0x67, 0xcc, 0x99, 0x6d, 0x32, 0xb6, 0xda, 0x09, 0x37, 0xe9, 0x9b, 0xaf, 0xec, 0x60]
  {
  }

  // The schedule of the key and the encryption of the initial vector.
  lemma {:induction false} EncryptsVector(rk: seq<bv32>)
    requires Expands(Rom(), rk, KEY, 4)
    ensures |IV| == 16 && Encrypted(Rom(), RoundKeys(rk, 10), IV) == [0x50, 0xfe, 0x67, 0xcc, 0x99, 0x6d, 0x32, 0xb6, 0xda, 0x09, 0x37, 0xe9, 0x9b, 0xaf, 0xec, 0x60]
  {
    hide *;
    EnoughWords(rk);
    var keys := RoundKeys(rk, 10);
    FirstKey(rk);
    Key1(rk);
    Key2(rk);
    Key3(rk);
    Key4(rk);
    Key5(rk);
    Key6(rk);
    Key7(rk);
    Key8(rk);
    Key9(rk);
    Key10(rk);
    FirstState(keys);
    var x := GetLE(IV);
    State1(keys, x, 1);
    State2(keys, x, 2);
    State3(keys, x, 3);
    State4(keys, x, 4);
    State5(keys, x, 5);
    State6(keys, x, 6);
    State7(keys, x, 7);
    State8(keys, x, 8);
    State9(keys, x, 9);
    LastState(keys, x, 9);
    OutputIs();
    EncryptedIs(keys);
  }

  lemma {:induction false} EnoughWords(rk: seq<bv32>)
    requires Expands(Rom(), rk, KEY, 4)
    ensures |rk| >= 44
  {
  }

  lemma {:induction false} EncryptedIs(keys: seq<Quad>)
    requires |keys| >= 2 && |IV| == 16
    ensures Encrypted(Rom(), keys, IV) == PutLE(Run(EncLayers(Rom()), keys, GetLE(IV)))
  {
  }

  // The vector itself.
  lemma {:induction false} CfbVector(rk: seq<bv32>)
    requires Expands(Rom(), rk, KEY, 4)
    ensures |IV| == |PLAIN| == 16
    ensures Cfb.Encrypted(AesCipher(Rom(), RoundKeys(rk, 10)), Cfb.State(0, IV), PLAIN) == CIPHER
  {
    hide Encrypted;
    hide Expands;
    hide RoundKeys;
    hide XorBytes;
    hide Cfb.Encrypted;
    EnoughWords(rk);
    EncryptsVector(rk);
    assert |PLAIN| == 16;
    Cfb.WholeBlock(AesCipher(Rom(), RoundKeys(rk, 10)), IV, PLAIN);
    Masked();
  }

  lemma {:induction false} Masked()
    ensures |PLAIN| == 16 && XorBytes(PLAIN, [0x50, 0xfe, 0x67, 0xcc, 0x99, 0x6d, 0x32, 0xb6, 0xda, 0x09, 0x37, 0xe9, 0x9b, 0xaf, 0xec, 0x60]) == CIPHER
  {
    var r := XorBytes(PLAIN, [0x50, 0xfe, 0x67, 0xcc, 0x99, 0x6d, 0x32, 0xb6, 0xda, 0x09, 0x37, 0xe9, 0x9b, 0xaf, 0xec, 0x60]);
    assert r[0] == CIPHER[0] && r[1] == CIPHER[1] && r[2] == CIPHER[2] && r[3] == CIPHER[3];
    assert r[4] == CIPHER[4] && r[5] == CIPHER[5] && r[6] == CIPHER[6] && r[7] == CIPHER[7];
    assert r[8] == CIPHER[8] && r[9] == CIPHER[9] && r[10] == CIPHER[10] && r[11] == CIPHER[11];
    assert r[12] == CIPHER[12] && r[13] == CIPHER[13] && r[14] == CIPHER[14] && r[15] == CIPHER[15];
  }
}
