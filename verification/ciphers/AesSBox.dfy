// The S-boxes of misc/mbedtls/library/aes.c (FSb and RSb of a build with ROM
// tables) and the block cipher they give to the modes of operation.
module AesSBox {
  import opened Words
  import opened SBoxes
  import opened AesTables
  import opened Blocks
  import Aes

  function Rom(): Tables {
    Tables((i: bv8) => Sb1(i), (i: bv8) => Is1(i))
  }

  lemma {:induction false} RomInverse()
    ensures Rom().Inverse()
  {
    hide Sb1;
    hide Is1;
    forall x: bv8 ensures Is1(Sb1(x)) == x {
      Is1Sb1(x);
    }
    forall x: bv8 ensures Sb1(Is1(x)) == x {
      Is1Sb1(x);
    }
  }

  // ---- AES as a block cipher for the modes of operation

  function AesCipher(sb: Tables, keys: seq<Quad>): Cipher
    requires |keys| >= 2
  {
    Cipher((b: Block) => Aes.Encrypted(sb, keys, b), (b: Block) => Aes.Decrypted(sb, Aes.DecryptionKeys(sb, keys), b))
  }

  lemma {:induction false} AesCipherInverse(sb: Tables, keys: seq<Quad>)
    requires |keys| >= 2 && sb.Inverse()
    ensures AesCipher(sb, keys).Inverse()
  {
    hide Aes.Encrypted;
    hide Aes.Decrypted;
    hide Aes.DecryptionKeys;
    hide Tables.Inverse;
    var c := AesCipher(sb, keys);
    forall b: Block ensures c.dec(c.enc(b)) == b {
      Aes.DecryptUndoesEncrypt(sb, keys, b);
    }
  }
}
