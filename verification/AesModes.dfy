/** The modes of operation on AES itself. */
module AesModes {
  import opened Bytes
  import opened BlockCipher
  import Aes
  import AesSpec
  import Cbc
  import Xts

  /** AES under one expanded key: s and r are the substitution tables, w the encryption schedule. */
  function AesCipher(s: seq<byte>, r: seq<byte>, w: seq<AesSpec.State>): Cipher
    requires AesSpec.IsTable(s) && AesSpec.IsTable(r) && |w| >= 2
  {
    Cipher((b: Block) => Aes.EncryptBlock(s, w, b), (b: Block) => Aes.DecryptBlock(r, AesSpec.DecryptionKeys(w), b))
  }

  /** AES is an invertible block cipher, so every theorem about the modes holds of it. */
  lemma AesInvertible(s: seq<byte>, r: seq<byte>, w: seq<AesSpec.State>)
    requires AesSpec.Undoes(r, s) && |w| >= 2
    ensures Invertible(AesCipher(s, r, w))
  {
    hide Aes.EncryptBlock, Aes.DecryptBlock, AesSpec.DecryptionKeys;
    forall b: Block
      ensures AesCipher(s, r, w).dec(AesCipher(s, r, w).enc(b)) == b
    {
      Aes.BlockRoundTrip(r, s, w, b);
    }
  }

  lemma AesCbcRoundTrip(s: seq<byte>, r: seq<byte>, w: seq<AesSpec.State>, iv: Block, p: seq<byte>)
    requires AesSpec.Undoes(r, s) && |w| >= 2 && |p| % 16 == 0
    ensures Cbc.Decrypt(AesCipher(s, r, w), iv, Cbc.Encrypt(AesCipher(s, r, w), iv, p)) == p
  {
    hide AesCipher, Cbc.Encrypt, Cbc.Decrypt, Invertible;
    AesInvertible(s, r, w);
    Cbc.RoundTrip(AesCipher(s, r, w), iv, p);
  }

  lemma AesXtsRoundTrip(s: seq<byte>, r: seq<byte>, w: seq<AesSpec.State>, t: Block, p: seq<byte>)
    requires AesSpec.Undoes(r, s) && |w| >= 2 && |p| >= 16
    ensures Xts.Decrypt(AesCipher(s, r, w), t, Xts.Encrypt(AesCipher(s, r, w), t, p)) == p
  {
    hide AesCipher, Xts.Encrypt, Xts.Decrypt, Invertible;
    AesInvertible(s, r, w);
    Xts.RoundTrip(AesCipher(s, r, w), t, p);
  }
}
