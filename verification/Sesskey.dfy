/** Sesskey::encrypt and Sesskey::decrypt on buffers. */
module SessionKeys {
  import opened Wrappers
  import opened Ciphers

  /** memcpy(dest + at, bytes). */
  method Copy(dest: array<Byte>, at: nat, bytes: seq<Byte>)
    requires at + |bytes| <= dest.Length
    modifies dest
    ensures dest[..] == old(dest[..at]) + bytes + old(dest[at + |bytes|..])
  {
    forall k | 0 <= k < |bytes| {
      dest[at + k] := bytes[k];
    }
  }

  class Sesskey {
    const cipher: Cipher
    const key: seq<Byte>

    constructor (cipher: Cipher, key: seq<Byte>)
      ensures this.cipher == cipher && this.key == key
    {
      this.cipher, this.key := cipher, key;
    }

    /** EVP_EncryptUpdate gives the full blocks, EVP_EncryptFinal_ex the padded last one; then
        comes the initialisation vector, None if the generator failed.  A buffer of encryptedLen
        bytes is enough and is filled exactly. */
    method Encrypt(dest: array<Byte>, src: seq<Byte>, iv: Option<seq<Byte>>) returns (length: int)
      requires Sound(cipher) && EncryptedLen(|src|) <= dest.Length && (iv.Some? ==> |iv.value| == 16)
      modifies dest
      ensures iv.None? ==> length == -1 && dest[..] == old(dest[..])
      ensures iv.Some? ==> length == EncryptedLen(|src|)
      ensures iv.Some? ==> dest[..] == Seal(cipher, key, iv.value, src) + old(dest[EncryptedLen(|src|)..])
      ensures iv.Some? ==> Seal(cipher, key, iv.value, src) == cipher.enc(key, iv.value, src) + iv.value
    {
      if iv.None? {
        return -1;
      }
      var text := cipher.enc(key, iv.value, src);
      assert |text| == PaddedLen(|src|);
      var n := |src| - |src| % 16;
      Copy(dest, 0, text[..n]);
      length := n;
      Copy(dest, n, text[n..]);
      assert dest[..|text|] == text;
      length := length + |text[n..]|;
      Copy(dest, length, iv.value);
      length := length + 16;
    }

    /** EVP_DecryptUpdate holds the last block back, EVP_DecryptFinal_ex takes its padding off and
        fails if that is wrong; by then the first blocks have been written.  Any buffer with room
        for the text without its vector will do. */
    method Decrypt(dest: array<Byte>, src: seq<Byte>) returns (result: int)
      requires Sound(cipher) && 16 <= |src| <= dest.Length + 16 && WholeBlocks(src[..|src| - 16])
      modifies dest
      ensures result == if Open(cipher, key, src).Some? then 0 else -1
      ensures |Decrypted(cipher, key, src)| <= dest.Length
      ensures dest[..] == Decrypted(cipher, key, src) + old(dest[..])[|Decrypted(cipher, key, src)|..]
    {
      var m := |src| - 16;
      var iv, text := src[m..], src[..m];
      var first := cipher.update(key, iv, text);
      Copy(dest, 0, first);
      match cipher.dec(key, iv, text)
      case None => { return -1; }
      case Some(plain) =>
        assert first <= plain && plain[..m - 16] == first;
        Copy(dest, m - 16, plain[m - 16..]);
        return 0;
    }
  }

  /** What encrypt has written, decrypt reads back, under the same key and in buffers of the sizes
      that send and packetFactory allocate. */
  method RoundTrip(k: Sesskey, src: seq<Byte>, iv: seq<Byte>) returns (back: array<Byte>)
    requires Sound(k.cipher) && |iv| == 16
    ensures back.Length == |src| + 16 && back[..|src|] == src
  {
    var sealed := new Byte[EncryptedLen(|src|)];
    var length := k.Encrypt(sealed, src, Some(iv));
    assert sealed[..] == Seal(k.cipher, k.key, iv, src);
    OpenSeal(k.cipher, k.key, iv, src);
    back := new Byte[|src| + 16];
    var result := k.Decrypt(back, sealed[..]);
    assert Decrypted(k.cipher, k.key, sealed[..]) == src;
  }
}
