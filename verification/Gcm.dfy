/** AES-256-GCM seen through sections 7.1 and 7.2 of NIST SP 800-38D: GCTR is
    XOR with a keystream that depends on key, nonce and position, and the tag
    is a 16-byte function of key, nonce, additional data and ciphertext. The
    block cipher and GHASH behind the two functions are parameters. */
module Gcm {
  import opened Results
  import opened Bytes

  const TAG_BYTES: nat := 16

  type Tag = t: bytes | |t| == TAG_BYTES witness seq(16, _ => 0)

  datatype Cipher = Cipher(keystream: (bytes, bytes, nat) -> byte, mac: (bytes, bytes, bytes, bytes) -> Tag)

  /** GCTR from byte position `at` on; it both encrypts and decrypts. */
  function Mask(g: Cipher, key: bytes, nonce: bytes, at: nat, data: bytes): (r: bytes)
    ensures |r| == |data|
  {
    seq(|data|, i requires 0 <= i < |data| => Xor(data[i], g.keystream(key, nonce, at + i)))
  }

  lemma MaskTwice(g: Cipher, key: bytes, nonce: bytes, at: nat, data: bytes)
    ensures Mask(g, key, nonce, at, Mask(g, key, nonce, at, data)) == data
  {
    forall i | 0 <= i < |data|
      ensures Mask(g, key, nonce, at, Mask(g, key, nonce, at, data))[i] == data[i]
    {
      XorTwice(data[i], g.keystream(key, nonce, at + i));
    }
  }

  /** Masking chunk by chunk is masking the whole. */
  lemma MaskAppend(g: Cipher, key: bytes, nonce: bytes, at: nat, a: bytes, b: bytes)
    ensures Mask(g, key, nonce, at, a + b) == Mask(g, key, nonce, at, a) + Mask(g, key, nonce, at + |a|, b)
  {}

  /** AESGCM(key).encrypt(nonce, plaintext, aad): ciphertext followed by tag. */
  function Seal(g: Cipher, key: bytes, nonce: bytes, plaintext: bytes, aad: bytes): (r: bytes)
    ensures |r| == |plaintext| + TAG_BYTES
  {
    var ciphertext := Mask(g, key, nonce, 0, plaintext);
    ciphertext + g.mac(key, nonce, aad, ciphertext)
  }

  /** Byte by byte: the plaintext XOR the keystream from its start on, and then the
      tag over key, nonce, additional data and ciphertext. */
  lemma SealLayout(g: Cipher, key: bytes, nonce: bytes, plaintext: bytes, aad: bytes)
    ensures var s, n := Seal(g, key, nonce, plaintext, aad), |plaintext|;
            && |s| == n + 16 && s[n..] == g.mac(key, nonce, aad, s[..n])
            && forall i | 0 <= i < n :: s[i] == Xor(plaintext[i], g.keystream(key, nonce, i))
  {
    var s, n := Seal(g, key, nonce, plaintext, aad), |plaintext|;
    assert s[..n] == Mask(g, key, nonce, 0, plaintext);
  }

  /** AESGCM(key).decrypt(nonce, data, aad); None is InvalidTag. */
  function Open(g: Cipher, key: bytes, nonce: bytes, data: bytes, aad: bytes): (r: Option<bytes>)
    ensures r.Some? ==> |data| == |r.value| + TAG_BYTES
  {
    if |data| < TAG_BYTES then None
    else
      var n := |data| - TAG_BYTES;
      if data[n..] == g.mac(key, nonce, aad, data[..n]) then Some(Mask(g, key, nonce, 0, data[..n])) else None
  }

  lemma OpenSeal(g: Cipher, key: bytes, nonce: bytes, plaintext: bytes, aad: bytes)
    ensures Open(g, key, nonce, Seal(g, key, nonce, plaintext, aad), aad) == Some(plaintext)
  {
    MaskTwice(g, key, nonce, 0, plaintext);
    var data := Seal(g, key, nonce, plaintext, aad);
    assert data[..|plaintext|] == Mask(g, key, nonce, 0, plaintext);
  }

  /** Data opens under a key, nonce and additional data exactly when sealing
      the result under them gives the data back. */
  lemma OpenIffSealed(g: Cipher, key: bytes, nonce: bytes, data: bytes, aad: bytes, plaintext: bytes)
    ensures Open(g, key, nonce, data, aad) == Some(plaintext) <==> data == Seal(g, key, nonce, plaintext, aad)
  {
    OpenSeal(g, key, nonce, plaintext, aad);
    if Open(g, key, nonce, data, aad) == Some(plaintext) {
      var n := |data| - TAG_BYTES;
      MaskTwice(g, key, nonce, 0, data[..n]);
      assert data == data[..n] + data[n..];
    }
  }

  /** The ideal assumption about wrong keys: among the keys a run draws, no two
      agree on the tag of any message. The set is finite, so 16-byte tags can
      satisfy this. */
  ghost predicate KeySeparated(g: Cipher, keys: set<bytes>) {
    forall k1, k2, nonce, aad, ciphertext | k1 in keys && k2 in keys ::
      g.mac(k1, nonce, aad, ciphertext) == g.mac(k2, nonce, aad, ciphertext) ==> k1 == k2
  }

  /** Under that assumption, what one key sealed no other key opens. */
  lemma WrongKeyFails(g: Cipher, keys: set<bytes>, k1: bytes, k2: bytes, nonce: bytes, plaintext: bytes, aad: bytes)
    requires KeySeparated(g, keys) && k1 in keys && k2 in keys && k1 != k2
    ensures Open(g, k2, nonce, Seal(g, k1, nonce, plaintext, aad), aad) == None
  {}
}
