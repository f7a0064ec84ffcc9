/** The cryptographic functions the driver calls, as a record of functions, and
    the laws it relies on.  Padding (section 6.3 of RFC 5652) is concrete. */
module Crypto {
  import opened Common

  datatype Primitives = Primitives(
    /** AES-ECB on whole blocks: data, key */
    encrypt: (Bytes, Bytes) -> Bytes,
    decrypt: (Bytes, Bytes) -> Bytes,
    /** HMAC-SHA-256: key, message */
    hmac: (Bytes, Bytes) -> Bytes,
    crc32: Bytes -> int,
    /** the 16 ASCII characters of the MD5 digest that protocol 3.1 sends */
    digest: Bytes -> Bytes,
    encode64: Bytes -> Bytes,
    decode64: Bytes -> Option<Bytes>)

  /** Length and inverse laws. */
  ghost predicate Lawful(c: Primitives) {
    && (forall data, key :: |data| % 16 == 0 ==> |c.encrypt(data, key)| == |data|)
    && (forall data, key :: |data| % 16 == 0 ==> c.decrypt(c.encrypt(data, key), key) == data)
    && (forall key, message :: |c.hmac(key, message)| == 32)
    && (forall message :: 0 <= c.crc32(message) < 0x1_0000_0000)
    && (forall message :: |c.digest(message)| == 16)
    && (forall data :: c.decode64(c.encode64(data)) == Some(data))
  }

  function Repeat(b: byte, n: nat): Bytes { seq(n, _ => b) }

  function PadSize(n: nat): (k: int)
    ensures 1 <= k <= 16 && (n + k) % 16 == 0
  {
    16 - n % 16
  }

  function Pad(data: Bytes): (r: Bytes)
    ensures |r| % 16 == 0 && |r| > |data|
  {
    data + Repeat(PadSize(|data|), PadSize(|data|))
  }

  /** None when the data is empty or does not end in a run of padding bytes. */
  function Unpad(data: Bytes): Option<Bytes> {
    if data == [] then None else
      var k := data[|data| - 1];
      if 1 <= k <= 16 && k <= |data| && data[|data| - k..] == Repeat(k, k) then Some(data[..|data| - k]) else None
  }

  lemma UnpadPad(data: Bytes)
    ensures Unpad(Pad(data)) == Some(data)
  {
    var k := PadSize(|data|);
    var p := Pad(data);
    assert p[|p| - 1] == k;
    assert p[|p| - k..] == Repeat(k, k);
    assert p[..|p| - k] == data;
  }

  /** k bytes of value k behind the data, 1 to 16 of them. */
  predicate IsPadded(padded: Bytes, data: Bytes) {
    var k := |padded| - |data|;
    && 1 <= k <= 16 && padded[..|data|] == data
    && forall i :: |data| <= i < |padded| ==> padded[i] == k
  }

  /** Padding fills the last block up, and a whole block if it is full; what is
      taken off is exactly such padding, of any text. */
  lemma PaddingExact(data: Bytes, padded: Bytes)
    ensures padded == Pad(data) <==> IsPadded(padded, data) && |padded| % 16 == 0
    ensures Unpad(padded) == Some(data) <==> IsPadded(padded, data)
  {
    var k := |padded| - |data|;
    if IsPadded(padded, data) {
      assert padded == data + Repeat(k, k);
      assert padded[|data|..] == Repeat(k, k);
    }
  }

  /** `_aes_encrypt` with padding. */
  function AesEncrypt(c: Primitives, data: Bytes, key: Bytes): Bytes {
    c.encrypt(Pad(data), key)
  }

  /** `_aes_decrypt` with padding: a plain ValueError when the data is not whole
      blocks, a protocol error when the padding is wrong. */
  function AesDecrypt(c: Primitives, data: Bytes, key: Bytes): Result<Bytes> {
    if |data| % 16 != 0 then Err(ValueError) else
      match Unpad(c.decrypt(data, key))
      case Some(clear) => Ok(clear)
      case None => Err(ProtocolError)
  }

  /** What decrypts to what: whole blocks whose decryption is the text and its
      padding.  The plain ValueError is for data that is not whole blocks. */
  lemma DecryptExact(c: Primitives, data: Bytes, key: Bytes, clear: Bytes)
    ensures AesDecrypt(c, data, key) == Ok(clear) <==> |data| % 16 == 0 && IsPadded(c.decrypt(data, key), clear)
    ensures AesDecrypt(c, data, key) == Err(ValueError) <==> |data| % 16 != 0
    ensures AesDecrypt(c, data, key).Err? ==> AesDecrypt(c, data, key).error in {ValueError, ProtocolError}
  {
    PaddingExact(clear, c.decrypt(data, key));
    hide Unpad;
  }

  lemma AesRoundTrip(c: Primitives, data: Bytes, key: Bytes)
    requires Lawful(c)
    ensures AesDecrypt(c, AesEncrypt(c, data, key), key) == Ok(data)
    ensures |AesEncrypt(c, data, key)| % 16 == 0 && |AesEncrypt(c, data, key)| > |data|
    ensures |AesEncrypt(c, data, key)| <= |data| + 16
  {
    UnpadPad(data);
    assert |c.encrypt(Pad(data), key)| == |Pad(data)|;
  }
}
