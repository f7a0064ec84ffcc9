/** The 3.4 session handshake: the driver's side, and a peer that checks the
    finish message. */
module Session {
  import opened Common
  import opened Crypto

  type Nonce = n: Bytes | |n| == 16 witness Repeat(0, 16)

  function Power(n: nat): nat { if n == 0 then 1 else 2 * Power(n - 1) }

  /** Exclusive or of the n lowest bits. */
  function XorBits(a: nat, b: nat, n: nat): nat {
    if n == 0 then 0 else (a % 2 + b % 2) % 2 + 2 * XorBits(a / 2, b / 2, n - 1)
  }

  lemma {:induction false} XorBounded(a: nat, b: nat, n: nat)
    ensures XorBits(a, b, n) < Power(n)
  {
    if n > 0 { XorBounded(a / 2, b / 2, n - 1); }
  }

  lemma XorParts(a: nat, b: nat, n: nat)
    requires n > 0
    ensures XorBits(a, b, n) % 2 == (a % 2 + b % 2) % 2 && XorBits(a, b, n) / 2 == XorBits(a / 2, b / 2, n - 1)
  {}

  lemma Parity(a: nat, b: nat, d: nat)
    requires (a % 2 + b % 2) % 2 == (a % 2 + d % 2) % 2 && b / 2 == d / 2
    ensures b == d
  {}

  lemma {:induction false} XorInjective(a: nat, b: nat, d: nat, n: nat)
    requires b < Power(n) && d < Power(n) && XorBits(a, b, n) == XorBits(a, d, n)
    ensures b == d
  {
    if n > 0 {
      XorParts(a, b, n);
      XorParts(a, d, n);
      hide XorBits;
      XorInjective(a / 2, b / 2, d / 2, n - 1);
      Parity(a, b, d);
    }
  }

  lemma Power8()
    ensures Power(8) == 256
  {}

  function Xor(a: byte, b: byte): byte { XorBounded(a, b, 8); Power8(); XorBits(a, b, 8) }

  function Mix(a: Nonce, b: Nonce): Bytes {
    seq(16, i requires 0 <= i < 16 => Xor(a[i], b[i]))
  }

  /** Bit k of a number, counted from the lowest. */
  function Bit(a: nat, k: nat): nat { if k == 0 then a % 2 else Bit(a / 2, k - 1) }

  /** Each bit of the exclusive or is the sum of the two bits without carry. */
  lemma {:induction false} XorBit(a: nat, b: nat, n: nat, k: nat)
    requires k < n
    ensures Bit(XorBits(a, b, n), k) == (Bit(a, k) + Bit(b, k)) % 2
  {
    XorParts(a, b, n);
    if k > 0 { XorBit(a / 2, b / 2, n - 1, k - 1); }
    hide XorBits;
  }

  lemma {:induction false} XorTwice(a: nat, b: nat, n: nat)
    requires b < Power(n)
    ensures XorBits(a, XorBits(a, b, n), n) == b
  {
    if n > 0 {
      hide XorBits;
      var x := XorBits(a, b, n);
      XorParts(a, b, n);
      XorParts(a, x, n);
      XorTwice(a / 2, b / 2, n - 1);
      ParityTwice(a, b, x);
      Halves(XorBits(a, x, n), b);
    }
  }

  lemma ParityTwice(a: nat, b: nat, x: nat)
    requires x % 2 == (a % 2 + b % 2) % 2
    ensures (a % 2 + x % 2) % 2 == b % 2
  {}

  lemma Halves(a: nat, b: nat)
    requires a % 2 == b % 2 && a / 2 == b / 2
    ensures a == b
  {}

  /** Mixing in the same nonce again returns the other one, byte by byte. */
  lemma MixTwice(a: Nonce, b: Nonce)
    ensures |Mix(a, b)| == 16 && Mix(a, Mix(a, b)) == b
  {
    Power8();
    forall i | 0 <= i < 16 ensures Mix(a, Mix(a, b))[i] == b[i] { XorTwice(a[i], b[i], 8); }
    hide XorBits;
  }

  function SessionKey(c: Primitives, key: Bytes, local: Nonce, remote: Nonce): Bytes {
    c.encrypt(Mix(local, remote), key)
  }

  // ---- the driver ----

  /** The nonce the driver always sends: ASCII 0123456789abcdef. */
  const LOCAL_NONCE: Nonce :=
    [0x30, 0x31, 0x32, 0x33, 0x34, 0x35, 0x36, 0x37, 0x38, 0x39, 0x61, 0x62, 0x63, 0x64, 0x65, 0x66]

  lemma LocalNonceText()
    ensures LOCAL_NONCE == Ascii("0123456789abcdef")
  {}

  function Start(c: Primitives, key: Bytes, local: Nonce): Bytes { AesEncrypt(c, local, key) }

  /** The peer's nonce if the response proves knowledge of the key. */
  function Verify(c: Primitives, key: Bytes, local: Nonce, response: Bytes): Result<Nonce> {
    var remote :- AesDecrypt(c, response, key);
    if |remote| < 48 || remote[16..48] != c.hmac(key, local) then Err(ProtocolError) else Ok(remote[..16])
  }

  function Finish(c: Primitives, key: Bytes, remote: Nonce): Bytes { AesEncrypt(c, c.hmac(key, remote), key) }

  // ---- the peer ----

  function PeerStart(c: Primitives, key: Bytes, start: Bytes): Result<Nonce> {
    var nonce :- AesDecrypt(c, start, key);
    if |nonce| == 16 then Ok(nonce) else Err(ProtocolError)
  }

  function PeerResponse(c: Primitives, key: Bytes, seen: Nonce, own: Nonce): Bytes {
    AesEncrypt(c, own + c.hmac(key, seen), key)
  }

  predicate PeerAccepts(c: Primitives, key: Bytes, own: Nonce, finish: Bytes) {
    AesDecrypt(c, finish, key) == Ok(c.hmac(key, own))
  }

  // ---- agreement ----

  /** HMAC under this key separates nonces. */
  ghost predicate NoCollision(c: Primitives, key: Bytes) {
    forall a: Nonce, b: Nonce :: c.hmac(key, a) == c.hmac(key, b) ==> a == b
  }

  lemma VerifyPeerResponse(c: Primitives, key: Bytes, local: Nonce, seen: Nonce, own: Nonce)
    requires Lawful(c)
    ensures Verify(c, key, local, PeerResponse(c, key, seen, own)) ==
            if c.hmac(key, seen) == c.hmac(key, local) then Ok(own) else Err(ProtocolError)
  {
    var text := own + c.hmac(key, seen);
    AesRoundTrip(c, text, key);
    assert text[..16] == own && text[16..48] == c.hmac(key, seen);
  }

  /** Undisturbed, the handshake completes on both sides with one key. */
  lemma HandshakeCompletes(c: Primitives, key: Bytes, local: Nonce, own: Nonce)
    requires Lawful(c)
    ensures PeerStart(c, key, Start(c, key, local)) == Ok(local)
    ensures Verify(c, key, local, PeerResponse(c, key, local, own)) == Ok(own)
    ensures PeerAccepts(c, key, own, Finish(c, key, own))
  {
    AesRoundTrip(c, local, key);
    VerifyPeerResponse(c, key, local, local, own);
    AesRoundTrip(c, c.hmac(key, own), key);
  }

  /** Agreement: `startSeen` and `responseSeen` are whatever the two sides
      received, at least one of them undisturbed, and the finish message
      arrived.  If both sides complete, each recovered the other's nonce, so
      they hold the same session key. */
  lemma HandshakeAgrees(c: Primitives, key: Bytes, local: Nonce, own: Nonce, startSeen: Bytes, responseSeen: Bytes)
    requires Lawful(c) && NoCollision(c, key)
    requires PeerStart(c, key, startSeen).Ok?
    requires Verify(c, key, local, responseSeen).Ok?
    requires PeerAccepts(c, key, own, Finish(c, key, Verify(c, key, local, responseSeen).value))
    requires startSeen == Start(c, key, local)
          || responseSeen == PeerResponse(c, key, PeerStart(c, key, startSeen).value, own)
    ensures Verify(c, key, local, responseSeen).value == own
    ensures PeerStart(c, key, startSeen).value == local
    ensures SessionKey(c, key, local, Verify(c, key, local, responseSeen).value)
         == SessionKey(c, key, PeerStart(c, key, startSeen).value, own)
  {
    var remote, seen := Verify(c, key, local, responseSeen).value, PeerStart(c, key, startSeen).value;
    AesRoundTrip(c, c.hmac(key, remote), key);
    assert remote == own;
    if startSeen == Start(c, key, local) {
      AesRoundTrip(c, local, key);
    } else {
      VerifyPeerResponse(c, key, local, seen, own);
    }
  }

  /** The peer accepts the finish message exactly of a driver that recovered its nonce. */
  lemma FinishAccepted(c: Primitives, key: Bytes, own: Nonce, remote: Nonce)
    requires Lawful(c) && NoCollision(c, key)
    ensures PeerAccepts(c, key, own, Finish(c, key, remote)) <==> remote == own
  {
    AesRoundTrip(c, c.hmac(key, remote), key);
  }

  /** Every nonce of the peer gives a session key of its own. */
  lemma SessionKeySeparates(c: Primitives, key: Bytes, local: Nonce, a: Nonce, b: Nonce)
    requires Lawful(c)
    ensures SessionKey(c, key, local, a) == SessionKey(c, key, local, b) <==> a == b
    ensures |SessionKey(c, key, local, a)| == 16
  {
    if SessionKey(c, key, local, a) == SessionKey(c, key, local, b) {
      assert c.decrypt(SessionKey(c, key, local, a), key) == Mix(local, a);
      assert c.decrypt(SessionKey(c, key, local, b), key) == Mix(local, b);
      forall i | 0 <= i < 16 ensures a[i] == b[i] {
        assert Mix(local, a)[i] == Mix(local, b)[i];
        Power8();
        XorInjective(local[i], a[i], b[i], 8);
      }
    }
  }

  /** What the session key is: one block that decrypts to the exclusive or of the
      two nonces, byte by byte and bit by bit. */
  lemma SessionKeyMeaning(c: Primitives, key: Bytes, local: Nonce, remote: Nonce)
    requires Lawful(c)
    ensures var mixed := c.decrypt(SessionKey(c, key, local, remote), key);
            && |SessionKey(c, key, local, remote)| == 16 && |mixed| == 16
            && forall i, k :: 0 <= i < 16 && 0 <= k < 8 ==>
                 Bit(mixed[i], k) == (Bit(local[i], k) + Bit(remote[i], k)) % 2
  {
    forall i, k | 0 <= i < 16 && 0 <= k < 8
      ensures Bit(Mix(local, remote)[i], k) == (Bit(local[i], k) + Bit(remote[i], k)) % 2
    {
      XorBit(local[i], remote[i], 8, k);
    }
    assert |Mix(local, remote)| == 16;
    assert c.decrypt(c.encrypt(Mix(local, remote), key), key) == Mix(local, remote);
    hide Bit, XorBits;
  }

  /** The driver accepts exactly a response that decrypts to a nonce followed by
      the proof for its own nonce, and takes that nonce; what follows is ignored. */
  lemma VerifyExact(c: Primitives, key: Bytes, local: Nonce, response: Bytes, remote: Nonce)
    requires Lawful(c)
    ensures Verify(c, key, local, response) == Ok(remote) <==>
            exists rest: Bytes :: AesDecrypt(c, response, key) == Ok(remote + c.hmac(key, local) + rest)
  {
    var proof := c.hmac(key, local);
    assert |proof| == 32;
    if Verify(c, key, local, response) == Ok(remote) {
      var text := AesDecrypt(c, response, key).value;
      assert text == text[..16] + text[16..48] + text[48..];
      assert AesDecrypt(c, response, key) == Ok(remote + proof + text[48..]);
    }
    if rest: Bytes :| AesDecrypt(c, response, key) == Ok(remote + proof + rest) {
      var text := remote + proof + rest;
      assert text[..16] == remote && text[16..48] == proof;
    }
    hide AesDecrypt;
  }

  /** Nor can the hypothesis be dropped that one of the two messages arrives
      undisturbed: if the peer saw another nonce in the start message and the
      driver a response made for its own, all checks pass on both sides, and they
      hold different session keys. */
  lemma BothDisturbed(c: Primitives, key: Bytes, local: Nonce, seen: Nonce, own: Nonce)
    requires Lawful(c) && seen != local
    ensures var startSeen, responseSeen := Start(c, key, seen), PeerResponse(c, key, local, own);
            && PeerStart(c, key, startSeen) == Ok(seen) && Verify(c, key, local, responseSeen) == Ok(own)
            && PeerAccepts(c, key, own, Finish(c, key, own))
            && SessionKey(c, key, local, own) != SessionKey(c, key, seen, own)
  {
    HandshakeCompletes(c, key, seen, own);
    VerifyPeerResponse(c, key, local, local, own);
    if SessionKey(c, key, local, own) == SessionKey(c, key, seen, own) {
      assert c.decrypt(SessionKey(c, key, local, own), key) == Mix(local, own);
      assert c.decrypt(SessionKey(c, key, seen, own), key) == Mix(seen, own);
      forall i | 0 <= i < 16 ensures local[i] == seen[i] {
        assert Mix(local, own)[i] == Mix(seen, own)[i];
        Power8();
        XorCommutes(local[i], own[i], 8);
        XorCommutes(seen[i], own[i], 8);
        XorInjective(own[i], local[i], seen[i], 8);
      }
    }
  }

  lemma {:induction false} XorCommutes(a: nat, b: nat, n: nat)
    ensures XorBits(a, b, n) == XorBits(b, a, n)
  {
    if n > 0 { XorCommutes(a / 2, b / 2, n - 1); }
  }

  /** A response recorded in an earlier session still verifies, because the
      driver's nonce never changes, but the peer then refuses the finish. */
  lemma ReplayRefused(c: Primitives, key: Bytes, earlier: Nonce, own: Nonce)
    requires Lawful(c) && NoCollision(c, key) && earlier != own
    ensures Verify(c, key, LOCAL_NONCE, PeerResponse(c, key, LOCAL_NONCE, earlier)) == Ok(earlier)
    ensures !PeerAccepts(c, key, own, Finish(c, key, earlier))
  {
    VerifyPeerResponse(c, key, LOCAL_NONCE, LOCAL_NONCE, earlier);
    AesRoundTrip(c, c.hmac(key, earlier), key);
  }
}
