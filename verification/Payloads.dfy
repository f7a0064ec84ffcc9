/** The payload layer under each protocol version: what `_payload_for_command`
    puts into a frame and what `decode_payload` takes out. */
module Payloads {
  import opened Common
  import opened Crypto
  import opened Dps
  import opened Frames

  const CONTROL: word := 7
  const STATUS: word := 8
  const HEARTBEAT: word := 9
  const DP_QUERY: word := 10
  const SESSION_START: word := 3
  const SESSION_RESPONSE: word := 4
  const SESSION_FINISH: word := 5
  const CONTROL_NEW: word := 13
  const DP_QUERY_NEW: word := 16

  predicate NoVersionHeader(command: word) {
    command in {DP_QUERY, HEARTBEAT, SESSION_START, SESSION_RESPONSE, SESSION_FINISH, DP_QUERY_NEW}
  }

  /** ASCII `3.n` followed by twelve zero bytes. */
  function VersionHeader(v: Version): (h: Bytes)
    ensures |h| == 15
  {
    VersionTag(v) + Repeat(0, 12)
  }

  function VersionTag(v: Version): (t: Bytes)
    ensures |t| == 3
  {
    [0x33, 0x2E, match v case V31 => 0x31 case V32 => 0x32 case V33 => 0x33 case V34 => 0x34]
  }

  /** `||lpv=3.1||` and `data=` in ASCII. */
  const LPV: Bytes := [0x7C, 0x7C, 0x6C, 0x70, 0x76, 0x3D, 0x33, 0x2E, 0x31, 0x7C, 0x7C]
  const DATA: Bytes := [0x64, 0x61, 0x74, 0x61, 0x3D]

  function Either(session: Option<Bytes>, key: Bytes): Bytes {
    if session.Some? then session.value else key
  }

  function Encode(c: Primitives, v: Version, command: word, clear: Bytes, key: Bytes, session: Option<Bytes>): Bytes {
    if v == V31 && command == CONTROL then
      var encrypted := c.encode64(AesEncrypt(c, clear, key));
      VersionTag(V31) + c.digest(DATA + encrypted + LPV + key) + encrypted
    else if v == V34 then AesEncrypt(c, VersionHeader(V34) + clear, Either(session, key))
    else if NoVersionHeader(command) then
      if v != V31 then AesEncrypt(c, clear, key) else clear
    else VersionHeader(v) + AesEncrypt(c, clear, key)
  }

  function Decode(c: Primitives, v: Version, f: Frame, key: Bytes, session: Option<Bytes>): Result<Bytes> {
    var payload := f.payload;
    if v == V31 && StartsWith(payload, VersionTag(V31)) then
      if |payload| < 19 then Err(ProtocolError) else
        match c.decode64(payload[19..])
        case None => Err(ProtocolError)
        case Some(encrypted) => AsProtocolError(AesDecrypt(c, encrypted, key))
    else if v == V34 && f.command == SESSION_RESPONSE then AesDecrypt(c, payload, key)
    else if v == V34 then
      var decrypted :- AesDecrypt(c, payload, Either(session, key));
      if StartsWith(decrypted, VersionHeader(V34)) then Ok(decrypted[15..]) else Err(ProtocolError)
    else if v == V32 || v == V33 then
      AesDecrypt(c, if StartsWith(payload, VersionHeader(v)) then payload[15..] else payload, key)
    else Ok(payload)
  }

  /** Protocol 3.1 reports every ValueError as a protocol error. */
  function AsProtocolError(r: Result<Bytes>): Result<Bytes> {
    if r.Err? then Err(ProtocolError) else r
  }

  function WithoutRetcode(payload: Bytes): Bytes {
    if StartsWith(payload, Repeat(0, 4)) then payload[4..] else payload
  }

  /** What the driver makes of a frame it received. */
  function Received(c: Primitives, v: Version, f: Frame, key: Bytes, session: Option<Bytes>): Result<Bytes> {
    var decoded :- Decode(c, v, f, key, session);
    Ok(WithoutRetcode(decoded))
  }

  /** JSON text of an object: it starts with an opening brace. */
  predicate IsObjectText(clear: Bytes) { |clear| > 0 && clear[0] == 0x7B }

  // ---- what is sent ----

  lemma AsciiTags(v: Version)
    ensures LPV == Ascii("||lpv=3.1||") && DATA == Ascii("data=")
    ensures VersionTag(v) == match v
      case V31 => Ascii("3.1")
      case V32 => Ascii("3.2")
      case V33 => Ascii("3.3")
      case V34 => Ascii("3.4")
  {}

  /** What a payload looks like on the wire, by version and command.  Protocol
      3.1 sends a command as version, digest and base64 of the ciphertext, and a
      query as it is; 3.2 and 3.3 encrypt both and put a header before a command;
      3.4 encrypts the header as well, under the session key if there is one. */
  predicate SentAs(c: Primitives, v: Version, command: word, clear: Bytes, key: Bytes, session: Option<Bytes>, p: Bytes)
  {
    match v
    case V31 =>
      if command == DP_QUERY then p == clear else
        && |p| >= 19 && p[..3] == Ascii("3.1")
        && p[3..19] == c.digest(Ascii("data=") + p[19..] + Ascii("||lpv=3.1||") + key)
        && c.decode64(p[19..]).Some? && AesDecrypt(c, c.decode64(p[19..]).value, key) == Ok(clear)
    case V34 =>
      AesDecrypt(c, p, if session.Some? then session.value else key) ==
        Ok(Ascii("3.4") + [0, 0, 0, 0, 0, 0, 0, 0, 0, 0, 0, 0] + clear)
    case _ =>
      if command == DP_QUERY then AesDecrypt(c, p, key) == Ok(clear) else
        && |p| >= 15 && p[..3] == Ascii(if v == V32 then "3.2" else "3.3")
        && p[3..15] == [0, 0, 0, 0, 0, 0, 0, 0, 0, 0, 0, 0]
        && AesDecrypt(c, p[15..], key) == Ok(clear)
  }

  lemma EncodeSends(c: Primitives, v: Version, command: word, clear: Bytes, key: Bytes, session: Option<Bytes>)
    requires Lawful(c) && Sends(v, command)
    ensures SentAs(c, v, command, clear, key, session, Encode(c, v, command, clear, key, session))
  {
    AsciiTags(v);
    var p := Encode(c, v, command, clear, key, session);
    assert Repeat(0, 12) == [0, 0, 0, 0, 0, 0, 0, 0, 0, 0, 0, 0];
    AesRoundTrip(c, clear, key);
    AesRoundTrip(c, VersionHeader(V34) + clear, Either(session, key));
    if v == V31 && command == CONTROL { Sent31(c, clear, key, session); }
    if (v == V32 || v == V33) && command == CONTROL {
      assert p[..3] == VersionTag(v) && p[3..15] == Repeat(0, 12) && p[15..] == AesEncrypt(c, clear, key);
    }
    hide AesEncrypt, AesDecrypt, Lawful, Ascii;
  }

  lemma Sent31(c: Primitives, clear: Bytes, key: Bytes, session: Option<Bytes>)
    requires Lawful(c)
    ensures SentAs(c, V31, CONTROL, clear, key, session, Encode(c, V31, CONTROL, clear, key, session))
  {
    AsciiTags(V31);
    AesRoundTrip(c, clear, key);
    var encrypted := c.encode64(AesEncrypt(c, clear, key));
    var digest := c.digest(DATA + encrypted + LPV + key);
    assert |digest| == 16 && c.decode64(encrypted) == Some(AesEncrypt(c, clear, key));
    hide AesEncrypt, AesDecrypt, Lawful, Ascii;
    var p := Encode(c, V31, CONTROL, clear, key, session);
    assert p == VersionTag(V31) + digest + encrypted;
    assert p[..3] == VersionTag(V31) && p[3..19] == digest && p[19..] == encrypted;
  }

  /** The text of a received payload, by version.  Under 3.1 a payload is text
      unless it begins with the version; under 3.2 and 3.3 it is encrypted, with
      or without a header in front; under 3.4 the header is encrypted with the
      text, except in a session response, which has none and uses the local key. */
  predicate ReadAs(c: Primitives, v: Version, f: Frame, key: Bytes, session: Option<Bytes>, clear: Bytes) {
    var p := f.payload;
    match v
    case V31 =>
      if !(Ascii("3.1") <= p) then p == clear else
        && |p| >= 19 && c.decode64(p[19..]).Some? && AesDecrypt(c, c.decode64(p[19..]).value, key) == Ok(clear)
    case V34 =>
      if f.command == SESSION_RESPONSE then AesDecrypt(c, p, key) == Ok(clear) else
        AesDecrypt(c, p, if session.Some? then session.value else key) ==
          Ok(Ascii("3.4") + [0, 0, 0, 0, 0, 0, 0, 0, 0, 0, 0, 0] + clear)
    case _ =>
      AesDecrypt(c, if Headered(v, p) then p[15..] else p, key) == Ok(clear)
  }

  predicate Headered(v: Version, p: Bytes) {
    Ascii(if v == V32 then "3.2" else "3.3") + [0, 0, 0, 0, 0, 0, 0, 0, 0, 0, 0, 0] <= p
  }

  /** Decoding returns exactly that text.  It fails with a plain ValueError
      exactly where a ciphertext is not whole blocks, but for protocol 3.1, and
      with a protocol error otherwise. */
  lemma DecodeExact(c: Primitives, v: Version, f: Frame, key: Bytes, session: Option<Bytes>, clear: Bytes)
    ensures Decode(c, v, f, key, session) == Ok(clear) <==> ReadAs(c, v, f, key, session, clear)
    ensures Decode(c, v, f, key, session) == Err(ValueError) <==>
            v != V31 && |if v != V34 && Headered(v, f.payload) then f.payload[15..] else f.payload| % 16 != 0
    ensures Decode(c, v, f, key, session).Err? ==>
              Decode(c, v, f, key, session).error in {ValueError, ProtocolError}
  {
    AsciiTags(v);
    assert Repeat(0, 12) == [0, 0, 0, 0, 0, 0, 0, 0, 0, 0, 0, 0];
    hide Ascii;
    if v == V34 {
      Decode34(c, f, key, session, clear);
    } else if v == V31 {
      Decode31(c, f, key, session, clear);
    } else {
      DecryptExact(c, if Headered(v, f.payload) then f.payload[15..] else f.payload, key, clear);
      hide AesDecrypt;
    }
  }

  lemma Decode31(c: Primitives, f: Frame, key: Bytes, session: Option<Bytes>, clear: Bytes)
    ensures Decode(c, V31, f, key, session) == Ok(clear) <==> ReadAs(c, V31, f, key, session, clear)
    ensures Decode(c, V31, f, key, session).Err? ==> Decode(c, V31, f, key, session).error == ProtocolError
  {
    AsciiTags(V31);
    hide Ascii, AesDecrypt;
  }

  lemma Decode34(c: Primitives, f: Frame, key: Bytes, session: Option<Bytes>, clear: Bytes)
    ensures Decode(c, V34, f, key, session) == Ok(clear) <==> ReadAs(c, V34, f, key, session, clear)
    ensures Decode(c, V34, f, key, session) == Err(ValueError) <==> |f.payload| % 16 != 0
    ensures Decode(c, V34, f, key, session).Err? ==>
              Decode(c, V34, f, key, session).error in {ValueError, ProtocolError}
  {
    AsciiTags(V34);
    var header := VersionHeader(V34);
    assert header == Ascii("3.4") + [0, 0, 0, 0, 0, 0, 0, 0, 0, 0, 0, 0];
    var k := if f.command == SESSION_RESPONSE then key else Either(session, key);
    var r := AesDecrypt(c, f.payload, k);
    DecryptExact(c, f.payload, k, clear);
    hide Ascii, AesDecrypt, VersionHeader;
    if r.Ok? && StartsWith(r.value, header) { assert r.value == header + r.value[15..]; }
    assert (header + clear)[..15] == header && (header + clear)[15..] == clear;
  }

  /** A reply may begin with four zero bytes, which are not part of the text. */
  lemma RetcodeExact(payload: Bytes)
    ensures WithoutRetcode([0, 0, 0, 0] + payload) == payload
    ensures WithoutRetcode(payload) == payload || [0, 0, 0, 0] + WithoutRetcode(payload) == payload
    ensures WithoutRetcode(payload) == payload <==> !([0, 0, 0, 0] <= payload)
  {
    assert Repeat(0, 4) == [0, 0, 0, 0];
    assert ([0, 0, 0, 0] + payload)[..4] == [0, 0, 0, 0];
    if [0, 0, 0, 0] <= payload { assert payload == payload[..4] + payload[4..]; }
  }

  // ---- round trips ----

  lemma ObjectTextSurvives(clear: Bytes)
    requires IsObjectText(clear)
    ensures WithoutRetcode(clear) == clear && !StartsWith(clear, VersionTag(V31))
  {
    assert Repeat(0, 4)[0] == 0;
    assert |clear| >= 3 ==> clear[..3][0] == clear[0];
    assert |clear| >= 4 ==> clear[..4][0] == clear[0];
  }

  lemma Control31(c: Primitives, sequence: word, clear: Bytes, key: Bytes, session: Option<Bytes>)
    requires Lawful(c)
    ensures Decode(c, V31, Frame(sequence, CONTROL, Encode(c, V31, CONTROL, clear, key, session)), key,
              session) == Ok(clear)
  {
    AesRoundTrip(c, clear, key);
    var encrypted := c.encode64(AesEncrypt(c, clear, key));
    var p := Encode(c, V31, CONTROL, clear, key, session);
    assert p[..3] == VersionTag(V31);
    assert p[19..] == encrypted;
  }

  lemma Any34(c: Primitives, f: Frame, clear: Bytes, key: Bytes, session: Option<Bytes>)
    requires Lawful(c) && f.command != SESSION_RESPONSE
    requires f.payload == Encode(c, V34, f.command, clear, key, session)
    ensures Decode(c, V34, f, key, session) == Ok(clear)
  {
    var k := Either(session, key);
    var text := VersionHeader(V34) + clear;
    AesRoundTrip(c, text, k);
    assert text[..15] == VersionHeader(V34) && text[15..] == clear;
  }

  lemma WithHeader(c: Primitives, v: Version, f: Frame, clear: Bytes, key: Bytes, session: Option<Bytes>)
    requires Lawful(c) && (v == V32 || v == V33) && !NoVersionHeader(f.command)
    requires f.payload == Encode(c, v, f.command, clear, key, session)
    ensures Decode(c, v, f, key, session) == Ok(clear)
  {
    AesRoundTrip(c, clear, key);
    assert f.payload[..15] == VersionHeader(v) && f.payload[15..] == AesEncrypt(c, clear, key);
  }

  /** Without the header the decoder guesses from the ciphertext: it recovers
      the text exactly when the ciphertext does not begin like a header, and
      otherwise fails on a length that is no multiple of the block size. */
  lemma WithoutHeader(c: Primitives, v: Version, f: Frame, clear: Bytes, key: Bytes, session: Option<Bytes>)
    requires Lawful(c) && (v == V32 || v == V33) && NoVersionHeader(f.command)
    requires f.payload == Encode(c, v, f.command, clear, key, session)
    ensures Decode(c, v, f, key, session) ==
            if StartsWith(AesEncrypt(c, clear, key), VersionHeader(v)) then Err(ValueError) else Ok(clear)
  {
    AesRoundTrip(c, clear, key);
  }

  /** The commands the driver sends under a version. */
  predicate Sends(v: Version, command: word) {
    if v == V34 then command == CONTROL_NEW || command == DP_QUERY_NEW else command == CONTROL || command == DP_QUERY
  }

  /** The one case in which a payload does not come back. */
  predicate LooksHeadered(c: Primitives, v: Version, command: word, clear: Bytes, key: Bytes) {
    (v == V32 || v == V33) && command == DP_QUERY && StartsWith(AesEncrypt(c, clear, key), VersionHeader(v))
  }

  lemma PayloadRoundTrip(c: Primitives, v: Version, f: Frame, clear: Bytes, key: Bytes, session: Option<Bytes>)
    requires Lawful(c) && Sends(v, f.command) && IsObjectText(clear)
    requires f.payload == Encode(c, v, f.command, clear, key, session)
    ensures Received(c, v, f, key, session) ==
            if LooksHeadered(c, v, f.command, clear, key) then Err(ValueError) else Ok(clear)
  {
    ObjectTextSurvives(clear);
    if v == V34 {
      Any34(c, f, clear, key, session);
    } else if v == V31 {
      if f.command == CONTROL { Control31(c, f.sequence, clear, key, session); }
    } else if f.command == CONTROL {
      WithHeader(c, v, f, clear, key, session);
    } else {
      WithoutHeader(c, v, f, clear, key, session);
    }
  }

  /** The key that protects frames of a connection. */
  function IntegrityKey(v: Version, key: Bytes, session: Option<Bytes>): Bytes {
    if v == V34 then Either(session, key) else key
  }

  /** All layers composed: for every version and command the driver sends, the
      bytes it puts on the stream are read back as one frame whose payload is
      the original JSON text, in all cases but the one named above. */
  lemma WireRoundTrip(c: Primitives, v: Version, sequence: word, command: word, clear: Bytes, key: Bytes,
                      session: Option<Bytes>, rest: Bytes)
    requires Lawful(c) && Sends(v, command) && IsObjectText(clear)
    requires Fits(v, Frame(sequence, command, Encode(c, v, command, clear, key, session)))
    ensures var f := Frame(sequence, command, Encode(c, v, command, clear, key, session));
            var guard := IntegrityKey(v, key, session);
            && Take(c, v, guard, Build(c, v, guard, f) + rest) == (Ok(f), rest)
            && Received(c, v, f, key, session) ==
               (if LooksHeadered(c, v, command, clear, key) then Err(ValueError) else Ok(clear))
  {
    var f := Frame(sequence, command, Encode(c, v, command, clear, key, session));
    TakeBuilt(c, v, IntegrityKey(v, key, session), f, rest);
    PayloadRoundTrip(c, v, f, clear, key, session);
  }
}
