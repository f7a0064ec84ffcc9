/** The 55AA frame: building, parsing and reading frames off a stream. */
module Frames {
  import opened Common
  import opened Crypto
  import opened Dps

  const WORD: int := 0x1_0000_0000
  const MAX_LENGTH := 1024 * 1024

  type word = w: int | 0 <= w < 0x1_0000_0000

  datatype Frame = Frame(sequence: word, command: word, payload: Bytes)

  // ---- big-endian words ----

  function Pack2(n: int): (b: Bytes)
    requires 0 <= n < 0x1_0000
    ensures |b| == 2
  {
    [n / 0x100, n % 0x100]
  }

  function Unpack2(b: Bytes): (n: int)
    requires |b| == 2
    ensures 0 <= n < 0x1_0000
  {
    (b[0] as int) * 0x100 + b[1] as int
  }

  function Pack(w: word): (b: Bytes)
    ensures |b| == 4
  {
    Pack2(w / 0x1_0000) + Pack2(w % 0x1_0000)
  }

  function Unpack(b: Bytes): word
    requires |b| == 4
  {
    Unpack2(b[..2]) * 0x1_0000 + Unpack2(b[2..])
  }

  lemma Pack2Inverse(n: int)
    requires 0 <= n < 0x1_0000
    ensures Unpack2(Pack2(n)) == n
  {}

  lemma Unpack2Inverse(b: Bytes)
    requires |b| == 2
    ensures Pack2(Unpack2(b)) == b
  {}

  lemma UnpackPack(w: word)
    ensures Unpack(Pack(w)) == w
  {
    Pack2Inverse(w / 0x1_0000);
    Pack2Inverse(w % 0x1_0000);
    assert Pack(w)[..2] == Pack2(w / 0x1_0000) && Pack(w)[2..] == Pack2(w % 0x1_0000);
  }

  lemma PackUnpack(b: Bytes)
    requires |b| == 4
    ensures Pack(Unpack(b)) == b
  {
    Unpack2Inverse(b[..2]);
    Unpack2Inverse(b[2..]);
    assert b == b[..2] + b[2..];
  }

  const PREFIX: Bytes := [0x00, 0x00, 0x55, 0xAA]
  const SUFFIX: Bytes := [0x00, 0x00, 0xAA, 0x55]

  // ---- building and parsing ----

  function TrailerSize(v: Version): int { if v == V34 then 36 else 8 }

  function Header(f: Frame, length: word): Bytes {
    PREFIX + Pack(f.sequence) + Pack(f.command) + Pack(length)
  }

  function Integrity(c: Primitives, v: Version, key: Bytes, signed: Bytes): (r: Bytes)
    requires Lawful(c)
    ensures |r| == TrailerSize(v) - 4
  {
    if v == V34 then c.hmac(key, signed) else Pack(c.crc32(signed))
  }

  /** A frame fits when its length field is at most 1 MiB. */
  predicate Fits(v: Version, f: Frame) { |f.payload| + TrailerSize(v) <= MAX_LENGTH }

  function Build(c: Primitives, v: Version, key: Bytes, f: Frame): Bytes
    requires Lawful(c) && |f.payload| + TrailerSize(v) < WORD
  {
    var signed := Header(f, |f.payload| + TrailerSize(v)) + f.payload;
    signed + Integrity(c, v, key, signed) + SUFFIX
  }

  function Parse(c: Primitives, v: Version, key: Bytes, data: Bytes): Result<Frame>
    requires Lawful(c)
  {
    if |data| < 24 || data[..4] != PREFIX || data[|data| - 4..] != SUFFIX then Err(ProtocolError) else
      var length := Unpack(data[12..16]);
      if length > MAX_LENGTH || |data| != 16 + length then Err(ProtocolError)
      else if length < TrailerSize(v) then Err(ProtocolError)
      else
        var end := 16 + length - TrailerSize(v);
        var signed := data[..end];
        if data[end..|data| - 4] != Integrity(c, v, key, signed) then Err(ProtocolError)
        else Ok(Frame(Unpack(data[4..8]), Unpack(data[8..12]), data[16..end]))
  }

  lemma BuildLayout(c: Primitives, v: Version, key: Bytes, f: Frame)
    requires Lawful(c) && |f.payload| + TrailerSize(v) < WORD
    ensures var data := Build(c, v, key, f);
            var length := |f.payload| + TrailerSize(v);
            var end := 16 + |f.payload|;
            && |data| == 16 + length
            && data[..4] == PREFIX && data[|data| - 4..] == SUFFIX
            && data[4..8] == Pack(f.sequence) && data[8..12] == Pack(f.command) && data[12..16] == Pack(length)
            && data[16..end] == f.payload
            && data[end..|data| - 4] == Integrity(c, v, key, data[..end])
  {
    hide Pack, Integrity, Lawful;
    var length := |f.payload| + TrailerSize(v);
    var header := Header(f, length);
    var signed := header + f.payload;
    var tail := Integrity(c, v, key, signed);
    var data := Build(c, v, key, f);
    assert |tail| == TrailerSize(v) - 4;
    assert data[..|signed|] == signed;
    assert data[|signed|..|data| - 4] == tail;
    assert data[|data| - 4..] == SUFFIX;
    assert data[..16] == header;
    assert header[..4] == PREFIX && header[4..8] == Pack(f.sequence) && header[8..12] == Pack(f.command)
        && header[12..16] == Pack(length);
    assert data[..4] == data[..16][..4] && data[4..8] == data[..16][4..8] && data[8..12] == data[..16][8..12]
        && data[12..16] == data[..16][12..16];
    assert data[16..|signed|] == f.payload;
  }

  /** Parsing a built frame returns it exactly when it is within 1 MiB. */
  lemma ParseBuild(c: Primitives, v: Version, key: Bytes, f: Frame)
    requires Lawful(c) && |f.payload| + TrailerSize(v) < WORD
    ensures Parse(c, v, key, Build(c, v, key, f)) == if Fits(v, f) then Ok(f) else Err(ProtocolError)
  {
    BuildLayout(c, v, key, f);
    UnpackPack(f.sequence);
    UnpackPack(f.command);
    UnpackPack(|f.payload| + TrailerSize(v));
  }

  /** Every accepted byte string is the one `Build` makes of the result. */
  lemma BuildParse(c: Primitives, v: Version, key: Bytes, data: Bytes)
    requires Lawful(c) && Parse(c, v, key, data).Ok?
    ensures var f := Parse(c, v, key, data).value; Fits(v, f) && Build(c, v, key, f) == data
  {
    hide Pack, Unpack, Integrity, Lawful;
    var f := Parse(c, v, key, data).value;
    var end := 16 + |f.payload|;
    PackUnpack(data[4..8]);
    PackUnpack(data[8..12]);
    PackUnpack(data[12..16]);
    HeaderParts(data);
    ThreeParts(data, 16, end);
    ThreeParts(data, end, |data| - 4);
  }

  /** The number that four bytes are, the most significant first. */
  function BigEndian(b: Bytes): int
    requires |b| == 4
  {
    (b[0] as int) * 0x100_0000 + (b[1] as int) * 0x1_0000 + (b[2] as int) * 0x100 + b[3] as int
  }

  lemma PackExact(w: word, b: Bytes)
    requires |b| == 4
    ensures b == Pack(w) <==> BigEndian(b) == w
    ensures Unpack(b) == BigEndian(b)
  {
    PackUnpack(b);
    UnpackPack(w);
    assert b[..2] == [b[0], b[1]] && b[2..] == [b[2], b[3]];
    hide Pack;
  }

  /** The bytes of a frame: sequence, command, length and payload between fixed
      marks, and before the last one a trailer that vouches for all before it -
      an HMAC under the key in protocol 3.4, a checksum in the others. */
  ghost predicate IsWire(c: Primitives, v: Version, key: Bytes, f: Frame, data: Bytes) {
    var end := 16 + |f.payload|;
    && |data| == end + (if v == V34 then 36 else 8)
    && data[..4] == [0x00, 0x00, 0x55, 0xAA] && data[|data| - 4..] == [0x00, 0x00, 0xAA, 0x55]
    && BigEndian(data[4..8]) == f.sequence && BigEndian(data[8..12]) == f.command
    && BigEndian(data[12..16]) == |data| - 16
    && data[16..end] == f.payload
    && if v == V34 then data[end..end + 32] == c.hmac(key, data[..end])
       else BigEndian(data[end..end + 4]) == c.crc32(data[..end])
  }

  /** What is accepted as a frame is exactly what has this form, up to 1 MiB,
      and what is built for it is exactly that. */
  lemma WireExact(c: Primitives, v: Version, key: Bytes, f: Frame, data: Bytes)
    requires Lawful(c) && |f.payload| + TrailerSize(v) < WORD
    ensures data == Build(c, v, key, f) <==> IsWire(c, v, key, f, data)
    ensures Parse(c, v, key, data) == Ok(f) <==> IsWire(c, v, key, f, data) && |data| <= 16 + 1048576
  {
    BuildLayout(c, v, key, f);
    ParseBuild(c, v, key, f);
    if Parse(c, v, key, data) == Ok(f) { BuildParse(c, v, key, data); }
    BuiltIsWire(c, v, key, f);
    assert IsWire(c, v, key, f, data) ==> |data| == 16 + |f.payload| + TrailerSize(v);
    if IsWire(c, v, key, f, data) { WireIsBuilt(c, v, key, f, data); }
    hide Build, Parse, IsWire, Lawful, Integrity;
  }

  lemma BuiltIsWire(c: Primitives, v: Version, key: Bytes, f: Frame)
    requires Lawful(c) && |f.payload| + TrailerSize(v) < WORD
    ensures IsWire(c, v, key, f, Build(c, v, key, f))
  {
    var data := Build(c, v, key, f);
    var end := 16 + |f.payload|;
    BuildLayout(c, v, key, f);
    PackExact(f.sequence, data[4..8]);
    PackExact(f.command, data[8..12]);
    PackExact(|f.payload| + TrailerSize(v), data[12..16]);
    if v != V34 { PackExact(c.crc32(data[..end]), data[end..end + 4]); }
    hide Build, Pack, BigEndian;
  }

  lemma WireIsBuilt(c: Primitives, v: Version, key: Bytes, f: Frame, data: Bytes)
    requires Lawful(c) && |f.payload| + TrailerSize(v) < WORD && IsWire(c, v, key, f, data)
    ensures data == Build(c, v, key, f)
  {
    hide Pack, BigEndian;
    var end := 16 + |f.payload|;
    PackExact(f.sequence, data[4..8]);
    PackExact(f.command, data[8..12]);
    PackExact(|f.payload| + TrailerSize(v), data[12..16]);
    if v != V34 { PackExact(c.crc32(data[..end]), data[end..end + 4]); }
    HeaderParts(data);
    ThreeParts(data, 16, end);
    ThreeParts(data, end, |data| - 4);
    assert data[..end] == Header(f, |f.payload| + TrailerSize(v)) + f.payload;
  }

  lemma ThreeParts(data: Bytes, i: nat, j: nat)
    requires i <= j <= |data|
    ensures data == data[..i] + data[i..j] + data[j..] && data[..j] == data[..i] + data[i..j]
  {}

  lemma HeaderParts(data: Bytes)
    requires 16 <= |data|
    ensures data[..16] == data[..4] + data[4..8] + data[8..12] + data[12..16]
  {}

  /** Two accepted byte strings with the same result are equal. */
  lemma ParseInjective(c: Primitives, v: Version, key: Bytes, a: Bytes, b: Bytes)
    requires Lawful(c) && Parse(c, v, key, a).Ok? && Parse(c, v, key, a) == Parse(c, v, key, b)
    ensures a == b
  {
    BuildParse(c, v, key, a);
    BuildParse(c, v, key, b);
  }

  // ---- streams ----

  /** The bytes that have arrived, in order; reads past them find the end. */
  class StreamReader {
    var buffer: Bytes

    constructor (bytes: Bytes)
      ensures buffer == bytes
    {
      buffer := bytes;
    }

    /** Takes exactly n bytes; at the end of the stream the rest is lost. */
    method ReadExactly(n: nat) returns (r: Result<Bytes>)
      modifies this
      ensures n <= |old(buffer)| ==> r == Ok(old(buffer)[..n]) && buffer == old(buffer)[n..]
      ensures n > |old(buffer)| ==> r == Err(IncompleteRead) && buffer == []
    {
      if n <= |buffer| {
        r := Ok(buffer[..n]);
        buffer := buffer[n..];
      } else {
        r := Err(IncompleteRead);
        buffer := [];
      }
    }

    method ReadFrame(c: Primitives, v: Version, key: Bytes) returns (r: Result<Frame>)
      requires Lawful(c)
      modifies this
      ensures (r, buffer) == Take(c, v, key, old(buffer))
    {
      ghost var stream := buffer;
      var header :- ReadExactly(16);
      assert header[..4] == stream[..4] && header[12..16] == stream[12..16];
      if header[..4] != PREFIX {
        return Err(ProtocolError);
      }
      var length := Unpack(header[12..16]);
      if length > MAX_LENGTH {
        return Err(ProtocolError);
      }
      var rest :- ReadExactly(length);
      assert header + rest == stream[..16 + length];
      r := Parse(c, v, key, header + rest);
    }
  }

  /** What one `_read_frame` returns and what it leaves. */
  function Take(c: Primitives, v: Version, key: Bytes, stream: Bytes): (Result<Frame>, Bytes)
    requires Lawful(c)
  {
    if |stream| < 16 then (Err(IncompleteRead), [])
    else if stream[..4] != PREFIX || Unpack(stream[12..16]) > MAX_LENGTH then (Err(ProtocolError), stream[16..])
    else
      var size := 16 + Unpack(stream[12..16]);
      if |stream| < size then (Err(IncompleteRead), [])
      else (Parse(c, v, key, stream[..size]), stream[size..])
  }

  /** One read takes one built frame and nothing of what follows it. */
  lemma TakeBuilt(c: Primitives, v: Version, key: Bytes, f: Frame, rest: Bytes)
    requires Lawful(c) && Fits(v, f)
    ensures Take(c, v, key, Build(c, v, key, f) + rest) == (Ok(f), rest)
  {
    var data := Build(c, v, key, f);
    var stream := data + rest;
    BuildLayout(c, v, key, f);
    ParseBuild(c, v, key, f);
    UnpackPack(|f.payload| + TrailerSize(v));
    hide Build, Parse, Pack, Unpack, Lawful;
    assert stream[..4] == data[..4] && stream[12..16] == data[12..16];
    assert stream[..|data|] == data && stream[|data|..] == rest;
  }

  /** A read that succeeds found a built frame at the head of the stream. */
  lemma TakeOnlyBuilt(c: Primitives, v: Version, key: Bytes, stream: Bytes)
    requires Lawful(c) && Take(c, v, key, stream).0.Ok?
    ensures var (r, rest) := Take(c, v, key, stream); Fits(v, r.value) && stream == Build(c, v, key, r.value) + rest
  {
    var size := 16 + Unpack(stream[12..16]);
    BuildParse(c, v, key, stream[..size]);
    assert stream == stream[..size] + stream[size..];
  }

  predicate AllFit(v: Version, frames: seq<Frame>) {
    forall k :: 0 <= k < |frames| ==> Fits(v, frames[k])
  }

  function BuildAll(c: Primitives, v: Version, key: Bytes, frames: seq<Frame>): Bytes
    requires Lawful(c) && AllFit(v, frames)
  {
    if frames == [] then [] else Build(c, v, key, frames[0]) + BuildAll(c, v, key, frames[1..])
  }

  /** n reads in a row; stops at the first failure. */
  function TakeMany(c: Primitives, v: Version, key: Bytes, stream: Bytes, n: nat): (Result<seq<Frame>>, Bytes)
    requires Lawful(c)
  {
    if n == 0 then (Ok([]), stream) else
      var (first, rest) := Take(c, v, key, stream);
      if first.Err? then (Err(first.error), rest) else
        var (others, left) := TakeMany(c, v, key, rest, n - 1);
        if others.Err? then (others, left) else (Ok([first.value] + others.value), left)
  }

  lemma TakeManyStep(c: Primitives, v: Version, key: Bytes, stream: Bytes, first: Frame, rest: Bytes,
                     others: seq<Frame>, left: Bytes)
    requires Lawful(c) && Take(c, v, key, stream) == (Ok(first), rest)
    requires TakeMany(c, v, key, rest, |others|) == (Ok(others), left)
    ensures TakeMany(c, v, key, stream, |others| + 1) == (Ok([first] + others), left)
  {}

  /** n reads over a concatenation of n built frames yield those frames and
      leave exactly the bytes that follow them. */
  lemma {:induction false} StreamRoundTrip(c: Primitives, v: Version, key: Bytes, frames: seq<Frame>, rest: Bytes)
    requires Lawful(c) && AllFit(v, frames)
    ensures TakeMany(c, v, key, BuildAll(c, v, key, frames) + rest, |frames|) == (Ok(frames), rest)
  {
    if frames == [] {
      assert BuildAll(c, v, key, frames) + rest == rest;
    } else {
      var others := frames[1..];
      assert [frames[0]] + others == frames;
      BuildAllCons(c, v, key, frames[0], others, rest);
      hide Build, BuildAll, Take, TakeMany, Lawful;
      var left := BuildAll(c, v, key, others) + rest;
      StreamRoundTrip(c, v, key, others, rest);
      TakeBuilt(c, v, key, frames[0], left);
      TakeManyStep(c, v, key, BuildAll(c, v, key, frames) + rest, frames[0], left, others, rest);
    }
  }

  lemma TakeManyParts(c: Primitives, v: Version, key: Bytes, stream: Bytes, n: nat)
    returns (first: Frame, left: Bytes, others: seq<Frame>, rest: Bytes)
    requires Lawful(c) && n > 0 && TakeMany(c, v, key, stream, n).0.Ok?
    ensures Take(c, v, key, stream) == (Ok(first), left)
    ensures TakeMany(c, v, key, left, n - 1) == (Ok(others), rest)
    ensures TakeMany(c, v, key, stream, n) == (Ok([first] + others), rest)
  {
    hide Take, Lawful;
    first, left := Take(c, v, key, stream).0.value, Take(c, v, key, stream).1;
    others, rest := TakeMany(c, v, key, left, n - 1).0.value, TakeMany(c, v, key, left, n - 1).1;
  }

  lemma TakeNone(c: Primitives, v: Version, key: Bytes, stream: Bytes)
    requires Lawful(c)
    ensures TakeMany(c, v, key, stream, 0) == (Ok([]), stream) && BuildAll(c, v, key, []) + stream == stream
  {}

  /** A stream splits into frames in at most one way. */
  lemma {:induction false} StreamUnique(c: Primitives, v: Version, key: Bytes, stream: Bytes, n: nat)
    requires Lawful(c) && TakeMany(c, v, key, stream, n).0.Ok?
    ensures var (r, rest) := TakeMany(c, v, key, stream, n);
            |r.value| == n && AllFit(v, r.value) && stream == BuildAll(c, v, key, r.value) + rest
    decreases n
  {
    hide Build, BuildAll, Take, TakeMany, Lawful;
    if n == 0 {
      TakeNone(c, v, key, stream);
    } else {
      var first, left, others, rest := TakeManyParts(c, v, key, stream, n);
      TakeOnlyBuilt(c, v, key, stream);
      StreamUnique(c, v, key, left, n - 1);
      BuildAllCons(c, v, key, first, others, rest);
    }
  }

  lemma BuildAllCons(c: Primitives, v: Version, key: Bytes, first: Frame, others: seq<Frame>, rest: Bytes)
    requires Lawful(c) && Fits(v, first) && AllFit(v, others)
    ensures AllFit(v, [first] + others)
    ensures BuildAll(c, v, key, [first] + others) + rest == Build(c, v, key, first) + (BuildAll(c, v, key,
              others) + rest)
  {
    hide Build, Lawful;
    assert ([first] + others)[1..] == others;
  }
}
