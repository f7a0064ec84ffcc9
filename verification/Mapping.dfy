/** `TuyaDpMapping`: which data point carries which channel, and how values
    are converted.  Data-point values are JSON values. */
module Mapping {
  import opened Common
  import opened Hsv
  import opened Json
  import opened Rounding
  import opened Scaling
  import opened Text

  datatype ColorFormat = RgbHex | HsvHex

  datatype White = White(dp: int, range: Range)

  datatype DpMapping = DpMapping(power: int, brightness: int, color: int, format: ColorFormat, range: Range,
                                 white: Option<White>)
  {
    /** What `__post_init__` admits. */
    predicate Valid() {
      && 1 <= power <= 255 && 1 <= brightness <= 255 && 1 <= color <= 255
      && power != brightness && power != color && brightness != color
      && range.Valid()
      && (white.Some? ==>
            && 1 <= white.value.dp <= 255
            && white.value.dp != power && white.value.dp != brightness && white.value.dp != color
            && white.value.range.Valid())
    }

    function BrightnessToDp(value: int): Result<int> {
      if IsChannel(value) then Ok(ToDp(range, value)) else Err(ConfigurationError)
    }

    function BrightnessFromDp(value: Json): Result<int>
      requires Valid()
    {
      FromNumber(range, value)
    }

    function WhiteToDp(value: int): Result<int> {
      if white.None? then Err(ConfigurationError)
      else if IsChannel(value) then Ok(ToDp(white.value.range, value)) else Err(ConfigurationError)
    }

    function WhiteFromDp(value: Json): Result<int>
      requires Valid()
    {
      if white.None? then Err(ConfigurationError) else FromNumber(white.value.range, value)
    }

    function EncodeColor(c: Rgb): string
      requires c.Valid()
    {
      if format == RgbHex then HexByte(c.r) + HexByte(c.g) + HexByte(c.b)
      else
        var d := ToSteps(c);
        RoundTrip(c);
        HexWord(d.hue) + HexWord(d.saturation) + HexWord(d.value)
    }

    function DecodeColor(value: Json): Result<Rgb> {
      if !value.Str? then Err(ProtocolError)
      else if format == RgbHex then
        if |value.s| != 6 && |value.s| != 8 then Err(ProtocolError) else
          match (ParseHex(value.s[0..2]), ParseHex(value.s[2..4]), ParseHex(value.s[4..6]))
          case (Some(r), Some(g), Some(b)) => MakeRgb(Rgb(r, g, b))
          case _ => Err(ProtocolError)
      else
        if |value.s| != 12 then Err(ProtocolError) else
          match (ParseHex(value.s[0..4]), ParseHex(value.s[4..8]), ParseHex(value.s[8..12]))
          case (Some(h), Some(s), Some(v)) => MakeRgb(FromSteps(Steps(h, s, v)))
          case _ => Err(ProtocolError)
    }
  }

  /** `Rgb.__post_init__`: a plain ValueError outside 0..255. */
  function MakeRgb(c: Rgb): Result<Rgb> {
    if c.Valid() then Ok(c) else Err(ValueError)
  }

  function FromNumber(r: Range, value: Json): Result<int>
    requires r.Valid()
  {
    if !value.Int? && !value.Float? then Err(ProtocolError) else
      var numeric := if value.Int? then value.i else Truncate(value.x);
      if r.Contains(numeric) then Ok(FromDp(r, numeric)) else Err(ProtocolError)
  }

  /** The numbers a range admits; a float counts as its whole part. */
  predicate Admits(r: Range, value: Json) {
    || (value.Int? && r.low <= value.i <= r.high)
    || (value.Float? && (if r.low == 0 then -1.0 < value.x else r.low as real <= value.x)
        && value.x < (r.high + 1) as real)
  }

  /** Reading succeeds exactly of these, a float reads like the whole number it
      begins with, and the channel returned is the nearest one. */
  lemma FromNumberExact(r: Range, value: Json)
    requires r.Valid()
    ensures FromNumber(r, value).Ok? <==> Admits(r, value)
    ensures FromNumber(r, value).Err? ==> FromNumber(r, value).error == ProtocolError
    ensures Admits(r, value) && value.Int? ==>
              var b := FromNumber(r, value).value;
              -r.Span() <= 2 * (b * r.Span() - 255 * (value.i - r.low)) <= r.Span()
    ensures Admits(r, value) && value.Float? ==>
              exists n: int :: r.Contains(n) && FromNumber(r, value) == FromNumber(r, Int(n))
                               && (if value.x < 0.0 then n == 0 else n as real <= value.x < n as real + 1.0)
  {
    if value.Int? { FromDpError(r, value.i); }
    if value.Float? && Admits(r, value) { assert FromNumber(r, value) == FromNumber(r, Int(Truncate(value.x))); }
    hide FromDp;
  }

  /** Every read that succeeds is a channel value. */
  lemma FromNumberRange(r: Range, value: Json)
    requires r.Valid() && FromNumber(r, value).Ok?
    ensures IsChannel(FromNumber(r, value).value)
  {
    InRange(r, 0, if value.Int? then value.i else Truncate(value.x));
  }

  /** The colour a device reports after storing `c`. */
  function Stored(m: DpMapping, c: Rgb): Rgb
    requires c.Valid()
  {
    if m.format == RgbHex then c else FromSteps(ToSteps(c))
  }

  /** Decoding an encoded colour never fails: exact in `rgb_hex`; in `hsv_hex`
      the extreme channels are exact, every channel is within 2, greys are exact. */
  lemma ColorRoundTrip(m: DpMapping, c: Rgb)
    requires c.Valid()
    ensures m.DecodeColor(Str(m.EncodeColor(c))) == Ok(Stored(m, c))
    ensures m.format == RgbHex ==> Stored(m, c) == c
    ensures var e := Stored(m, c);
            && e.Valid() && e.Top() == c.Top() && e.Bottom() == c.Bottom()
            && -2 <= e.r - c.r <= 2 && -2 <= e.g - c.g <= 2 && -2 <= e.b - c.b <= 2
            && (c.Top() == c.Bottom() ==> e == c)
  {
    var s := m.EncodeColor(c);
    if m.format == RgbHex {
      assert s[0..2] == HexByte(c.r) && s[2..4] == HexByte(c.g) && s[4..6] == HexByte(c.b);
      ParseHexByte(c.r);
      ParseHexByte(c.g);
      ParseHexByte(c.b);
    } else {
      RoundTrip(c);
      var d := ToSteps(c);
      assert s[0..4] == HexWord(d.hue) && s[4..8] == HexWord(d.saturation) && s[8..12] == HexWord(d.value);
      ParseHexWord(d.hue);
      ParseHexWord(d.saturation);
      ParseHexWord(d.value);
    }
  }

  /** What becomes of any value of an `rgb_hex` colour: it is a colour exactly
      if it is text of six characters, or eight of which the last two do not
      matter, that are the colour's digits in either case of letter, red, green
      and blue; anything else is a protocol error. */
  lemma RgbExact(m: DpMapping, value: Json, c: Rgb)
    requires m.format == RgbHex
    ensures m.DecodeColor(value) == Ok(c) <==>
            && c.Valid() && value.Str? && (|value.s| == 6 || |value.s| == 8)
            && Lower(value.s[..6]) == HexByte(c.r) + HexByte(c.g) + HexByte(c.b)
    ensures m.DecodeColor(value).Err? ==> m.DecodeColor(value).error == ProtocolError
  {
    if value.Str? && (|value.s| == 6 || |value.s| == 8) {
      var r, g, b := value.s[0..2], value.s[2..4], value.s[4..6];
      ThreeParts(value.s[..6], 2, r, g, b);
      ChannelExact(r, c.r);
      ChannelExact(g, c.g);
      ChannelExact(b, c.b);
      hide ParseHex, HexByte, Lower;
      if c.Valid() { ThreeEqual(Lower(r), Lower(g), Lower(b), HexByte(c.r), HexByte(c.g), HexByte(c.b)); }
    }
  }

  lemma ChannelExact(s: string, n: int)
    requires |s| == 2
    ensures ParseHex(s) == Some(n) <==> 0 <= n < 256 && Lower(s) == HexByte(n)
    ensures ParseHex(s).Some? ==> 0 <= ParseHex(s).value < 256
  {
    HexByteExact(s, n);
    if ParseHex(s).Some? { HexByteExact(s, ParseHex(s).value); }
  }

  lemma ThreeParts(s: string, n: nat, a: string, b: string, c: string)
    requires |s| == 3 * n && a == s[0..n] && b == s[n..2 * n] && c == s[2 * n..3 * n]
    ensures Lower(s) == Lower(a) + Lower(b) + Lower(c) && |Lower(a)| == |Lower(b)| == |Lower(c)| == n
  {}

  lemma ThreeEqual<T>(a: seq<T>, b: seq<T>, c: seq<T>, a': seq<T>, b': seq<T>, c': seq<T>)
    requires |a| == |b| == |c| == |a'| == |b'| == |c'|
    ensures a + b + c == a' + b' + c' <==> a == a' && b == b' && c == c'
  {
    var n, s, s' := |a|, a + b + c, a' + b' + c';
    assert s[..n] == a && s[n..2 * n] == b && s[2 * n..] == c;
    assert s'[..n] == a' && s'[n..2 * n] == b' && s'[2 * n..] == c';
  }

  /** Twelve characters spell exactly the steps whose digits they are, in either
      case of letter: hue, saturation and value. */
  lemma SpelledExact(value: Json, d: Steps)
    ensures SpelledSteps(value) == Some(d) <==>
            && 0 <= d.hue < 65536 && 0 <= d.saturation < 65536 && 0 <= d.value < 65536
            && value.Str? && Lower(value.s) == HexWord(d.hue) + HexWord(d.saturation) + HexWord(d.value)
  {
    if value.Str? && |value.s| == 12 {
      var h, s, v := value.s[0..4], value.s[4..8], value.s[8..12];
      ThreeParts(value.s, 4, h, s, v);
      HexWordExact(h, d.hue);
      HexWordExact(s, d.saturation);
      HexWordExact(v, d.value);
      hide ParseHex, HexByte, Lower;
      if 0 <= d.hue < 65536 && 0 <= d.saturation < 65536 && 0 <= d.value < 65536 {
        ThreeEqual(Lower(h), Lower(s), Lower(v), HexWord(d.hue), HexWord(d.saturation), HexWord(d.value));
      }
    }
  }

  /** The steps that twelve hexadecimal digits spell. */
  function SpelledSteps(value: Json): Option<Steps> {
    if !value.Str? || |value.s| != 12 then None else
      match (ParseHex(value.s[0..4]), ParseHex(value.s[4..8]), ParseHex(value.s[8..12]))
      case (Some(h), Some(s), Some(v)) => Some(Steps(h, s, v))
      case _ => None
  }

  /** What becomes of any value of an `hsv_hex` colour: a protocol error unless
      it is twelve hexadecimal digits; otherwise a colour if and only if the value
      is at most 1001 thousandths and the saturation exceeds 1000 by no more than
      the value allows, and a plain ValueError if it does not. */
  lemma HsvRefusal(m: DpMapping, value: Json)
    requires m.format == HsvHex
    ensures var r, d := m.DecodeColor(value), SpelledSteps(value);
            && (d.None? <==> r == Err(ProtocolError))
            && (d.Some? ==> (r == Err(ValueError) <==>
                               d.value.value > 1001 || 255 * d.value.value * (d.value.saturation - 1000) > 500000))
            && (d.Some? && r != Err(ValueError) ==> r == Ok(FromSteps(d.value)) && FromSteps(d.value).Valid())
  {
    if SpelledSteps(value).Some? {
      ParseHexNatural(value.s[4..8]);
      ParseHexNatural(value.s[8..12]);
      DecodableExact(SpelledSteps(value).value);
    }
    hide FromSteps, ParseHex;
  }

  /** The steps of a colour that no light state can hold. */
  predicate Refuses(m: DpMapping, value: Json) {
    m.format == HsvHex && SpelledSteps(value).Some? && !Decodable(SpelledSteps(value).value)
  }

  /** In either format a colour is refused with a plain ValueError exactly for
      such steps; any other failure is a protocol error. */
  lemma ColorRefusal(m: DpMapping, value: Json)
    ensures m.DecodeColor(value) == Err(ValueError) <==> Refuses(m, value)
    ensures m.DecodeColor(value).Err? ==> m.DecodeColor(value).error in {ProtocolError, ValueError}
  {
    hide DpMapping.DecodeColor, SpelledSteps, FromSteps;
    if m.format == HsvHex { HsvRefusal(m, value); } else { RgbExact(m, value, Rgb(0, 0, 0)); }
  }

  /** A value of 1002 thousandths is refused, and so is a saturation of 1002 at
      full value, whatever the hue; 1001 in either place still decodes. */
  lemma HsvRefused(m: DpMapping, hue: int)
    requires m.format == HsvHex && 0 <= hue < 65536
    ensures m.DecodeColor(Str(HexWord(hue) + HexWord(0) + HexWord(1002))) == Err(ValueError)
    ensures m.DecodeColor(Str(HexWord(hue) + HexWord(1002) + HexWord(1000))) == Err(ValueError)
    ensures m.DecodeColor(Str(HexWord(hue) + HexWord(1001) + HexWord(1001))).Ok?
  {
    Spelled(Steps(hue, 0, 1002));
    Spelled(Steps(hue, 1002, 1000));
    Spelled(Steps(hue, 1001, 1001));
    hide HexWord, SpelledSteps, DpMapping.DecodeColor;
    HsvRefusal(m, Str(HexWord(hue) + HexWord(0) + HexWord(1002)));
    HsvRefusal(m, Str(HexWord(hue) + HexWord(1002) + HexWord(1000)));
    HsvRefusal(m, Str(HexWord(hue) + HexWord(1001) + HexWord(1001)));
  }

  lemma Spelled(d: Steps)
    requires 0 <= d.hue < 65536 && 0 <= d.saturation < 65536 && 0 <= d.value < 65536
    ensures SpelledSteps(Str(HexWord(d.hue) + HexWord(d.saturation) + HexWord(d.value))) == Some(d)
  {
    var s := HexWord(d.hue) + HexWord(d.saturation) + HexWord(d.value);
    assert s[0..4] == HexWord(d.hue) && s[4..8] == HexWord(d.saturation) && s[8..12] == HexWord(d.value);
    ParseHexWord(d.hue);
    ParseHexWord(d.saturation);
    ParseHexWord(d.value);
    hide HexWord, ParseHex;
  }
}
