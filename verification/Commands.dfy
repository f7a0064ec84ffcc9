/** Light commands from end to end: the data points a command writes, a device
    that overwrites what it receives, and the state read back after it. */
module Commands {
  import opened Cache
  import opened Common
  import opened Dps
  import opened Hsv
  import opened Json
  import opened Mapping
  import opened Scaling

  /** The driver's control operations. */
  datatype Command =
    | TurnOn(rgb: Option<Rgb>, level: Option<int>, warm: Option<int>)
    | TurnOff
    | SetBrightness(brightness: int)
    | SetRgb(color: Rgb)
    | SetWhite(white: int)

  // The channels a command sets.

  function PowerSet(c: Command): Option<bool> {
    match c
    case TurnOn(_, _, _) => Some(true)
    case TurnOff => Some(false)
    case _ => None
  }

  function ColorSet(c: Command): Option<Rgb> {
    match c
    case TurnOn(rgb, _, _) => rgb
    case SetRgb(rgb) => Some(rgb)
    case _ => None
  }

  function BrightnessSet(c: Command): Option<int> {
    match c
    case TurnOn(_, level, _) => level
    case SetBrightness(b) => Some(b)
    case _ => None
  }

  function WhiteSet(c: Command): Option<int> {
    match c
    case TurnOn(_, _, warm) => warm
    case SetWhite(w) => Some(w)
    case _ => None
  }

  /** Colours exist only with channels in range. */
  predicate WellFormed(c: Command) { ColorSet(c).Some? ==> ColorSet(c).value.Valid() }

  /** The data points the driver writes for a command. */
  function ValuesFor(m: DpMapping, c: Command): Result<DpMap>
    requires WellFormed(c)
  {
    match c
    case TurnOn(rgb, level, warm) =>
      var on: DpMap := map[m.power := Bool(true)];
      var colored := if rgb.Some? then on[m.color := Str(m.EncodeColor(rgb.value))] else on;
      var dimmed :- (if level.None? then Ok(colored) else WithBrightness(m, colored, level.value));
      if warm.None? then Ok(dimmed) else WithWhite(m, dimmed, warm.value)
    case TurnOff => Ok(map[m.power := Bool(false)])
    case SetBrightness(b) => WithBrightness(m, map[], b)
    case SetRgb(rgb) => Ok(map[m.color := Str(m.EncodeColor(rgb))])
    case SetWhite(w) => WithWhite(m, map[], w)
  }

  function WithBrightness(m: DpMapping, values: DpMap, b: int): Result<DpMap> {
    var n :- m.BrightnessToDp(b);
    Ok(values[m.brightness := Int(n)])
  }

  function WithWhite(m: DpMapping, values: DpMap, w: int): Result<DpMap> {
    var n :- m.WhiteToDp(w);
    Ok(values[m.white.value.dp := Int(n)])
  }

  /** A command is refused before anything is sent exactly when a level lies
      outside 0..255 or the white channel is not configured. */
  lemma CommandAdmitted(m: DpMapping, c: Command)
    requires WellFormed(c)
    ensures ValuesFor(m, c).Ok? <==>
              && (BrightnessSet(c).Some? ==> IsChannel(BrightnessSet(c).value))
              && (WhiteSet(c).Some? ==> m.white.Some? && IsChannel(WhiteSet(c).value))
    ensures ValuesFor(m, c).Err? ==> ValuesFor(m, c).error == ConfigurationError
  {}

  // ---- the device ----

  /** An ideal device takes over the data points of a command body. */
  function Delivered(device: DpMap, body: Json): DpMap {
    match ParseDpsSpec(body)
    case Ok(dps) => device + dps
    case Err(_) => device
  }

  /** The same body, once per attempt of the exchange. */
  function DeliveredTimes(device: DpMap, body: Json, times: nat): DpMap {
    if times == 0 then device else Delivered(DeliveredTimes(device, body, times - 1), body)
  }

  predicate Mapped(m: DpMapping, i: int) {
    i == m.power || i == m.brightness || i == m.color || (m.white.Some? && i == m.white.value.dp)
  }

  /** A reply that reports what a poll asks for - power, brightness and colour -
      as the device has it, and white as the device has it or not at all. */
  ghost predicate Reports(reply: Json, device: DpMap, m: DpMapping) {
    && ParseDpsSpec(reply).Ok?
    && var dps := ParseDpsSpec(reply).value;
       && (forall i :: i == m.power || i == m.brightness || i == m.color ==> SameAt(dps, device, i))
       && (ShowsWhite(reply, m) ==> SameAt(dps, device, m.white.value.dp))
  }

  predicate SameAt(a: DpMap, b: DpMap, i: int) { (i in a <==> i in b) && (i in a ==> a[i] == b[i]) }

  /** Polls under protocols 3.1 to 3.3 do not ask for white. */
  predicate ShowsWhite(reply: Json, m: DpMapping) {
    ParseDpsSpec(reply).Ok? && m.white.Some? && m.white.value.dp in ParseDpsSpec(reply).value
  }

  // ---- the channels of a device ----

  function PowerOf(dps: DpMap, m: DpMapping): Option<bool> {
    if m.power in dps && dps[m.power].Bool? then Some(dps[m.power].b) else None
  }

  function ColorOf(dps: DpMap, m: DpMapping): Option<Rgb> {
    if m.color in dps && m.DecodeColor(dps[m.color]).Ok? then Some(m.DecodeColor(dps[m.color]).value) else None
  }

  function BrightnessOf(dps: DpMap, m: DpMapping): Option<int>
    requires m.Valid()
  {
    if m.brightness in dps && m.BrightnessFromDp(dps[m.brightness]).Ok?
    then Some(m.BrightnessFromDp(dps[m.brightness]).value) else None
  }

  /** A light state is read exactly when every channel decodes, and it holds
      those channels. */
  lemma StateByChannels(deviceId: string, dps: DpMap, m: DpMapping)
    requires m.Valid()
    ensures var s := StateFromDps(deviceId, dps, m);
            && (s.Ok? <==>
                  && PowerOf(dps, m).Some? && ColorOf(dps, m).Some?
                  && BrightnessOf(dps, m).Some? && WhiteOf(dps, m).Ok?)
            && (s.Ok? ==> s.value == LightState(deviceId, PowerOf(dps, m).value, ColorOf(dps, m).value,
                                                 BrightnessOf(dps, m).value, WhiteOf(dps, m).value, 0))
  {}

  /** A reply shows the channels of the device, white only if it reports it. */
  lemma ReportedChannels(reply: Json, device: DpMap, m: DpMapping)
    requires m.Valid() && Reports(reply, device, m)
    ensures var dps := ParseDpsSpec(reply).value;
            && PowerOf(dps, m) == PowerOf(device, m) && ColorOf(dps, m) == ColorOf(device, m)
            && BrightnessOf(dps, m) == BrightnessOf(device, m)
            && WhiteOf(dps, m) == if ShowsWhite(reply, m) then WhiteOf(device, m) else Ok(None)
  {
    var dps := ParseDpsSpec(reply).value;
    assert SameAt(dps, device, m.power) && SameAt(dps, device, m.brightness) && SameAt(dps, device, m.color);
    hide ParseDpsSpec, FromNumber, DpMapping.DecodeColor;
  }

  /** Receiving a command more than once is receiving it once. */
  lemma {:induction false} DeliveredOnce(device: DpMap, body: Json, times: nat)
    requires times >= 1
    ensures DeliveredTimes(device, body, times) == Delivered(device, body)
  {
    if times > 1 {
      DeliveredOnce(device, body, times - 1);
      hide ParseDpsSpec;
    } else {
      assert DeliveredTimes(device, body, 0) == device;
    }
  }

  /** A command writes one data point for each channel it sets, because the
      mapped indexes are distinct. */
  lemma ValuesContent(m: DpMapping, c: Command)
    requires m.Valid() && WellFormed(c) && ValuesFor(m, c).Ok?
    ensures var v := ValuesFor(m, c).value;
            && (m.power in v <==> PowerSet(c).Some?) && (m.color in v <==> ColorSet(c).Some?)
            && (m.brightness in v <==> BrightnessSet(c).Some?)
            && (m.white.Some? ==> (m.white.value.dp in v <==> WhiteSet(c).Some?))
            && (PowerSet(c).Some? ==> v[m.power] == Bool(PowerSet(c).value))
            && (ColorSet(c).Some? ==> v[m.color] == Str(m.EncodeColor(ColorSet(c).value)))
            && (BrightnessSet(c).Some? ==> v[m.brightness] == Int(ToDp(m.range, BrightnessSet(c).value)))
            && (WhiteSet(c).Some? ==>
                 m.white.Some? && v[m.white.value.dp] == Int(ToDp(m.white.value.range, WhiteSet(c).value)))
            && forall i :: i in v ==> Mapped(m, i) && IsIndex(i)
  {
    CommandAdmitted(m, c);
    hide DpMapping.EncodeColor, ToDp;
  }

  /** Writing a command's values sets the channels it names and no other. */
  lemma ValuesSetChannels(device: DpMap, m: DpMapping, c: Command)
    requires m.Valid() && WellFormed(c) && ValuesFor(m, c).Ok?
    ensures var after := device + ValuesFor(m, c).value;
            && PowerOf(after, m) == (if PowerSet(c).Some? then PowerSet(c) else PowerOf(device, m))
            && ColorOf(after, m) == (if ColorSet(c).Some? then Some(Stored(m, ColorSet(c).value))
                 else ColorOf(device, m))
            && BrightnessOf(after, m) == (if BrightnessSet(c).Some? then Some(Rescaled(m.range, BrightnessSet(c).value))
                                          else BrightnessOf(device, m))
            && (WhiteSet(c).Some? ==>
                 m.white.Some? && WhiteOf(after, m) == Ok(Some(Rescaled(m.white.value.range, WhiteSet(c).value))))
            && (WhiteSet(c).None? ==> WhiteOf(after, m) == WhiteOf(device, m))
  {
    ValuesSetLevels(device, m, c);
    ValuesContent(m, c);
    if ColorSet(c).Some? { ColorRoundTrip(m, ColorSet(c).value); }
    hide ValuesFor, BrightnessOf, WhiteOf, DpMapping.EncodeColor, DpMapping.DecodeColor, Stored, ToDp, Rescaled,
      WellFormed, PowerSet, ColorSet, BrightnessSet, WhiteSet;
  }

  lemma ValuesSetLevels(device: DpMap, m: DpMapping, c: Command)
    requires m.Valid() && WellFormed(c) && ValuesFor(m, c).Ok?
    ensures var after := device + ValuesFor(m, c).value;
            && BrightnessOf(after, m) == (if BrightnessSet(c).Some? then Some(Rescaled(m.range, BrightnessSet(c).value))
                                          else BrightnessOf(device, m))
            && (WhiteSet(c).Some? ==>
                 m.white.Some? && WhiteOf(after, m) == Ok(Some(Rescaled(m.white.value.range, WhiteSet(c).value))))
            && (WhiteSet(c).None? ==> WhiteOf(after, m) == WhiteOf(device, m))
  {
    ValuesContent(m, c);
    CommandAdmitted(m, c);
    if BrightnessSet(c).Some? { LevelRead(m.range, BrightnessSet(c).value); }
    if WhiteSet(c).Some? { LevelRead(m.white.value.range, WhiteSet(c).value); }
    hide ValuesFor, FromNumber, DpMapping.EncodeColor, ToDp, Rescaled, WellFormed,
      PowerSet, ColorSet, BrightnessSet, WhiteSet;
  }

  /** The level read back for a level that was written. */
  function Rescaled(r: Range, v: int): int
    requires r.Valid()
  {
    FromDp(r, ToDp(r, v))
  }

  lemma LevelRead(r: Range, v: int)
    requires r.Valid() && IsChannel(v)
    ensures FromNumber(r, Int(ToDp(r, v))) == Ok(Rescaled(r, v))
  {
    InRange(r, v, r.low);
  }

  /** The state a command should leave behind. */
  function Expected(m: DpMapping, s: LightState, c: Command): LightState
    requires m.Valid() && WellFormed(c) && (WhiteSet(c).Some? ==> m.white.Some?)
  {
    s.(on := if PowerSet(c).Some? then PowerSet(c).value else s.on,
       rgb := if ColorSet(c).Some? then Stored(m, ColorSet(c).value) else s.rgb,
       brightness := if BrightnessSet(c).Some? then Rescaled(m.range, BrightnessSet(c).value) else s.brightness,
       white := if WhiteSet(c).Some? then Some(Rescaled(m.white.value.range, WhiteSet(c).value)) else s.white)
  }

  // ---- end to end ----

  /** What the exchange and the poll after it meet: the command body, in
      whatever order its values are listed, reaches the device at least once,
      and the reply reports the mapped data points. */
  ghost predicate Confirmed(m: DpMapping, c: Command, device: DpMap, version: Version, deviceId: string, time: int,
                            listing: seq<(nat, Json)>, times: nat, reply: Json)
    requires WellFormed(c)
  {
    && ValuesFor(m, c).Ok? && Lists(listing, ValuesFor(m, c).value) && times >= 1
    && Reports(reply, DeliveredTimes(device, CommandBody(version, deviceId, time, listing), times), m)
  }

  lemma DeviceAfter(m: DpMapping, c: Command, device: DpMap, version: Version, deviceId: string, time: int,
                    listing: seq<(nat, Json)>, times: nat)
    requires m.Valid() && WellFormed(c) && ValuesFor(m, c).Ok? && Lists(listing, ValuesFor(m, c).value) && times >= 1
    ensures DeliveredTimes(device, CommandBody(version, deviceId, time, listing), times) ==
            device + ValuesFor(m, c).value
  {
    ValuesContent(m, c);
    hide ValuesFor, Lists, CommandBody, ParseDpsSpec;
    DpsRoundTrip(version, deviceId, time, listing, ValuesFor(m, c).value);
    DeliveredOnce(device, CommandBody(version, deviceId, time, listing), times);
  }

  /** The expected state, as far as the reply shows it. */
  function Shown(s: LightState, white: bool): LightState { if white then s else s.(white := None) }

  /** The command is confirmed exactly when every channel that it does not set
      and that the reply shows was readable before; then the state read back is
      the one expected: the channels it sets have their new values, all others
      their old ones.  A reply without white gives a state without white. */
  lemma CommandTakesEffect(m: DpMapping, c: Command, device: DpMap, version: Version, deviceId: string, time: int,
                           listing: seq<(nat, Json)>, times: nat, reply: Json)
    requires m.Valid() && WellFormed(c) && Confirmed(m, c, device, version, deviceId, time, listing, times, reply)
    ensures var s := StateFromDps(deviceId, ParseDpsSpec(reply).value, m);
            && (s.Ok? <==>
                  && (PowerSet(c).Some? || PowerOf(device, m).Some?) && (ColorSet(c).Some? || ColorOf(device, m).Some?)
                  && (BrightnessSet(c).Some? || BrightnessOf(device, m).Some?)
                  && (ShowsWhite(reply, m) ==> WhiteSet(c).Some? || WhiteOf(device, m).Ok?))
            && (StateFromDps(deviceId, device, m).Ok? ==>
                  && (WhiteSet(c).Some? ==> m.white.Some?)
                  && s == Ok(Shown(Expected(m, StateFromDps(deviceId, device, m).value, c), ShowsWhite(reply, m))))
  {
    var after := device + ValuesFor(m, c).value;
    DeviceAfter(m, c, device, version, deviceId, time, listing, times);
    ReportedChannels(reply, after, m);
    ValuesSetChannels(device, m, c);
    StateByChannels(deviceId, ParseDpsSpec(reply).value, m);
    StateByChannels(deviceId, device, m);
    hide ValuesFor, Lists, CommandBody, ParseDpsSpec, StateFromDps, PowerOf, ColorOf, BrightnessOf, WhiteOf,
      Rescaled, Stored, DeliveredTimes, ShowsWhite, Reports;
  }

  /** So the poll that follows a command adopts the expected state, one revision on. */
  lemma CommandReadBack(cache: Cache, m: DpMapping, c: Command, device: DpMap, version: Version, time: int,
                        listing: seq<(nat, Json)>, times: nat, reply: Json)
    requires cache.setting.mapping == Some(m) && WellFormed(c)
    requires Confirmed(m, c, device, version, cache.setting.deviceId, time, listing, times, reply)
    requires StateFromDps(cache.setting.deviceId, device, m).Ok?
    ensures WhiteSet(c).Some? ==> m.white.Some?
    ensures var expected := Expected(m, StateFromDps(cache.setting.deviceId, device, m).value, c);
            Apply(cache, Poll(reply)).state == Some(Revisioned(cache, Shown(expected, ShowsWhite(reply, m))))
  {
    hide Expected, Shown, ShowsWhite, StateFromDps, ParseDpsSpec, Lists, ValuesFor, DeliveredTimes, Apply, CommandBody,
      PowerOf, ColorOf, BrightnessOf, WhiteOf, DpMapping.Valid;
    CommandTakesEffect(m, c, device, version, cache.setting.deviceId, time, listing, times, reply);
    PollAdopts(cache, m, reply);
  }

  lemma PollAdopts(cache: Cache, m: DpMapping, reply: Json)
    requires cache.setting.mapping == Some(m) && ParseDpsSpec(reply).Ok?
    requires StateFromDps(cache.setting.deviceId, ParseDpsSpec(reply).value, m).Ok?
    ensures Apply(cache, Poll(reply)).state ==
            Some(Revisioned(cache, StateFromDps(cache.setting.deviceId, ParseDpsSpec(reply).value, m).value))
  {
    hide StateFromDps, ParseDpsSpec;
  }

  /** What was asked for is what is read: power exactly; brightness and white
      exactly when the span is at least 255, and otherwise within half a channel
      step and half a device step; colours exactly in `rgb_hex`, and within 2 per
      channel with the same extremes in `hsv_hex`. */
  lemma ExpectedIsRequested(m: DpMapping, s: LightState, c: Command)
    requires m.Valid() && WellFormed(c) && ValuesFor(m, c).Ok?
    ensures WhiteSet(c).Some? ==> m.white.Some?
    ensures var e := Expected(m, s, c);
            && (PowerSet(c).Some? ==> e.on == PowerSet(c).value)
            && (BrightnessSet(c).Some? ==> Nearly(m.range, e.brightness, BrightnessSet(c).value))
            && (WhiteSet(c).Some? ==> e.white.Some? && Nearly(m.white.value.range, e.white.value, WhiteSet(c).value))
            && (ColorSet(c).Some? && m.format == RgbHex ==> e.rgb == ColorSet(c).value)
            && (ColorSet(c).Some? ==> Near(e.rgb, ColorSet(c).value))
  {
    CommandAdmitted(m, c);
    if ColorSet(c).Some? { StoredNear(m, ColorSet(c).value); }
    if BrightnessSet(c).Some? { RescaledNearly(m.range, BrightnessSet(c).value); }
    if WhiteSet(c).Some? { RescaledNearly(m.white.value.range, WhiteSet(c).value); }
    hide ValuesFor, Rescaled, Stored, Near, Nearly, WellFormed, PowerSet, ColorSet, BrightnessSet, WhiteSet;
  }

  predicate Nearly(r: Range, got: int, asked: int) {
    && (r.Span() >= 255 ==> got == asked)
    && 2 * r.Span() * Abs(got - asked) <= 254 + r.Span()
  }

  predicate Near(e: Rgb, c: Rgb) {
    && e.Top() == c.Top() && e.Bottom() == c.Bottom()
    && Abs(e.r - c.r) <= 2 && Abs(e.g - c.g) <= 2 && Abs(e.b - c.b) <= 2
  }

  lemma StoredNear(m: DpMapping, c: Rgb)
    requires c.Valid()
    ensures Near(Stored(m, c), c) && (m.format == RgbHex ==> Stored(m, c) == c)
  {
    ColorRoundTrip(m, c);
    hide Stored, DpMapping.EncodeColor, DpMapping.DecodeColor, Rgb.Top, Rgb.Bottom;
  }

  lemma RescaledNearly(r: Range, v: int)
    requires r.Valid() && IsChannel(v)
    ensures Nearly(r, Rescaled(r, v), v)
  {
    RoundTripError(r, v);
    if r.Span() >= 255 { FromTo(r, v); }
  }
}
