/** Indexed data points: extracting them from a reply, mapping them to a light
    state, and printing them into the two command bodies. */
module Dps {
  import opened Common
  import opened Hsv
  import opened Json
  import opened Mapping
  import opened Text

  type DpMap = map<int, Json>

  predicate IsIndex(i: int) { 1 <= i <= 255 }

  // ---- parse_dps ----

  /** The entries read so far, the last one added to `before`. */
  function AddEntry(before: Result<DpMap>, member: (string, Json)): Result<DpMap> {
    if before.Err? then before else
      match ParseDecimal(member.0)
      case Some(i) => if IsIndex(i) then Ok(before.value[i := member.1]) else Err(ProtocolError)
      case None => Err(ProtocolError)
  }

  function Entries(members: seq<(string, Json)>): Result<DpMap> {
    if members == [] then Ok(map[])
    else AddEntry(Entries(members[..|members| - 1]), members[|members| - 1])
  }

  /** The object holding the indexed values: `dps`, or `data.dps` if that is null. */
  function DpsObject(payload: Json): Json {
    if !payload.Obj? then Null else
      var direct := GetOrNull(payload.members, "dps");
      var data := GetOrNull(payload.members, "data");
      if direct.Null? && data.Obj? then GetOrNull(data.members, "dps") else direct
  }

  function ParseDpsSpec(payload: Json): Result<DpMap> {
    if DpsObject(payload).Obj? then Entries(DpsObject(payload).members) else Err(ProtocolError)
  }

  lemma EntriesSticky(members: seq<(string, Json)>, n: nat)
    requires n <= |members| && Entries(members[..n]).Err?
    ensures Entries(members).Err? && Entries(members) == Entries(members[..n])
  {
    if n < |members| {
      assert members[..|members| - 1][..n] == members[..n];
      EntriesSticky(members[..|members| - 1], n);
    } else {
      assert members[..n] == members;
    }
  }

  method ParseDps(payload: Json) returns (r: Result<DpMap>)
    ensures r == ParseDpsSpec(payload)
  {
    if !payload.Obj? {
      return Err(ProtocolError);
    }
    var dps := GetOrNull(payload.members, "dps");
    var data := GetOrNull(payload.members, "data");
    if dps.Null? && data.Obj? {
      dps := GetOrNull(data.members, "dps");
    }
    if !dps.Obj? {
      return Err(ProtocolError);
    }
    var result: DpMap := map[];
    var n := 0;
    while n < |dps.members|
      invariant n <= |dps.members|
      invariant Entries(dps.members[..n]) == Ok(result)
    {
      var (rawIndex, value) := dps.members[n];
      var index := ParseDecimal(rawIndex);
      assert dps.members[..n + 1][..n] == dps.members[..n];
      if index.None? || !IsIndex(index.value) {
        EntriesSticky(dps.members, n + 1);
        return Err(ProtocolError);
      }
      result := result[index.value := value];
      n := n + 1;
    }
    assert dps.members[..n] == dps.members;
    return Ok(result);
  }

  /** The member that decides index `i`: the last one whose key reads as `i`. */
  ghost predicate Decides(members: seq<(string, Json)>, i: int, k: nat) {
    && k < |members| && ParseDecimal(members[k].0) == Some(i)
    && forall j :: k < j < |members| ==> ParseDecimal(members[j].0) != Some(i)
  }

  lemma {:induction false} EntriesIndexes(members: seq<(string, Json)>)
    requires Entries(members).Ok?
    ensures forall i :: i in Entries(members).value ==> IsIndex(i)
    ensures forall k :: 0 <= k < |members| ==>
              ParseDecimal(members[k].0).Some? && ParseDecimal(members[k].0).value in Entries(members).value
  {
    if members != [] { EntriesIndexes(members[..|members| - 1]); }
  }

  /** The entries are accepted exactly if every key reads as an index. */
  lemma {:induction false} EntriesExact(members: seq<(string, Json)>)
    ensures Entries(members).Ok? <==>
            forall k :: 0 <= k < |members| ==>
              ParseDecimal(members[k].0).Some? && IsIndex(ParseDecimal(members[k].0).value)
    ensures Entries(members).Err? ==> Entries(members).error == ProtocolError
  {
    if members != [] { EntriesExact(members[..|members| - 1]); }
    hide ParseDecimal;
  }

  /** An object under `dps` carries the data points; only without one, or if it
      is null, does one under `data.dps`; anything else carries none. */
  lemma ParseDpsExact(payload: Json, members: seq<(string, Json)>)
    ensures payload.Obj? && Get(payload.members, "dps") == Some(Obj(members)) ==>
              ParseDpsSpec(payload) == Entries(members)
    ensures && payload.Obj? && Get(payload.members, "dps") in {None, Some(Null)}
            && Get(payload.members, "data").Some? && Get(payload.members, "data").value.Obj?
            && Get(Get(payload.members, "data").value.members, "dps") == Some(Obj(members)) ==>
              ParseDpsSpec(payload) == Entries(members)
    ensures ParseDpsSpec(payload).Ok? ==>
            && payload.Obj?
            && (|| (Get(payload.members, "dps").Some? && Get(payload.members, "dps").value.Obj?)
                || (&& Get(payload.members, "dps") in {None, Some(Null)}
                    && Get(payload.members, "data").Some? && Get(payload.members, "data").value.Obj?))
  {
    hide Get, Entries;
  }

  lemma ParseDpsErrors(payload: Json)
    ensures ParseDpsSpec(payload).Err? ==> ParseDpsSpec(payload).error == ProtocolError
  {
    if DpsObject(payload).Obj? { EntriesExact(DpsObject(payload).members); }
  }

  lemma {:induction false} EntryDecided(members: seq<(string, Json)>, i: int) returns (k: nat)
    requires Entries(members).Ok? && i in Entries(members).value
    ensures Decides(members, i, k) && Entries(members).value[i] == members[k].1
  {
    var last := |members| - 1;
    if ParseDecimal(members[last].0) == Some(i) {
      k := last;
    } else {
      k := EntryDecided(members[..last], i);
    }
  }

  /** Every accepted index lies in 1..255; the accepted map holds exactly the
      indexes that occur, each with the value of its last occurrence. */
  lemma ParseDpsMeaning(payload: Json)
    requires ParseDpsSpec(payload).Ok?
    ensures var members, dps := DpsObject(payload).members, ParseDpsSpec(payload).value;
            && (forall i :: i in dps ==> IsIndex(i))
            && (forall k :: 0 <= k < |members| ==>
                 ParseDecimal(members[k].0).Some? && ParseDecimal(members[k].0).value in dps)
            && (forall i :: i in dps ==> exists k: nat :: Decides(members, i, k) && dps[i] == members[k].1)
  {
    var members, dps := DpsObject(payload).members, ParseDpsSpec(payload).value;
    EntriesIndexes(members);
    forall i | i in dps ensures exists k: nat :: Decides(members, i, k) && dps[i] == members[k].1 {
      var k := EntryDecided(members, i);
    }
  }

  // ---- state_from_dps ----

  datatype LightState = LightState(deviceId: string, on: bool, rgb: Rgb, brightness: int, white: Option<int>,
                                   revision: nat)

  function StateFromDps(deviceId: string, dps: DpMap, m: DpMapping): Result<LightState>
    requires m.Valid()
  {
    if m.power !in dps || !dps[m.power].Bool? then Err(ProtocolError)
    else if m.brightness !in dps || m.color !in dps then Err(ProtocolError)
    else
      var rgb :- m.DecodeColor(dps[m.color]);
      var brightness :- m.BrightnessFromDp(dps[m.brightness]);
      var white :- WhiteOf(dps, m);
      Ok(LightState(deviceId, dps[m.power].b, rgb, brightness, white, 0))
  }

  function WhiteOf(dps: DpMap, m: DpMapping): Result<Option<int>>
    requires m.Valid()
  {
    if m.white.Some? && m.white.value.dp in dps then
      var w :- m.WhiteFromDp(dps[m.white.value.dp]);
      Ok(Some(w))
    else Ok(None)
  }

  /** The data points hold a power, a brightness and a colour, the colour one
      that no light state can hold. */
  predicate PlainRefusal(dps: DpMap, m: DpMapping) {
    && m.power in dps && dps[m.power].Bool? && m.brightness in dps && m.color in dps
    && Refuses(m, dps[m.color])
  }

  /** When data points decode, and how they fail: with a plain ValueError
      exactly for a refused colour, with a protocol error otherwise. */
  lemma StateFromDpsExact(deviceId: string, dps: DpMap, m: DpMapping)
    requires m.Valid()
    ensures StateFromDps(deviceId, dps, m).Ok? <==>
            && m.power in dps && dps[m.power].Bool? && m.brightness in dps && m.color in dps
            && m.DecodeColor(dps[m.color]).Ok? && Admits(m.range, dps[m.brightness])
            && (m.white.Some? && m.white.value.dp in dps ==> Admits(m.white.value.range, dps[m.white.value.dp]))
    ensures StateFromDps(deviceId, dps, m) == Err(ValueError) <==> PlainRefusal(dps, m)
    ensures StateFromDps(deviceId, dps, m).Err? && !PlainRefusal(dps, m) ==>
              StateFromDps(deviceId, dps, m) == Err(ProtocolError)
  {
    if m.color in dps { ColorRefusal(m, dps[m.color]); }
    if m.brightness in dps { FromNumberExact(m.range, dps[m.brightness]); }
    if m.white.Some? && m.white.value.dp in dps {
      FromNumberExact(m.white.value.range, dps[m.white.value.dp]);
    }
    hide DpMapping.DecodeColor, FromNumber, Admits, Refuses;
  }

  /** Each part of a light state is the decode of its own data point. */
  lemma StateFromDpsParts(deviceId: string, dps: DpMap, m: DpMapping)
    requires m.Valid() && StateFromDps(deviceId, dps, m).Ok?
    ensures var s := StateFromDps(deviceId, dps, m).value;
            && s.deviceId == deviceId && Bool(s.on) == dps[m.power] && Ok(s.rgb) == m.DecodeColor(dps[m.color])
            && Ok(s.brightness) == FromNumber(m.range, dps[m.brightness])
            && (s.white.Some? <==> m.white.Some? && m.white.value.dp in dps)
            && (s.white.Some? ==> Ok(s.white.value) == FromNumber(m.white.value.range, dps[m.white.value.dp]))
  {
    hide DpMapping.DecodeColor, FromNumber;
  }

  /** Only the mapped data points matter. */
  lemma StateDependsOnMapped(deviceId: string, dps: DpMap, other: DpMap, m: DpMapping)
    requires m.Valid()
    requires forall i | i in {m.power, m.brightness, m.color} || (m.white.Some? && i == m.white.value.dp) ::
               (i in dps <==> i in other) && (i in dps ==> dps[i] == other[i])
    ensures StateFromDps(deviceId, dps, m) == StateFromDps(deviceId, other, m)
  {
    assert m.power in {m.power, m.brightness, m.color};
    assert m.brightness in {m.power, m.brightness, m.color};
    assert m.color in {m.power, m.brightness, m.color};
  }

  // ---- command bodies ----

  datatype Version = V31 | V32 | V33 | V34

  /** A listing of a map: each index once, in any order. */
  ghost predicate Lists(listing: seq<(nat, Json)>, values: DpMap) {
    && (forall k :: 0 <= k < |listing| ==> listing[k].0 in values && values[listing[k].0] == listing[k].1)
    && (forall j, k :: 0 <= j < k < |listing| ==> listing[j].0 != listing[k].0)
    && (forall i :: i in values ==> exists k :: 0 <= k < |listing| && listing[k].0 == i)
  }

  function PrintEntries(listing: seq<(nat, Json)>): seq<(string, Json)>
  {
    seq(|listing|, k requires 0 <= k < |listing| => (Decimal(listing[k].0), listing[k].1))
  }

  /** The body `_set_values` sends, members in the sorted order of its JSON text. */
  function CommandBody(version: Version, deviceId: string, time: int, listing: seq<(nat, Json)>): Json
  {
    var dps := Obj(PrintEntries(listing));
    if version == V34
    then Obj([("data", Obj([("dps", dps)])), ("protocol", Int(5)), ("t", Int(time))])
    else Obj([("devId", Str(deviceId)), ("dps", dps), ("t", Int(time)), ("uid", Str(deviceId))])
  }

  /** Dropping the last entry of a listing lists the map without that index. */
  lemma ListsFront(listing: seq<(nat, Json)>, values: DpMap)
    requires Lists(listing, values) && listing != []
    ensures var i := listing[|listing| - 1].0;
            Lists(listing[..|listing| - 1], values - {i}) && i in values && values[i] == listing[|listing| - 1].1
  {
    var last := |listing| - 1;
    var front, rest := listing[..last], values - {listing[last].0};
    forall j | j in rest ensures exists k :: 0 <= k < |front| && front[k].0 == j {
      var k :| 0 <= k < |listing| && listing[k].0 == j;
      assert front[k].0 == j;
    }
  }

  lemma {:induction false} PrintedEntries(listing: seq<(nat, Json)>, values: DpMap)
    requires Lists(listing, values) && forall i :: i in values ==> IsIndex(i)
    ensures Entries(PrintEntries(listing)) == Ok(values)
  {
    if listing == [] {
      assert forall i :: i !in values;
      assert values == map[];
    } else {
      hide Lists, Decimal, ParseDecimal;
      var last := |listing| - 1;
      var i := listing[last].0;
      ListsFront(listing, values);
      PrintedEntries(listing[..last], values - {i});
      assert PrintEntries(listing)[..last] == PrintEntries(listing[..last]);
      DecimalRoundTrip(i);
      assert (values - {i})[i := listing[last].1] == values;
    }
  }

  lemma CommandBodyDps(version: Version, deviceId: string, time: int, listing: seq<(nat, Json)>)
    ensures DpsObject(CommandBody(version, deviceId, time, listing)) == Obj(PrintEntries(listing))
  {
    var body := CommandBody(version, deviceId, time, listing);
    var m := body.members;
    if version == V34 {
      assert Get(m[1..][1..][1..], "dps") == None;
      assert Get(m[1..][1..], "dps") == None && Get(m[1..], "dps") == None;
      assert GetOrNull(m, "dps") == Null;
    } else {
      assert Get(m[1..], "dps") == Some(Obj(PrintEntries(listing)));
    }
  }

  /** What else a command body says: under protocol 3.4 the protocol number 5 and
      the time, in the others the time and the device id, twice. */
  lemma CommandBodyFields(version: Version, deviceId: string, time: int, listing: seq<(nat, Json)>)
    ensures var m := CommandBody(version, deviceId, time, listing).members;
            && Get(m, "t") == Some(Int(time))
            && (version == V34 ==> |m| == 3 && Get(m, "protocol") == Some(Int(5)) && Get(m, "data").Some?)
            && (version != V34 ==> |m| == 4 && Get(m, "devId") == Some(Str(deviceId))
                                   && Get(m, "uid") == Some(Str(deviceId)) && Get(m, "dps").Some?)
  {
    var m := CommandBody(version, deviceId, time, listing).members;
    assert "protocol"[0] == 'p' && "data"[0] == 'd' && "devId"[0] == 'd' && "dps"[0] == 'd' && "uid"[0] == 'u';
    assert "t"[0] == 't' && |"dps"| == 3 && |"devId"| == 5;
    if version == V34 {
      assert Get(m[1..], "protocol") == Some(Int(5));
      assert Get(m[1..][1..], "t") == Get(m[1..], "t") == Get(m, "t");
    } else {
      assert Get(m[1..], "dps") == Get(m, "dps");
      assert Get(m[1..][1..], "t") == Get(m[1..], "t") == Get(m, "t");
      assert Get(m[1..][1..][1..], "uid") == Some(Str(deviceId));
      assert Get(m[1..][1..], "uid") == Get(m[1..], "uid") == Get(m, "uid") == Some(Str(deviceId));
    }
  }

  /** Data points survive the wire: whatever the protocol version, and in
      whatever order a map with indexes 1..255 is listed, printing it into the
      command body and reading the body back returns the map. */
  lemma DpsRoundTrip(version: Version, deviceId: string, time: int, listing: seq<(nat, Json)>, values: DpMap)
    requires Lists(listing, values) && forall i :: i in values ==> IsIndex(i)
    ensures ParseDpsSpec(CommandBody(version, deviceId, time, listing)) == Ok(values)
  {
    CommandBodyDps(version, deviceId, time, listing);
    PrintedEntries(listing, values);
  }

  /** An index outside 1..255, or a key that is no number, spoils the whole reply. */
  lemma BadIndexRefused(members: seq<(string, Json)>, k: nat)
    requires k < |members|
    requires ParseDecimal(members[k].0).None? || !IsIndex(ParseDecimal(members[k].0).value)
    ensures Entries(members) == Err(ProtocolError)
  {
    EntriesExact(members);
  }
}
