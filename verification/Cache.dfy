/** The driver's cache of data points (`_raw_dps`) and of the light state
    (`_state`), as a function of the history of replies, pushes and resets. */
module Cache {
  import opened Common
  import opened Dps
  import opened Json
  import opened Mapping

  /** The device a reply belongs to: its id and data-point mapping, if any. */
  datatype Setting = Setting(deviceId: string, mapping: Option<DpMapping>) {
    predicate Valid() { mapping.Some? ==> mapping.value.Valid() }
  }

  type ValidSetting = s: Setting | s.Valid() witness Setting("", None)

  datatype Cache = Cache(setting: ValidSetting, raw: DpMap, state: Option<LightState>)

  /** Payloads are JSON values; text that is no JSON counts as null. */
  datatype Event =
    | Poll(payload: Json)
    | Inspect(payload: Json)
    | Push(payload: Json)
    | Reset(setting: ValidSetting)

  /** `_revisioned` */
  function Revisioned(c: Cache, s: LightState): LightState {
    s.(revision := if c.state.None? then 0 else c.state.value.revision + 1)
  }

  function Decoded(c: Cache): Result<LightState> {
    if c.setting.mapping.None? then Err(ConfigurationError)
    else StateFromDps(c.setting.deviceId, c.raw, c.setting.mapping.value)
  }

  /** Adopt the light state the data points decode to, if they do. */
  function Refresh(c: Cache): Cache {
    match Decoded(c)
    case Ok(s) => c.(state := Some(Revisioned(c, s)))
    case Err(_) => c
  }

  /** The data points after an event: replies replace them, pushes merge. */
  function RawAfter(c: Cache, e: Event): DpMap {
    if e.Reset? then c.raw else
      match ParseDpsSpec(e.payload)
      case Err(_) => c.raw
      case Ok(dps) =>
        if e.Push? then c.raw + dps
        else if e.Poll? && c.setting.mapping.None? then c.raw   // refused before anything is sent
        else dps
  }

  predicate Parsed(e: Event) { !e.Reset? && ParseDpsSpec(e.payload).Ok? }

  function Apply(c: Cache, e: Event): Cache {
    if e.Reset? then Cache(e.setting, c.raw, None) else
      var merged := c.(raw := RawAfter(c, e));
      if e.Inspect? || !Parsed(e) then merged else Refresh(merged)
  }

  /** The cache after a history that starts from nothing. */
  function After(start: ValidSetting, history: seq<Event>): Cache {
    if history == [] then Cache(start, map[], None)
    else Apply(After(start, history[..|history| - 1]), history[|history| - 1])
  }

  function Upto(start: ValidSetting, history: seq<Event>, k: nat): Cache
    requires k < |history|
  {
    After(start, history[..k + 1])
  }

  /** A push that ends the reader: it has data points, and together with those
      in the cache they hold a power, a brightness and a colour that no light
      state can hold.  Every other push is used or ignored. */
  predicate EndsReader(c: Cache, payload: Json) {
    && c.setting.mapping.Some? && ParseDpsSpec(payload).Ok?
    && PlainRefusal(c.raw + ParseDpsSpec(payload).value, c.setting.mapping.value)
  }

  // ---- what the data points are ----

  /** Event k replaced the data points and no later event did. */
  ghost predicate Baseline(start: ValidSetting, history: seq<Event>, k: nat) {
    && k < |history| && Replaces(start, history, k)
    && forall j: nat :: k < j < |history| ==> !Replaces(start, history, j)
  }

  predicate Replaces(start: ValidSetting, history: seq<Event>, k: nat)
    requires k < |history|
  {
    && Parsed(history[k])
    && (history[k].Inspect? || (history[k].Poll? && After(start, history[..k]).setting.mapping.Some?))
  }

  /** Event j supplies a value for index i: as the baseline k or as a later push. */
  predicate Supplies(history: seq<Event>, k: nat, j: nat, i: int)
    requires k <= j < |history|
  {
    && Parsed(history[j]) && i in ParseDpsSpec(history[j].payload).value
    && (j == k || history[j].Push?)
  }

  ghost predicate LastSupply(history: seq<Event>, k: nat, j: nat, i: int) {
    && k <= j < |history| && Supplies(history, k, j, i)
    && forall l: nat :: j < l < |history| ==> !Supplies(history, k, l, i)
  }

  lemma LastSupplyExtends(history: seq<Event>, k: nat, j: nat, i: int, e: Event)
    requires LastSupply(history, k, j, i)
    requires !Supplies(history + [e], k, |history|, i)
    ensures LastSupply(history + [e], k, j, i)
  {
    var longer := history + [e];
    forall l: nat | j < l < |longer| ensures !Supplies(longer, k, l, i) {
      if l < |history| {
        assert longer[l] == history[l];
        assert !Supplies(history, k, l, i);
      }
    }
    assert longer[j] == history[j];
  }

  /** After a reply, each data point has the value of the latest event that
      supplied it: the reply itself or a push since.  A push that does not
      decode counts like any other. */
  lemma {:induction false} RawTracksHistory(start: ValidSetting, history: seq<Event>, k: nat, i: int)
    requires Baseline(start, history, k)
    ensures i in After(start, history).raw <==> exists j: nat :: LastSupply(history, k, j, i)
    ensures forall j: nat :: LastSupply(history, k, j, i) ==>
              i in After(start, history).raw
                && After(start, history).raw[i] == ParseDpsSpec(history[j].payload).value[i]
  {
    var last := |history| - 1;
    var front, e := history[..last], history[last];
    assert history == front + [e];
    RawAfterStep(After(start, front), e);
    if Supplies(history, k, last, i) {
      assert LastSupply(history, k, last, i);
      assert forall j: nat :: LastSupply(history, k, j, i) ==> j == last;
    } else if k < last {
      forall l: nat | l < last ensures Replaces(start, front, l) == Replaces(start, history, l) {
        assert front[l] == history[l] && front[..l] == history[..l];
      }
      assert Baseline(start, front, k);
      RawTracksHistory(start, front, k, i);
      forall j: nat | LastSupply(history, k, j, i) ensures LastSupply(front, k, j, i) {
        forall l: nat | k <= l < last ensures Supplies(front, k, l, i) == Supplies(history, k, l, i) {
          assert front[l] == history[l];
        }
      }
      forall j: nat | LastSupply(front, k, j, i) ensures LastSupply(history, k, j, i) {
        LastSupplyExtends(front, k, j, i, e);
      }
      assert !Replaces(start, history, last) && history[..last] == front;
    } else {
      assert history[..last] == front;
    }
  }

  /** Only the data points of the event itself decide what it does to them. */
  lemma RawAfterStep(c: Cache, e: Event)
    ensures Apply(c, e).raw == RawAfter(c, e)
  {}

  // ---- whose data points they are ----

  /** The event each data point comes from. */
  function Origin(start: ValidSetting, history: seq<Event>): map<int, nat> {
    if history == [] then map[] else
      var last := |history| - 1;
      var before := Origin(start, history[..last]);
      if Replaces(start, history, last) then From(ParseDpsSpec(history[last].payload).value, last)
      else if history[last].Push? && Parsed(history[last])
      then before + From(ParseDpsSpec(history[last].payload).value, last)
      else before
  }

  function From(dps: DpMap, event: nat): map<int, nat> { map i | i in dps :: event }

  /** Every data point has exactly the value its event supplied. */
  lemma {:induction false} OriginSupplies(start: ValidSetting, history: seq<Event>)
    ensures var raw, origin := After(start, history).raw, Origin(start, history);
            && raw.Keys == origin.Keys
            && forall i :: i in origin ==>
                 && origin[i] < |history| && Parsed(history[origin[i]])
                 && i in ParseDpsSpec(history[origin[i]].payload).value
                 && raw[i] == ParseDpsSpec(history[origin[i]].payload).value[i]
  {
    if history != [] {
      var last := |history| - 1;
      OriginSupplies(start, history[..last]);
      RawAfterStep(After(start, history[..last]), history[last]);
      hide ParseDpsSpec;
    }
  }

  /** A reply has replaced the data points since event r. */
  ghost predicate RepliedSince(start: ValidSetting, history: seq<Event>, r: nat) {
    exists k: nat :: r < k < |history| && Replaces(start, history, k)
  }

  /** A push since event r carried data point i. */
  ghost predicate PushedSince(history: seq<Event>, r: nat, i: int) {
    exists k: nat :: r < k < |history| && Pushes(history[k], i)
  }

  predicate Pushes(e: Event, i: int) { e.Push? && Parsed(e) && i in ParseDpsSpec(e.payload).value }

  lemma SinceStep(start: ValidSetting, history: seq<Event>, r: nat, i: int)
    requires r + 1 < |history|
    ensures var last := |history| - 1;
            && (RepliedSince(start, history, r) <==>
                  RepliedSince(start, history[..last], r) || Replaces(start, history, last))
            && (PushedSince(history, r, i) <==> PushedSince(history[..last], r, i) || Pushes(history[last], i))
  {
    hide After, Parsed, Pushes;
    var last := |history| - 1;
    var front := history[..last];
    forall k: nat | k < last ensures front[k] == history[k]
      && Replaces(start, front, k) == Replaces(start, history, k) {
      assert front[..k] == history[..k];
    }
    if k: nat :| r < k < |front| && Replaces(start, front, k) { assert Replaces(start, history, k); }
    if k: nat :| r < k < |history| && Replaces(start, history, k) { assert k < last ==> Replaces(start, front, k); }
    if k: nat :| r < k < |front| && Pushes(front[k], i) { assert Pushes(history[k], i); }
    if k: nat :| r < k < |history| && Pushes(history[k], i) { assert k < last ==> Pushes(front[k], i); }
  }

  /** A data point is younger than a reset exactly if a reply has come since or
      a push has carried it; without either it is there if it was there then. */
  lemma {:induction false} OriginSince(start: ValidSetting, history: seq<Event>, r: nat, i: int)
    requires r < |history| && history[r].Reset?
    ensures i in Origin(start, history) ==>
              (Origin(start, history)[i] > r <==> RepliedSince(start, history, r) || PushedSince(history, r, i))
    ensures !RepliedSince(start, history, r) ==>
              (i in Origin(start, history) <==> i in Origin(start, history[..r]) || PushedSince(history, r, i))
  {
    var last := |history| - 1;
    OriginSupplies(start, history[..last]);
    if r < last {
      assert history[..last][..r] == history[..r];
      OriginSince(start, history[..last], r, i);
      SinceStep(start, history, r, i);
    }
    hide ParseDpsSpec, After, RepliedSince, PushedSince;
  }

  /** The data points with these indexes all come from events after event r. */
  ghost predicate OwnData(start: ValidSetting, history: seq<Event>, r: nat, indexes: set<int>) {
    forall i :: i in indexes && i in Origin(start, history) ==> Origin(start, history)[i] > r
  }

  /** A reset keeps the data points of the previous device.  So a light state
      is decoded from its own device's data alone - take the mapped indexes -
      if and only if a reply has come since the reset, or pushes have carried
      every one of those data points that the previous device had left. */
  lemma OwnDataExactly(start: ValidSetting, history: seq<Event>, r: nat, indexes: set<int>)
    requires r < |history| && history[r].Reset?
    ensures OwnData(start, history, r, indexes) <==>
            || RepliedSince(start, history, r)
            || forall i :: i in indexes && i in After(start, history[..r]).raw ==> PushedSince(history, r, i)
  {
    OriginSupplies(start, history[..r]);
    forall i ensures i in Origin(start, history) ==>
              (Origin(start, history)[i] > r <==> RepliedSince(start, history, r) || PushedSince(history, r, i))
    ensures !RepliedSince(start, history, r) ==>
              (i in Origin(start, history) <==> i in Origin(start, history[..r]) || PushedSince(history, r, i))
    {
      OriginSince(start, history, r, i);
    }
    hide Origin, After, RepliedSince, PushedSince;
  }

  /** Otherwise devices mix: a first push that carries the power alone produces
      a light state with the new device's id and the old device's colour. */
  lemma PushAfterResetMixes(c: Cache, next: ValidSetting, payload: Json, on: bool)
    requires next.mapping.Some? && StateFromDps(next.deviceId, c.raw, next.mapping.value).Ok?
    requires ParseDpsSpec(payload) == Ok(map[next.mapping.value.power := Bool(on)])
    ensures Apply(Apply(c, Reset(next)), Push(payload)).state ==
            Some(StateFromDps(next.deviceId, c.raw, next.mapping.value).value.(on := on))
  {
    hide ParseDpsSpec, FromNumber, DpMapping.DecodeColor;
  }

  // ---- what the light state is ----

  /** Event k produced a light state. */
  predicate Produces(start: ValidSetting, history: seq<Event>, k: nat)
    requires k < |history|
  {
    && (history[k].Poll? || history[k].Push?) && Parsed(history[k])
    && Decoded(Upto(start, history, k)).Ok?
  }

  /** Events since the last reset that produced a light state. */
  function Productions(start: ValidSetting, history: seq<Event>): nat {
    if history == [] then 0 else
      var last := |history| - 1;
      if history[last].Reset? then 0
      else Productions(start, history[..last]) + if Produces(start, history, last) then 1 else 0
  }

  /** k produced the latest light state since the last reset. */
  ghost predicate LatestProduction(start: ValidSetting, history: seq<Event>, k: nat) {
    && k < |history| && Produces(start, history, k)
    && forall j: nat :: k < j < |history| ==> !history[j].Reset? && !Produces(start, history, j)
  }

  /** What one event does to the light state. */
  lemma StateStep(c: Cache, e: Event)
    ensures e.Reset? ==> Apply(c, e).state == None
    ensures (e.Poll? || e.Push?) && Parsed(e) && Decoded(Apply(c, e)).Ok? ==>
              Apply(c, e).state == Some(Revisioned(c, Decoded(Apply(c, e)).value))
                && Decoded(Apply(c, e)).value.revision == 0
    ensures !e.Reset? && !((e.Poll? || e.Push?) && Parsed(e) && Decoded(Apply(c, e)).Ok?) ==>
              Apply(c, e).state == c.state
  {
    var merged := c.(raw := RawAfter(c, e));
    assert !e.Reset? ==> Decoded(Refresh(merged)) == Decoded(merged);
    hide ParseDpsSpec, DpMapping.DecodeColor, FromNumber, WhiteOf;
  }

  lemma Unfold(start: ValidSetting, history: seq<Event>)
    requires history != []
    ensures var last := |history| - 1;
            && After(start, history) == Apply(After(start, history[..last]), history[last])
            && Upto(start, history, last) == After(start, history)
  {
    assert history[..|history|] == history;
  }

  /** A state exists exactly when some event since the last reset produced one,
      and its revision is one less than the number of such events. */
  lemma {:induction false} RevisionCounts(start: ValidSetting, history: seq<Event>)
    ensures var c := After(start, history);
            && (c.state.None? <==> Productions(start, history) == 0)
            && (c.state.Some? ==> c.state.value.revision == Productions(start, history) - 1)
  {
    if history != [] {
      var last := |history| - 1;
      RevisionCounts(start, history[..last]);
      Unfold(start, history);
      StateStep(After(start, history[..last]), history[last]);
      hide After, Apply, Parsed, Decoded;
    }
  }

  lemma ProductionExtends(start: ValidSetting, history: seq<Event>, k: nat)
    requires history != [] && LatestProduction(start, history[..|history| - 1], k)
    requires !history[|history| - 1].Reset? && !Produces(start, history, |history| - 1)
    ensures LatestProduction(start, history, k) && Upto(start, history, k) == Upto(start, history[..|history| - 1], k)
  {
    var front := history[..|history| - 1];
    forall j: nat | j < |front| ensures front[j] == history[j]
      && Produces(start, front, j) == Produces(start, history, j) {
      assert front[..j + 1] == history[..j + 1];
    }
    assert front[..k + 1] == history[..k + 1];
  }

  /** The light state is always the decode of the most recent merge that
      decoded since the last reset, whatever did not decode in between. */
  lemma {:induction false} StateTracksHistory(start: ValidSetting, history: seq<Event>) returns (k: nat)
    requires After(start, history).state.Some?
    ensures LatestProduction(start, history, k)
    ensures Decoded(Upto(start, history, k)) == Ok(After(start, history).state.value.(revision := 0))
  {
    var last := |history| - 1;
    Unfold(start, history);
    StateStep(After(start, history[..last]), history[last]);
    if Produces(start, history, last) {
      k := last;
    } else {
      k := StateTracksHistory(start, history[..last]);
      ProductionExtends(start, history, k);
    }
    hide After, Apply, Decoded;
  }

  /** Every event but a reset leaves the revision or raises it by exactly one,
      and it raises it exactly when it produces a light state. */
  lemma RevisionCountsUp(start: ValidSetting, history: seq<Event>, e: Event)
    requires !e.Reset? && After(start, history).state.Some?
    ensures var before, after := After(start, history).state, After(start, history + [e]).state;
            after.Some? && after.value.revision ==
              before.value.revision + if Produces(start, history + [e], |history|) then 1 else 0
  {
    assert (history + [e])[..|history|] == history;
    hide After, Produces;
    RevisionCounts(start, history);
    RevisionCounts(start, history + [e]);
  }
}
