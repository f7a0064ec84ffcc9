/** `pair` as a transaction on the driver's binding: its device, its light id,
    the saved binding and the callbacks, with the cache it resets on the way. */
module Pairing {
  import opened Cache
  import opened Common
  import opened Devices
  import opened Dps
  import opened Json
  import opened Mapping
  import opened PairingFile

  datatype Item = Item(deviceId: string, ip: string)

  datatype Bound = Bound(
    device: Option<DeviceConfig>,
    light: Option<string>,
    saved: Option<Binding>,
    callbacks: map<string, seq<nat>>,
    cache: Cache)

  ghost predicate Sound(b: Bound) {
    && (b.device.Some? && b.device.value.dps.Some? ==> b.device.value.dps.value.Valid())
    && b.cache.setting == SettingOf(b.device)
  }

  function SettingOf(device: Option<DeviceConfig>): ValidSetting
    requires device.Some? && device.value.dps.Some? ==> device.value.dps.value.Valid()
  {
    if device.None? then Setting("", None) else Setting(device.value.deviceId, device.value.dps)
  }

  /** What happens at each await inside `pair`.  An await that does not
      complete raises or is cancelled there. */
  datatype Script = Script(
    closes: bool,          // the disconnect from the previous device
    opens: bool,           // the connection to the new one
    pushes: seq<Json>,     // STATUS pushes before the reply to the poll
    reply: Option<Json>,   // the reply to the poll, if its exchange returns one
    live: bool,            // the connection is open when the guarded part ends
    saves: bool,           // the state file is written
    restores: bool)        // the disconnect in the error handler

  /** The error handler's disconnect has a connection to close.  If connecting
      failed, or the exchange gave up, it is closed already and the handler has
      nothing to wait for. */
  predicate Interruptible(s: Script) { s.opens && s.live }

  /** The error handler, if it runs, reaches the point where it restores. */
  predicate RollsBack(s: Script) { Interruptible(s) ==> s.restores }

  datatype Outcome = Paired(light: string, deviceId: string) | Failed

  // ---- the stages ----

  function Switch(b: Bound, device: DeviceConfig): Bound
    requires device.dps.Some? ==> device.dps.value.Valid()
  {
    b.(device := Some(device), cache := Apply(b.cache, Reset(SettingOf(Some(device)))))
  }

  function PushAll(c: Cache, pushes: seq<Json>): Cache {
    if pushes == [] then c else Apply(PushAll(c, pushes[..|pushes| - 1]), Push(pushes[|pushes| - 1]))
  }

  /** `poll_state` succeeded on this reply. */
  predicate PollSucceeds(c: Cache, reply: Json) {
    c.setting.mapping.Some? && ParseDpsSpec(reply).Ok? && Decoded(Apply(c, Poll(reply))).Ok?
  }

  /** Callbacks of the previous device move to the new one. */
  function Moved(callbacks: map<string, seq<nat>>, previous: Option<DeviceConfig>, deviceId: string)
    : map<string, seq<nat>>
  {
    if previous.None? || previous.value.deviceId !in callbacks then callbacks else
      var list := callbacks[previous.value.deviceId];
      var rest := callbacks - {previous.value.deviceId};
      if list == [] then rest else rest[deviceId := list]
  }

  /** The error handler: disconnect, then restore device and light id. */
  function Rollback(before: Bound, now: Bound, script: Script): Bound
    requires Sound(before)
  {
    if RollsBack(script)
    then now.(device := before.device, light := before.light, cache := Apply(now.cache,
      Reset(SettingOf(before.device))))
    else now
  }

  function Commit(hasPath: bool, previous: Option<DeviceConfig>, now: Bound, candidate: string,
                  device: DeviceConfig): Bound {
    now.(saved := if hasPath then Some(Binding(candidate, device.deviceId, device.ip)) else now.saved,
         callbacks := Moved(now.callbacks, previous, device.deviceId),
         light := Some(candidate))
  }

  /** Every stage up to the commit completes. */
  predicate Commits(l: Lookup, hasPath: bool, before: Bound, candidate: string, device: DeviceConfig, script: Script)
    requires LookupLawful(l) && (device.dps.Some? ==> device.dps.value.Valid())
  {
    && script.closes && script.opens && script.reply.Some?
    && PollSucceeds(PushAll(Switch(before, device).cache, script.pushes), script.reply.value)
    && (hasPath ==> script.saves && candidate == CandidateId(l, device.deviceId))
  }

  /** The guarded part of `pair`: connect, poll, save, commit.  How far it gets
      and whether it completes. */
  function Tried(l: Lookup, hasPath: bool, previous: Option<DeviceConfig>, switched: Bound,
                 candidate: string, device: DeviceConfig, script: Script): (Bound, bool)
    requires LookupLawful(l)
  {
    if !script.opens then (switched, false) else
      var pushed := switched.(cache := PushAll(switched.cache, script.pushes));
      if script.reply.None? then (pushed, false)
      else Answered(l, hasPath, previous, pushed, candidate, device, script.reply.value, script.saves)
  }

  /** The reply to the poll has arrived. */
  function Answered(l: Lookup, hasPath: bool, previous: Option<DeviceConfig>, pushed: Bound,
                    candidate: string, device: DeviceConfig, reply: Json, saves: bool): (Bound, bool)
    requires LookupLawful(l)
  {
    var polled := pushed.(cache := Apply(pushed.cache, Poll(reply)));
    if PollSucceeds(pushed.cache, reply) && (hasPath ==> saves && candidate == CandidateId(l, device.deviceId))
    then (Commit(hasPath, previous, polled, candidate, device), true)
    else (polled, false)
  }

  /** After the commit the descriptor is built, from the raw device id first. */
  function Report(candidate: string, device: DeviceConfig): Outcome {
    if IsLightId(device.deviceId) && IsLightId(candidate) then Paired(candidate, device.deviceId) else Failed
  }

  /** `pair` from the point where the new device is configured. */
  function Bind(l: Lookup, hasPath: bool, before: Bound, candidate: string, device: DeviceConfig,
                script: Script): (Bound, Outcome)
    requires LookupLawful(l) && Sound(before) && (device.dps.Some? ==> device.dps.value.Valid())
  {
    if !script.closes then (before, Failed) else
      var (now, completed) := Tried(l, hasPath, before.device, Switch(before, device), candidate, device, script);
      if completed then (now, Report(candidate, device)) else (Rollback(before, now, script), Failed)
  }

  /** `pair` as a whole; an unknown candidate, a missing profile and a device
      that cannot be configured fail before anything changes. */
  function Pair(l: Lookup, profile: Option<PairingConfig>, hasPath: bool, discovered: map<string, Item>, before: Bound,
                candidate: string, script: Script): (Bound, Outcome)
    requires LookupLawful(l) && Sound(before) && (profile.Some? ==> profile.value.Valid())
  {
    if candidate !in discovered || profile.None? then (before, Failed) else
      match MakeDevice(l, profile.value, discovered[candidate].ip, discovered[candidate].deviceId)
      case Err(_) => (before, Failed)
      case Ok(device) => Bind(l, hasPath, before, candidate, device, script)
  }

  // ---- the transaction ----

  /** Device, light id, saved binding and callbacks. */
  predicate SameBinding(a: Bound, b: Bound) {
    a.device == b.device && a.light == b.light && a.saved == b.saved && a.callbacks == b.callbacks
  }

  /** Everything belongs to the new candidate, and the data points are those
      of its reply alone. */
  predicate BoundTo(before: Bound, after: Bound, hasPath: bool, candidate: string, device: DeviceConfig, reply: Json) {
    && after.device == Some(device) && after.light == Some(candidate)
    && after.saved == (if hasPath then Some(Binding(candidate, device.deviceId, device.ip)) else before.saved)
    && after.callbacks == Moved(before.callbacks, before.device, device.deviceId)
    && Ok(after.cache.raw) == ParseDpsSpec(reply)
    && after.cache.state.Some? && after.cache.state.value.deviceId == device.deviceId
  }

  ghost predicate Subscribed(callbacks: map<string, seq<nat>>, x: nat) {
    exists id :: id in callbacks && x in callbacks[id]
  }

  /** Both devices have an entry, and the previous one's is not empty. */
  predicate Overwrites(callbacks: map<string, seq<nat>>, previous: string, deviceId: string) {
    previous != deviceId && previous in callbacks && callbacks[previous] != [] && deviceId in callbacks
  }

  /** What was registered for the previous device is registered for the new one,
      nothing is left under the old id, and other devices are not affected. */
  lemma CallbacksFollow(callbacks: map<string, seq<nat>>, previous: DeviceConfig, deviceId: string)
    ensures var moved := Moved(callbacks, Some(previous), deviceId);
            && (previous.deviceId in callbacks && callbacks[previous.deviceId] != [] ==>
                  deviceId in moved && moved[deviceId] == callbacks[previous.deviceId])
            && (previous.deviceId != deviceId ==> previous.deviceId !in moved)
            && forall id :: id != previous.deviceId && id != deviceId ==>
                 (id in moved <==> id in callbacks) && (id in callbacks ==> moved[id] == callbacks[id])
  {}

  /** A subscription is lost exactly if the new device had callbacks of its own,
      which those of the previous device overwrite, and it was only among these. */
  lemma SubscriptionLost(callbacks: map<string, seq<nat>>, previous: DeviceConfig, deviceId: string, x: nat)
    requires Subscribed(callbacks, x)
    ensures !Subscribed(Moved(callbacks, Some(previous), deviceId), x) <==>
            && Overwrites(callbacks, previous.deviceId, deviceId)
            && forall id :: id in callbacks && x in callbacks[id] ==> id == deviceId
  {
    var moved := Moved(callbacks, Some(previous), deviceId);
    CallbacksFollow(callbacks, previous, deviceId);
    var id :| id in callbacks && x in callbacks[id];
    if k :| k in callbacks && x in callbacks[k] && k != deviceId {
      assert if k == previous.deviceId then x in moved[deviceId] else x in moved[k];
    } else if !Overwrites(callbacks, previous.deviceId, deviceId) {
      assert id == deviceId && x in moved[deviceId];
    }
  }

  /** The guarded part completes exactly if every stage does; otherwise it has
      changed the device and the cache only. */
  lemma TriedMeaning(l: Lookup, hasPath: bool, before: Bound, candidate: string, device: DeviceConfig, script: Script)
    requires LookupLawful(l) && (device.dps.Some? ==> device.dps.value.Valid()) && script.closes
    ensures var (now, completed) := Tried(l, hasPath, before.device, Switch(before, device), candidate, device, script);
            && (completed <==> Commits(l, hasPath, before, candidate, device, script))
            && Sound(now) && now.device == Some(device)
            && (completed ==> BoundTo(before, now, hasPath, candidate, device, script.reply.value))
            && (!completed ==>
                  now.light == before.light && now.saved == before.saved && now.callbacks == before.callbacks)
  {
    var switched := Switch(before, device);
    PushesKeepSetting(switched.cache, script.pushes);
    var cache := PushAll(switched.cache, script.pushes);
    if script.reply.Some? {
      PollKeepsSetting(cache, script.reply.value);
      if PollSucceeds(cache, script.reply.value) { DecodedDevice(cache, script.reply.value); }
    }
    hide Apply, PushAll, PollSucceeds, Moved, ParseDpsSpec, CandidateId;
  }

  /** The binding is exactly the new one if every stage completes.  If one does
      not, it is the old one if and only if the device was never switched, or is
      the same, or the error handler gets to restore it. */
  lemma PairTransaction(l: Lookup, hasPath: bool, before: Bound, candidate: string, device: DeviceConfig,
                        script: Script)
    requires LookupLawful(l) && Sound(before) && (device.dps.Some? ==> device.dps.value.Valid())
    ensures var (after, _) := Bind(l, hasPath, before, candidate, device, script);
            && Sound(after)
            && (Commits(l, hasPath, before, candidate, device, script) ==>
                  BoundTo(before, after, hasPath, candidate, device, script.reply.value))
            && (!Commits(l, hasPath, before, candidate, device, script) ==>
                  (SameBinding(before, after) <==>
                     !script.closes || before.device == Some(device) || RollsBack(script)))
  {
    if script.closes { TriedMeaning(l, hasPath, before, candidate, device, script); }
    hide Tried, Switch, Apply, Report, PollSucceeds, PushAll, BoundTo, RollsBack, CandidateId, LookupLawful;
  }

  lemma PollKeepsSetting(c: Cache, reply: Json)
    ensures Apply(c, Poll(reply)).setting == c.setting
  {}

  lemma {:induction false} PushesKeepSetting(c: Cache, pushes: seq<Json>)
    ensures PushAll(c, pushes).setting == c.setting
  {
    if pushes != [] { PushesKeepSetting(c, pushes[..|pushes| - 1]); }
  }

  lemma DecodedDevice(c: Cache, reply: Json)
    requires PollSucceeds(c, reply)
    ensures var after := Apply(c, Poll(reply));
            after.state.Some? && after.state.value.deviceId == c.setting.deviceId
              && Ok(after.raw) == ParseDpsSpec(reply)
  {}

  /** What `pair` reports is what it did.  Success means that everything belongs
      to the new candidate.  Failure to bind another device means that nothing
      changed if and only if the raw device id is a light id in case it commits,
      and the error handler gets to restore in case it does not. */
  lemma PairReport(l: Lookup, hasPath: bool, before: Bound, candidate: string, device: DeviceConfig, script: Script)
    requires LookupLawful(l) && Sound(before) && (device.dps.Some? ==> device.dps.value.Valid())
    requires candidate == CandidateId(l, device.deviceId)
    ensures var (after, outcome) := Bind(l, hasPath, before, candidate, device, script);
            var commits := Commits(l, hasPath, before, candidate, device, script);
            && (outcome.Paired? <==> commits && IsLightId(device.deviceId))
            && (outcome.Paired? ==> outcome == Paired(candidate, device.deviceId)
                                    && BoundTo(before, after, hasPath, candidate, device, script.reply.value))
            && (before.device != Some(device) ==>
                  ((outcome.Failed? ==> SameBinding(before, after)) <==>
                     if commits then IsLightId(device.deviceId) else !script.closes || RollsBack(script)))
  {
    CandidateIsLight(l, device.deviceId);
    PairTransaction(l, hasPath, before, candidate, device, script);
    BindOutcome(l, hasPath, before, candidate, device, script);
    hide Bind, Commits, RollsBack, IsLightId, CandidateId, Moved;
  }

  lemma BindOutcome(l: Lookup, hasPath: bool, before: Bound, candidate: string, device: DeviceConfig, script: Script)
    requires LookupLawful(l) && Sound(before) && (device.dps.Some? ==> device.dps.value.Valid())
    ensures var outcome := Bind(l, hasPath, before, candidate, device, script).1;
            && (outcome.Paired? <==> Commits(l, hasPath, before, candidate, device, script)
                                     && IsLightId(device.deviceId) && IsLightId(candidate))
            && (outcome.Paired? ==> outcome == Paired(candidate, device.deviceId))
  {
    if script.closes { TriedMeaning(l, hasPath, before, candidate, device, script); }
    hide Tried, Switch, Rollback, PollSucceeds, IsLightId, BoundTo, Sound;
  }

  /** The reply reads as a light state of this device. */
  predicate ReadsAsState(device: DeviceConfig, reply: Json)
    requires device.dps.Some? ==> device.dps.value.Valid()
  {
    && device.dps.Some? && ParseDpsSpec(reply).Ok?
    && StateFromDps(device.deviceId, ParseDpsSpec(reply).value, device.dps.value).Ok?
  }

  /** Whether a pairing commits is decided by the awaits and by the reply alone:
      neither the pushes nor what the cache held before make a difference. */
  lemma CommitsExact(l: Lookup, hasPath: bool, before: Bound, candidate: string, device: DeviceConfig, s: Script)
    requires LookupLawful(l) && (device.dps.Some? ==> device.dps.value.Valid())
    ensures Commits(l, hasPath, before, candidate, device, s) <==>
            && s.closes && s.opens && s.reply.Some? && ReadsAsState(device, s.reply.value)
            && (hasPath ==> s.saves && candidate == CandidateId(l, device.deviceId))
  {
    var c := Switch(before, device).cache;
    PushesKeepSetting(c, s.pushes);
    if s.reply.Some? { PollExact(PushAll(c, s.pushes), s.reply.value); }
    hide PushAll, PollSucceeds, ParseDpsSpec, StateFromDps, CandidateId, DpMapping.Valid;
  }

  /** A successful poll adopts the state the reply reads as, with the next revision. */
  lemma PollExact(c: Cache, reply: Json)
    ensures PollSucceeds(c, reply) <==>
            && c.setting.mapping.Some? && ParseDpsSpec(reply).Ok?
            && StateFromDps(c.setting.deviceId, ParseDpsSpec(reply).value, c.setting.mapping.value).Ok?
    ensures PollSucceeds(c, reply) ==>
            Apply(c, Poll(reply)).state == Some(Revisioned(c,
              StateFromDps(c.setting.deviceId, ParseDpsSpec(reply).value, c.setting.mapping.value).value))
  {
    hide ParseDpsSpec, StateFromDps;
  }

  /** So a pairing whose awaits complete and whose reply reads as a light state
      does bind the new device, and is reported as paired if the raw device id is
      a light id. */
  lemma PairCompletes(l: Lookup, hasPath: bool, before: Bound, candidate: string, device: DeviceConfig, s: Script)
    requires LookupLawful(l) && Sound(before) && (device.dps.Some? ==> device.dps.value.Valid())
    requires candidate == CandidateId(l, device.deviceId) && IsLightId(device.deviceId)
    requires s.closes && s.opens && s.reply.Some? && ReadsAsState(device, s.reply.value) && (hasPath ==> s.saves)
    ensures var (after, outcome) := Bind(l, hasPath, before, candidate, device, s);
            outcome == Paired(candidate, device.deviceId)
              && BoundTo(before, after, hasPath, candidate, device, s.reply.value)
  {
    CommitsExact(l, hasPath, before, candidate, device, s);
    PairReport(l, hasPath, before, candidate, device, s);
    hide Bind, Commits, BoundTo, IsLightId, CandidateId, ReadsAsState, Moved;
  }

  /** The data points after these pushes. */
  function Merged(raw: DpMap, pushes: seq<Json>): DpMap {
    if pushes == [] then raw else
      var before, last := Merged(raw, pushes[..|pushes| - 1]), ParseDpsSpec(pushes[|pushes| - 1]);
      if last.Ok? then before + last.value else before
  }

  /** How many of the pushes left data points that read as a light state. */
  function Readable(raw: DpMap, pushes: seq<Json>, deviceId: string, m: DpMapping): nat
    requires m.Valid()
  {
    if pushes == [] then 0 else
      Readable(raw, pushes[..|pushes| - 1], deviceId, m)
        + if ParseDpsSpec(pushes[|pushes| - 1]).Ok? && StateFromDps(deviceId, Merged(raw, pushes), m).Ok? then 1 else 0
  }

  lemma {:induction false} PushRevisions(c: Cache, pushes: seq<Json>)
    requires c.state.None? && c.setting.mapping.Some?
    ensures var after := PushAll(c, pushes);
            var n := Readable(c.raw, pushes, c.setting.deviceId, c.setting.mapping.value);
            && after.raw == Merged(c.raw, pushes) && after.setting == c.setting
            && (after.state.None? <==> n == 0) && (after.state.Some? ==> after.state.value.revision == n - 1)
  {
    hide ParseDpsSpec, StateFromDps;
    if pushes != [] { PushRevisions(c, pushes[..|pushes| - 1]); }
  }

  /** The light state after a pairing.  A commit adopts the one the reply reads
      as; its revision counts from zero again, and is the number of pushes before
      the reply that were readable.  A rollback leaves no light state. */
  lemma PairRevision(l: Lookup, hasPath: bool, before: Bound, candidate: string, device: DeviceConfig, s: Script)
    requires LookupLawful(l) && Sound(before) && (device.dps.Some? ==> device.dps.value.Valid())
    ensures var (after, _) := Bind(l, hasPath, before, candidate, device, s);
            var commits := Commits(l, hasPath, before, candidate, device, s);
            && (commits ==>
                  && ReadsAsState(device, s.reply.value)
                  && var m := device.dps.value;
                     var read := StateFromDps(device.deviceId, ParseDpsSpec(s.reply.value).value, m).value;
                     after.cache.state ==
                       Some(read.(revision := Readable(before.cache.raw, s.pushes, device.deviceId, m))))
            && (!commits && s.closes && RollsBack(s) ==> after.cache.state.None?)
  {
    if s.closes {
      TriedMeaning(l, hasPath, before, candidate, device, s);
      if Commits(l, hasPath, before, candidate, device, s) {
        CommitsExact(l, hasPath, before, candidate, device, s);
        TriedState(l, hasPath, before, candidate, device, s);
      }
    }
    hide Tried, Switch, PollSucceeds, BoundTo, ReadsAsState, Readable, Commits;
  }

  lemma TriedState(l: Lookup, hasPath: bool, before: Bound, candidate: string, device: DeviceConfig, s: Script)
    requires LookupLawful(l) && (device.dps.Some? ==> device.dps.value.Valid())
    requires Commits(l, hasPath, before, candidate, device, s) && ReadsAsState(device, s.reply.value)
    ensures var m := device.dps.value;
            var read := StateFromDps(device.deviceId, ParseDpsSpec(s.reply.value).value, m).value;
            Tried(l, hasPath, before.device, Switch(before, device), candidate, device, s).0.cache.state ==
              Some(read.(revision := Readable(before.cache.raw, s.pushes, device.deviceId, m)))
  {
    var c := Switch(before, device).cache;
    assert c == Cache(SettingOf(Some(device)), before.cache.raw, None);
    PushRevisions(c, s.pushes);
    PollExact(PushAll(c, s.pushes), s.reply.value);
    hide PushAll, PollSucceeds, ParseDpsSpec, StateFromDps, Readable, CandidateId, Moved, Apply;
  }

  /** A device with a capital letter in its id is left bound by a pairing that
      reports failure. */
  lemma CapitalIdStaysBound(l: Lookup, hasPath: bool, before: Bound, candidate: string, device: DeviceConfig,
                            script: Script)
    requires LookupLawful(l) && Sound(before) && (device.dps.Some? ==> device.dps.value.Valid())
    requires Commits(l, hasPath, before, candidate, device, script)
    requires exists k :: 0 <= k < |device.deviceId| && 'A' <= device.deviceId[k] <= 'Z'
    ensures var (after, outcome) := Bind(l, hasPath, before, candidate, device, script);
            outcome == Failed && after.device == Some(device) && after.light == Some(candidate)
  {
    var k :| 0 <= k < |device.deviceId| && 'A' <= device.deviceId[k] <= 'Z';
    assert !IsIdChar(device.deviceId[k]);
    PairTransaction(l, hasPath, before, candidate, device, script);
    BindOutcome(l, hasPath, before, candidate, device, script);
    hide Bind, Commits, CandidateId, Moved;
  }

  /** An error or cancellation that leaves the new connection open, followed by a
      cancellation of the error handler's disconnect, leaves the new device in
      place without a commit: say a reply that does not decode, or a poll that is
      cancelled while it waits. */
  lemma InterruptedRollback(l: Lookup, hasPath: bool, before: Bound, candidate: string, device: DeviceConfig,
                            script: Script)
    requires LookupLawful(l) && Sound(before) && (device.dps.Some? ==> device.dps.value.Valid())
    requires script.closes && Interruptible(script) && !script.restores
    requires !Commits(l, hasPath, before, candidate, device, script)
    ensures var (after, outcome) := Bind(l, hasPath, before, candidate, device, script);
            outcome == Failed && after.device == Some(device) && after.light == before.light
              && after.saved == before.saved
  {
    TriedMeaning(l, hasPath, before, candidate, device, script);
    hide Tried, Switch, Commits, BoundTo, Sound;
  }
}
