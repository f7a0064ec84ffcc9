/** Boundary and driver agree on the device.  The boundary's device id is a
    copy that pairing updates after the driver; the driver lock and the
    sequential receive loop keep the moment between from being seen.  Steps are
    what the receiver or the publisher does between two awaits. */
module Agreement {
  import opened Cache
  import opened Common
  import opened Devices
  import opened Json
  import opened Mapping
  import opened Pairing
  import PairingFile

  /** What stays the same while the Linker runs. */
  datatype Fixed = Fixed(lookup: Lookup, profile: Option<PairingConfig>, hasPath: bool)

  ghost predicate Lawful(f: Fixed) {
    LookupLawful(f.lookup) && (f.profile.Some? ==> f.profile.value.Valid())
  }

  datatype Holder = ByReceiver | ByPublisher

  /** Where the receive loop stands; it handles one message at a time. */
  datatype Receiver =
    | Idle
    | Commanding                                                              // awaiting a driver operation
    | Scanning                                                                // awaiting a discovery
    | Requested(candidate: string)                                            // pairing, waiting for the driver lock
    | Starting(candidate: string)                                             // holding it, before the switch
    | Switched(candidate: string, before: Bound, device: DeviceConfig)        // the driver has the new device

  /** `light` and `device` are the boundary's. */
  datatype State = State(
    light: Option<string>, device: Option<string>,
    driver: Bound, discovered: map<string, Item>,
    lock: Option<Holder>, receiver: Receiver, tripped: nat)

  datatype Step =
    | CommandStarts
    | CommandEnds
    | ScanStarts
    | ScanEnds(found: seq<Item>)
    | PairRequested(candidate: string)
    | PairGivesUp                        // cancelled while waiting for the lock
    | PairLocks
    | PairSwitches
    | PairEnds(script: Script)
    | PublisherLocks
    | PublisherChecks                    // subscribe and poll
    | PublisherUnlocks
    | Traffic(event: Event)              // replies and pushes

  predicate ControlEnabled(s: State) { s.light.Some? && s.device.Some? }

  /** `_check_device` */
  predicate Checks(s: State) { s.driver.device.Some? && s.device == Some(s.driver.device.value.deviceId) }

  function Trip(s: State): State { if Checks(s) then s else s.(tripped := s.tripped + 1) }

  /** The device `pair` configures for a candidate, if it gets that far. */
  function Target(f: Fixed, s: State, candidate: string): Option<DeviceConfig> {
    if candidate !in s.discovered || f.profile.None? then None else
      var made := MakeDevice(f.lookup, f.profile.value, s.discovered[candidate].ip, s.discovered[candidate].deviceId);
      if made.Ok? then Some(made.value) else None
  }

  predicate Enabled(f: Fixed, s: State, step: Step) {
    match step
    case CommandStarts => s.receiver.Idle? && ControlEnabled(s)
    case CommandEnds => s.receiver.Commanding?
    case ScanStarts => s.receiver.Idle?
    case ScanEnds(_) => s.receiver.Scanning?
    case PairRequested(_) => s.receiver.Idle?
    case PairGivesUp => s.receiver.Requested?
    case PairLocks => s.receiver.Requested? && s.lock.None?
    case PairSwitches => s.receiver.Starting? && Target(f, s, s.receiver.candidate).Some?
    case PairEnds(script) =>
      if s.receiver.Starting? then Target(f, s, s.receiver.candidate).None? || !script.closes
      else s.receiver.Switched? && script.closes
    case PublisherLocks => s.lock.None? && ControlEnabled(s)
    case PublisherChecks => s.lock == Some(ByPublisher)
    case PublisherUnlocks => s.lock == Some(ByPublisher)
    case Traffic(e) => !s.receiver.Switched? && !e.Reset?
  }

  /** `_discovered` after a scan. */
  function Found(l: Lookup, found: seq<Item>): map<string, Item>
    requires LookupLawful(l)
  {
    if found == [] then map[]
    else Found(l, found[..|found| - 1])[CandidateId(l, found[|found| - 1].deviceId) := found[|found| - 1]]
  }

  /** The end of `handle_pairing`: release the lock, adopt a success. */
  function Adopt(s: State, candidate: string, driver: Bound, outcome: Pairing.Outcome): State {
    var t := s.(driver := driver, lock := None, receiver := Idle);
    match outcome
    case Paired(light, deviceId) =>
      if light == candidate && deviceId != "" then t.(light := Some(light), device := Some(deviceId)) else t
    case Failed => t
  }

  function Next(f: Fixed, s: State, step: Step): State
    requires Lawful(f) && Valid(f, s) && Enabled(f, s, step)
  {
    match step
    case CommandStarts => Trip(s).(receiver := Commanding)
    case CommandEnds => s.(receiver := Idle)
    case ScanStarts => s.(receiver := Scanning, discovered := map[])
    case ScanEnds(found) => s.(receiver := Idle, discovered := Found(f.lookup, found))
    case PairRequested(candidate) => s.(receiver := Requested(candidate))
    case PairGivesUp => s.(receiver := Idle)
    case PairLocks => s.(lock := Some(ByReceiver), receiver := Starting(s.receiver.candidate))
    case PairSwitches =>
      var device := Target(f, s, s.receiver.candidate).value;
      s.(driver := Switch(s.driver, device), receiver := Switched(s.receiver.candidate, s.driver, device))
    case PairEnds(script) =>
      if s.receiver.Starting? then Adopt(s, s.receiver.candidate, s.driver, Failed)
      else
        var (driver, outcome) := Bind(f.lookup, f.hasPath, s.receiver.before, s.receiver.candidate,
          s.receiver.device, script);
        Adopt(s, s.receiver.candidate, driver, outcome)
    case PublisherLocks => s.(lock := Some(ByPublisher))
    case PublisherChecks => Trip(s)
    case PublisherUnlocks => s.(lock := None)
    case Traffic(e) => s.(driver := s.driver.(cache := Apply(s.driver.cache, e)))
  }

  /** The driver's own consistency, the candidates' ids, and who has the lock. */
  ghost predicate Valid(f: Fixed, s: State) {
    && LookupLawful(f.lookup)
    && Sound(s.driver)
    && (forall id :: id in s.discovered ==> id == CandidateId(f.lookup, s.discovered[id].deviceId))
    && (s.receiver.Starting? || s.receiver.Switched? <==> s.lock == Some(ByReceiver))
    && (s.lock == Some(ByPublisher) ==> ControlEnabled(s))
    && (s.receiver.Switched? ==>
          && Sound(s.receiver.before)
          && (s.receiver.device.dps.Some? ==> s.receiver.device.dps.value.Valid())
          && s.receiver.candidate == CandidateId(f.lookup, s.receiver.device.deviceId)
          && s.receiver.device.deviceId != ""
          && s.driver.device == Some(s.receiver.device))
  }

  /** The boundary, if it controls a light, names the driver's device - the one
      before the switch while a pairing is under way. */
  predicate Agreed(s: State) {
    var device := if s.receiver.Switched? then s.receiver.before.device else s.driver.device;
    ControlEnabled(s) ==> device.Some? && s.device == Some(device.value.deviceId)
  }

  // ---- starting ----

  /** `_run` up to the client: the boundary for a configured or restored light.
      The descriptor it registers is built from the raw device id first. */
  function Start(driver: Bound, configured: Option<string>): Option<State> {
    var light := if configured.Some? then configured else driver.light;
    if light.None? then Some(State(None, None, driver, map[], None, Idle, 0))
    else if driver.device.Some? && IsLightId(driver.device.value.deviceId) && IsLightId(light.value)
    then Some(State(light, Some(driver.device.value.deviceId), driver, map[], None, Idle, 0))
    else None
  }

  /** A state in which the Linker can start. */
  ghost predicate Initial(f: Fixed, s: State)
    requires Lawful(f)
    ensures Initial(f, s) ==> Valid(f, s) && Agreed(s) && s.tripped == 0
  {
    exists driver, configured :: Sound(driver) && Start(driver, configured) == Some(s)
  }

  // ---- runs ----

  /** A pairing spoils agreement by committing a device whose id is no light id,
      or when its error handler is cancelled before it restores. */
  predicate Spoils(f: Fixed, s: State, step: Step)
    requires Lawful(f) && Valid(f, s)
  {
    && step.PairEnds? && s.receiver.Switched?
    && if Commits(f.lookup, f.hasPath, s.receiver.before, s.receiver.candidate, s.receiver.device, step.script)
       then !IsLightId(s.receiver.device.deviceId) else !RollsBack(step.script)
  }

  lemma {:induction false} FoundKeyed(l: Lookup, found: seq<Item>)
    requires LookupLawful(l)
    ensures forall id :: id in Found(l, found) ==> id == CandidateId(l, Found(l, found)[id].deviceId)
  {
    if found != [] {
      FoundKeyed(l, found[..|found| - 1]);
      hide CandidateId;
    }
  }

  lemma PairEndsKeeps(f: Fixed, s: State, script: Script)
    requires Lawful(f) && Valid(f, s) && Enabled(f, s, PairEnds(script))
    ensures Valid(f, Next(f, s, PairEnds(script)))
    ensures Agreed(s) && !Spoils(f, s, PairEnds(script)) ==> Agreed(Next(f, s, PairEnds(script)))
  {
    hide Bind, Commits, Target, CandidateId, IsLightId, LookupLawful, Sound, Switch, Apply;
    if s.receiver.Switched? {
      var before, candidate, device := s.receiver.before, s.receiver.candidate, s.receiver.device;
      BindSound(f.lookup, f.hasPath, before, candidate, device, script);
      BindReport(f.lookup, f.hasPath, before, candidate, device, script);
    }
  }

  /** The four ways a pairing that has switched the device can end. */
  lemma BindReport(l: Lookup, hasPath: bool, before: Bound, candidate: string, device: DeviceConfig, script: Script)
    requires LookupLawful(l) && Sound(before) && (device.dps.Some? ==> device.dps.value.Valid())
    requires script.closes && candidate == CandidateId(l, device.deviceId)
    ensures var (after, outcome) := Bind(l, hasPath, before, candidate, device, script);
            var commits := Commits(l, hasPath, before, candidate, device, script);
            && (outcome.Paired? <==> commits && IsLightId(device.deviceId))
            && after.device == (if commits || !RollsBack(script) then Some(device) else before.device)
  {
    CandidateIsLight(l, device.deviceId);
    BindOutcome(l, hasPath, before, candidate, device, script);
    TriedMeaning(l, hasPath, before, candidate, device, script);
    hide Tried, Switch, Commits, BoundTo, Apply, Report, IsLightId, CandidateId;
  }

  /** Whatever happens, the driver's fields stay consistent, and a reported
      success names the candidate and its device. */
  lemma BindSound(l: Lookup, hasPath: bool, before: Bound, candidate: string, device: DeviceConfig, script: Script)
    requires LookupLawful(l) && Sound(before) && (device.dps.Some? ==> device.dps.value.Valid())
    ensures var (after, outcome) := Bind(l, hasPath, before, candidate, device, script);
            Sound(after) && (outcome.Paired? ==> outcome == Paired(candidate, device.deviceId))
  {
    PairTransaction(l, hasPath, before, candidate, device, script);
    BindOutcome(l, hasPath, before, candidate, device, script);
    hide Bind, Commits, BoundTo, SameBinding, IsLightId;
  }

  lemma TargetMeaning(f: Fixed, s: State, candidate: string)
    requires Lawful(f) && Valid(f, s) && Target(f, s, candidate).Some?
    ensures var d := Target(f, s, candidate).value;
            d.deviceId != "" && d.dps.Some? && d.dps.value.Valid() && candidate == CandidateId(f.lookup, d.deviceId)
  {}

  lemma TrafficKeeps(b: Bound, e: Event)
    requires Sound(b) && !e.Reset?
    ensures Sound(b.(cache := Apply(b.cache, e)))
  {}

  lemma StepKeeps(f: Fixed, s: State, step: Step)
    requires Lawful(f) && Valid(f, s) && Enabled(f, s, step)
    ensures Valid(f, Next(f, s, step))
    ensures Agreed(s) && !Spoils(f, s, step) ==> Agreed(Next(f, s, step)) && Next(f, s, step).tripped == s.tripped
  {
    hide LookupLawful, CandidateId, Target, Spoils;
    match step
    case PairEnds(script) => hide Next, Valid, Agreed; PairEndsKeeps(f, s, script); PairEndsTripped(f, s, script);
    case PairSwitches => hide Next, Valid, Agreed; SwitchKeeps(f, s);
    case ScanEnds(found) => hide Sound; FoundKeyed(f.lookup, found);
    case Traffic(e) => hide Sound, Apply; TrafficKeeps(s.driver, e);
    case _ => hide Sound, Bind;
  }

  lemma SwitchKeeps(f: Fixed, s: State)
    requires Lawful(f) && Valid(f, s) && Enabled(f, s, PairSwitches)
    ensures var t := Next(f, s, PairSwitches);
            Valid(f, t) && t.tripped == s.tripped && (Agreed(s) ==> Agreed(t))
  {
    hide LookupLawful, CandidateId, Target, Bind;
    TargetMeaning(f, s, s.receiver.candidate);
  }

  lemma PairEndsTripped(f: Fixed, s: State, script: Script)
    requires Lawful(f) && Valid(f, s) && Enabled(f, s, PairEnds(script))
    ensures Next(f, s, PairEnds(script)).tripped == s.tripped
  {
    hide Bind;
  }

  /** The state after a run from `start`; steps that are not enabled change nothing. */
  ghost function Run(f: Fixed, start: State, steps: seq<Step>): (s: State)
    requires Lawful(f) && Valid(f, start)
    ensures Valid(f, s)
  {
    if steps == [] then start else
      var s, step := Run(f, start, steps[..|steps| - 1]), steps[|steps| - 1];
      if Enabled(f, s, step) then StepKeeps(f, s, step); Next(f, s, step) else s
  }

  ghost predicate Unspoiled(f: Fixed, start: State, steps: seq<Step>)
    requires Lawful(f) && Valid(f, start)
  {
    forall n :: 0 <= n < |steps| ==> !Spoils(f, Run(f, start, steps[..n]), steps[n])
  }

  /** Over every run of discoveries, successful and failed pairings, commands
      and publisher cycles: whenever the driver lock is free or the publisher's
      and control is enabled, the boundary's device id is the driver's, and
      neither the publisher nor a command ever trips the device check. */
  lemma {:induction false} AlwaysAgreed(f: Fixed, start: State, steps: seq<Step>)
    requires Lawful(f) && Initial(f, start) && Unspoiled(f, start, steps)
    ensures var s := Run(f, start, steps);
            && Agreed(s) && s.tripped == 0
            && (s.lock != Some(ByReceiver) && ControlEnabled(s) ==> Checks(s))
  {
    hide Next, Valid, Spoils, Initial;
    if steps != [] {
      var front := steps[..|steps| - 1];
      forall n | 0 <= n < |front| ensures !Spoils(f, Run(f, start, front[..n]), front[n]) {
        assert front[..n] == steps[..n];
        assert !Spoils(f, Run(f, start, steps[..n]), steps[n]);
      }
      AlwaysAgreed(f, start, front);
      var s := Run(f, start, front);
      assert steps[..|steps| - 1] == front && !Spoils(f, Run(f, start, steps[..|steps| - 1]), steps[|steps| - 1]);
      if Enabled(f, s, steps[|steps| - 1]) { StepKeeps(f, s, steps[|steps| - 1]); }
    }
    if Run(f, start, steps).lock != Some(ByReceiver) { LockTellsSwitch(f, Run(f, start, steps)); }
  }

  lemma LockTellsSwitch(f: Fixed, s: State)
    requires Valid(f, s) && s.lock != Some(ByReceiver)
    ensures !s.receiver.Switched?
  {}

  // ---- progress ----

  /** A scan replaces the candidates: each device found has one, under its id. */
  lemma {:induction false} FoundExact(l: Lookup, found: seq<Item>)
    requires LookupLawful(l)
    ensures forall k :: 0 <= k < |found| ==> CandidateId(l, found[k].deviceId) in Found(l, found)
    ensures forall id :: id in Found(l, found) ==> Found(l, found)[id] in found
  {
    if found != [] {
      FoundExact(l, found[..|found| - 1]);
      hide CandidateId;
    }
  }

  lemma RunStep(f: Fixed, start: State, steps: seq<Step>, step: Step)
    requires Lawful(f) && Valid(f, start)
    ensures var s := Run(f, start, steps);
            Run(f, start, steps + [step]) == if Enabled(f, s, step) then Next(f, s, step) else s
  {
    assert (steps + [step])[..|steps|] == steps;
    hide Valid, Enabled, Next, Lawful;
  }

  /** A candidate that can be configured, as this device, and whose raw id is a light id. */
  predicate Pairable(f: Fixed, s: State, candidate: string, d: DeviceConfig) {
    && candidate in s.discovered && f.profile.Some?
    && Configures(f.profile.value, s.discovered[candidate].ip, s.discovered[candidate].deviceId, d)
    && f.lookup.privateIp(d.ip) && |d.deviceId| <= 64 && IsLightId(d.deviceId)
  }

  lemma TargetFound(f: Fixed, s: State, candidate: string, d: DeviceConfig)
    requires Lawful(f) && Valid(f, s) && Pairable(f, s, candidate, d)
    ensures Target(f, s, candidate) == Some(d) && candidate == CandidateId(f.lookup, d.deviceId) && d.deviceId != ""
  {}

  lemma BoundDevice(before: Bound, after: Bound, hasPath: bool, candidate: string, d: DeviceConfig, reply: Json)
    requires BoundTo(before, after, hasPath, candidate, d, reply)
    ensures after.device == Some(d)
  {}

  /** The driver at the switch, with the lock. */
  lemma PairReachesSwitch(f: Fixed, start: State, steps: seq<Step>, candidate: string, d: DeviceConfig)
    requires Lawful(f) && Valid(f, start)
    requires var s := Run(f, start, steps); s.receiver.Idle? && s.lock.None? && Target(f, s, candidate) == Some(d)
    requires d.dps.Some? ==> d.dps.value.Valid()
    ensures var s := Run(f, start, steps);
            Run(f, start, steps + [PairRequested(candidate)] + [PairLocks] + [PairSwitches]) ==
              s.(driver := Switch(s.driver, d), lock := Some(ByReceiver), receiver := Switched(candidate, s.driver, d))
  {
    hide Run, Switch, LookupLawful, Lawful, Sound, CandidateId, DpMapping.Valid, MakeDevice;
    RunStep(f, start, steps, PairRequested(candidate));
    RunStep(f, start, steps + [PairRequested(candidate)], PairLocks);
    RunStep(f, start, steps + [PairRequested(candidate)] + [PairLocks], PairSwitches);
    hide Valid;
  }

  /** The end of such a pairing. */
  lemma PairEndsWell(f: Fixed, s: State, before: Bound, candidate: string, d: DeviceConfig, script: Script)
    requires Lawful(f) && Valid(f, s) && s.receiver == Switched(candidate, before, d) && IsLightId(d.deviceId)
    requires d.dps.Some? ==> d.dps.value.Valid()
    requires script.closes && script.opens && script.reply.Some? && ReadsAsState(d, script.reply.value)
    requires f.hasPath ==> script.saves
    ensures Enabled(f, s, PairEnds(script))
    ensures var t := Next(f, s, PairEnds(script));
            && Valid(f, t)
            && t.light == Some(candidate) && t.device == Some(d.deviceId) && t.driver.device == Some(d)
            && t.receiver.Idle? && t.lock.None? && t.tripped == s.tripped
            && Enabled(f, t, CommandStarts) && Next(f, t, CommandStarts).tripped == s.tripped
  {
    PairEndsKeeps(f, s, script);
    hide Bind, IsLightId, LookupLawful, Sound, BoundTo, ReadsAsState, CandidateId, DpMapping.Valid;
    PairCompletes(f.lookup, f.hasPath, before, candidate, d, script);
    BoundDevice(before, Bind(f.lookup, f.hasPath, before, candidate, d, script).0, f.hasPath, candidate, d,
      script.reply.value);
  }

  /** In every run, a pairing that goes well gives control of the new light: the
      boundary has its id, boundary and driver name the device just configured,
      the lock is free, and a command can start without tripping the check. */
  lemma PairingTakesControl(f: Fixed, start: State, steps: seq<Step>, candidate: string, d: DeviceConfig,
                            script: Script)
    requires Lawful(f) && Valid(f, start)
    requires var s := Run(f, start, steps); s.receiver.Idle? && s.lock.None? && Pairable(f, s, candidate, d)
    requires d.dps.Some? ==> d.dps.value.Valid()
    requires script.closes && script.opens && script.reply.Some? && ReadsAsState(d, script.reply.value)
    requires f.hasPath ==> script.saves
    ensures var s := Run(f, start, steps);
            var switched := steps + [PairRequested(candidate)] + [PairLocks] + [PairSwitches];
            var t := Run(f, start, switched + [PairEnds(script)]);
            && t.light == Some(candidate) && t.device == Some(d.deviceId) && t.driver.device == Some(d)
            && t.receiver.Idle? && t.lock.None? && t.tripped == s.tripped
            && Enabled(f, t, CommandStarts) && Next(f, t, CommandStarts).tripped == s.tripped
  {
    var s := Run(f, start, steps);
    TargetFound(f, s, candidate, d);
    hide Run, Next, Enabled, Valid, Lawful, ReadsAsState, Pairable, Target;
    PairReachesSwitch(f, start, steps, candidate, d);
    RunStep(f, start, steps + [PairRequested(candidate)] + [PairLocks] + [PairSwitches], PairEnds(script));
    var switched := steps + [PairRequested(candidate)] + [PairLocks] + [PairSwitches];
    PairEndsWell(f, Run(f, start, switched), s.driver, candidate, d, script);
  }

  // ---- what spoils it ----

  /** The condition is exact: when another device is controlled, agreement
      survives the end of a pairing if and only if it does not spoil it, and
      otherwise the very next command trips. */
  lemma SpoilingIsExact(f: Fixed, s: State, script: Script)
    requires Lawful(f) && Valid(f, s) && Agreed(s) && s.receiver.Switched? && script.closes
    requires ControlEnabled(s) && s.device != Some(s.receiver.device.deviceId)
    ensures Enabled(f, s, PairEnds(script))
    ensures var t := Next(f, s, PairEnds(script));
            && Valid(f, t)
            && (Agreed(t) <==> !Spoils(f, s, PairEnds(script)))
            && (!Agreed(t) ==> Enabled(f, t, CommandStarts) && Next(f, t, CommandStarts).tripped == s.tripped + 1)
  {
    PairEndsKeeps(f, s, script);
    PairEndsTripped(f, s, script);
    BindSound(f.lookup, f.hasPath, s.receiver.before, s.receiver.candidate, s.receiver.device, script);
    BindReport(f.lookup, f.hasPath, s.receiver.before, s.receiver.candidate, s.receiver.device, script);
    hide Bind, Commits, CandidateId, IsLightId, Moved, LookupLawful, Sound;
  }

  /** The driver right after it has loaded a saved binding. */
  function Restored(device: DeviceConfig, light: string): Bound
    requires device.dps.Some? ==> device.dps.value.Valid()
  {
    Bound(Some(device), Some(light), Some(PairingFile.Binding(light, device.deviceId, device.ip)), map[],
          Cache(SettingOf(Some(device)), map[], None))
  }

  /** What a pairing saved is restored by the next start - the same device under
      the same light id - if and only if the raw device id is a light id; a
      binding committed for any other device keeps the Linker from starting. */
  lemma RestartAfterPairing(l: Lookup, t: PairingFile.TextCodec, p: PairingConfig, device: DeviceConfig)
    requires LookupLawful(l) && PairingFile.TextLawful(t) && p.Valid()
    requires MakeDevice(l, p, device.ip, device.deviceId) == Ok(device)
    ensures device.dps.Some? && device.dps.value.Valid()
    ensures var id := CandidateId(l, device.deviceId);
            var text := t.dumps(PairingFile.BindingJson(PairingFile.Binding(id, device.deviceId, device.ip)));
            && PairingFile.Load(l, t, p, Some(text)) == Ok(Some((device, id)))
            && Start(Restored(device, id), None) ==
               if IsLightId(device.deviceId)
               then Some(State(Some(id), Some(device.deviceId), Restored(device, id), map[], None, Idle, 0)) else None
  {
    PairingFile.SaveLoad(l, t, p, device);
    CandidateIsLight(l, device.deviceId);
    hide IsLightId, CandidateId, PairingFile.Load;
  }
}
