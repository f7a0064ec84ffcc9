/** The state callbacks over runs of subscriptions and pairings: `subscribe_state`,
    the unsubscription it hands out, and the move of callbacks in `pair`. */
module Subscriptions {
  import opened Cache
  import opened Common
  import opened Devices
  import opened Dps
  import opened Pairing

  type Configured = d: DeviceConfig | d.dps.Some? ==> d.dps.value.Valid()
    witness DeviceConfig("", "", [], V31, None, "", 0)

  /** A callback is a number. */
  datatype Step =
    | Subscribe(deviceId: string, x: nat)
    | Unsubscribe(deviceId: string, x: nat)    // from the list that is now under this id
    | Turn(candidate: string, device: Configured, script: Script)
    | Traffic(event: Event)

  /** `callbacks.remove(x)`: the first occurrence, if any. */
  function Without(list: seq<nat>, x: nat): seq<nat> {
    if list == [] then [] else if list[0] == x then list[1..] else [list[0]] + Without(list[1..], x)
  }

  lemma {:induction false} WithoutKeeps(list: seq<nat>, x: nat)
    ensures forall y :: y != x ==> (y in Without(list, x) <==> y in list)
    ensures forall y :: y in Without(list, x) ==> y in list
  {
    if list != [] {
      WithoutKeeps(list[1..], x);
      assert list == [list[0]] + list[1..];
    }
  }

  /** `_check_device` comes before anything is registered. */
  predicate Allowed(b: Bound, deviceId: string) { b.device.Some? && b.device.value.deviceId == deviceId }

  function ListOf(callbacks: map<string, seq<nat>>, deviceId: string): seq<nat> {
    if deviceId in callbacks then callbacks[deviceId] else []
  }

  ghost function Next(l: Lookup, hasPath: bool, b: Bound, step: Step): (after: Bound)
    requires LookupLawful(l) && Sound(b)
    ensures Sound(after)
  {
    match step
    case Subscribe(deviceId, x) =>
      if Allowed(b, deviceId) then b.(callbacks := b.callbacks[deviceId := ListOf(b.callbacks, deviceId) + [x]]) else b
    case Unsubscribe(deviceId, x) =>
      if deviceId in b.callbacks then b.(callbacks := b.callbacks[deviceId := Without(b.callbacks[deviceId], x)]) else b
    case Turn(candidate, device, script) =>
      PairTransaction(l, hasPath, b, candidate, device, script);
      Bind(l, hasPath, b, candidate, device, script).0
    case Traffic(event) =>
      if event.Reset? then b else TrafficKeeps(b, event); b.(cache := Apply(b.cache, event))
  }

  lemma TrafficKeeps(b: Bound, e: Event)
    requires Sound(b) && !e.Reset?
    ensures Sound(b.(cache := Apply(b.cache, e)))
  {}

  ghost function Run(l: Lookup, hasPath: bool, start: Bound, steps: seq<Step>): (b: Bound)
    requires LookupLawful(l) && Sound(start)
    ensures Sound(b)
  {
    if steps == [] then start
    else Next(l, hasPath, Run(l, hasPath, start, steps[..|steps| - 1]), steps[|steps| - 1])
  }

  /** A pairing whose error handler is cancelled on an open connection. */
  ghost predicate Interrupted(l: Lookup, hasPath: bool, b: Bound, step: Step)
    requires LookupLawful(l)
  {
    && step.Turn? && step.script.closes && !RollsBack(step.script)
    && !Commits(l, hasPath, b, step.candidate, step.device, step.script)
  }

  // ---- what each step does ----

  /** In every run, a subscription for the current device adds the callback
      behind the others of the device, and one for any other device does nothing. */
  lemma SubscribeMeaning(l: Lookup, hasPath: bool, start: Bound, steps: seq<Step>, deviceId: string, x: nat)
    requires LookupLawful(l) && Sound(start)
    ensures var before := Run(l, hasPath, start, steps);
            var after := Run(l, hasPath, start, steps + [Subscribe(deviceId, x)]);
            var current := before.device.Some? && before.device.value.deviceId == deviceId;
            && after == before.(callbacks := after.callbacks)
            && (!current ==> after.callbacks == before.callbacks)
            && (current ==> deviceId in after.callbacks
                            && after.callbacks[deviceId] == ListOf(before.callbacks, deviceId) + [x])
            && forall id :: id != deviceId ==> ListOf(after.callbacks, id) == ListOf(before.callbacks, id)
  {
    RunStep(l, hasPath, start, steps, Subscribe(deviceId, x));
    hide Run, Sound;
  }

  /** r is the list without its first x, which is at k. */
  predicate CutAt(list: seq<nat>, x: nat, k: int, r: seq<nat>) {
    && 0 <= k < |list| && list[k] == x && |r| == |list| - 1
    && (forall i :: 0 <= i < k ==> list[i] != x && r[i] == list[i])
    && (forall i :: k <= i < |r| ==> r[i] == list[i + 1])
  }

  /** An unsubscription takes exactly one registration of the callback out, if
      there is one under this id, and keeps the others in order. */
  lemma UnsubscribeMeaning(l: Lookup, hasPath: bool, start: Bound, steps: seq<Step>, deviceId: string, x: nat)
    requires LookupLawful(l) && Sound(start)
    ensures var before := Run(l, hasPath, start, steps);
            var after := Run(l, hasPath, start, steps + [Unsubscribe(deviceId, x)]);
            var list, rest := ListOf(before.callbacks, deviceId), ListOf(after.callbacks, deviceId);
            && after == before.(callbacks := after.callbacks)
            && (x !in list ==> rest == list)
            && (x in list ==> exists k :: CutAt(list, x, k, rest))
            && forall id :: id != deviceId ==> ListOf(after.callbacks, id) == ListOf(before.callbacks, id)
  {
    hide Run, Sound, Without, CutAt;
    RunStep(l, hasPath, start, steps, Unsubscribe(deviceId, x));
    var b := Run(l, hasPath, start, steps);
    var list := ListOf(b.callbacks, deviceId);
    var k := WithoutExact(list, x);
    if deviceId in b.callbacks {
      assert ListOf(b.callbacks[deviceId := Without(list, x)], deviceId) == Without(list, x);
      assert x in list ==> CutAt(list, x, k, Without(list, x));
    }
  }

  lemma {:induction false} WithoutExact(list: seq<nat>, x: nat) returns (k: nat)
    ensures x in list ==> CutAt(list, x, k, Without(list, x))
    ensures x !in list ==> Without(list, x) == list
  {
    k := 0;
    if list != [] && list[0] != x {
      var j := WithoutExact(list[1..], x);
      k := j + 1;
      assert list == [list[0]] + list[1..];
      CutConsed(list, x, j, Without(list[1..], x));
    }
  }

  lemma CutConsed(list: seq<nat>, x: nat, j: nat, r: seq<nat>)
    requires list != [] && list[0] != x
    ensures CutAt(list[1..], x, j, r) ==> CutAt(list, x, j + 1, [list[0]] + r)
  {}

  // ---- what is kept ----

  /** Only the current device has callbacks. */
  ghost predicate Current(b: Bound) {
    forall id :: id in b.callbacks && b.callbacks[id] != [] ==> Allowed(b, id)
  }

  /** No two devices have callbacks. */
  ghost predicate Together(callbacks: map<string, seq<nat>>) {
    forall i, j :: i in callbacks && j in callbacks && callbacks[i] != [] && callbacks[j] != [] ==> i == j
  }

  /** A pairing either leaves the callbacks alone or moves them to the new device. */
  lemma TurnCallbacks(l: Lookup, hasPath: bool, b: Bound, candidate: string, device: Configured, script: Script)
    requires LookupLawful(l) && Sound(b)
    ensures var after := Bind(l, hasPath, b, candidate, device, script).0;
            && (Commits(l, hasPath, b, candidate, device, script) ==>
                  after.device == Some(device) && after.callbacks == Moved(b.callbacks, b.device, device.deviceId))
            && (!Commits(l, hasPath, b, candidate, device, script) ==>
                  && after.callbacks == b.callbacks
                  && (!script.closes || RollsBack(script) ==> after.device == b.device))
  {
    PairTransaction(l, hasPath, b, candidate, device, script);
    if script.closes { TriedMeaning(l, hasPath, b, candidate, device, script); }
    hide Tried, Switch, Commits, Moved, Report, RollsBack;
  }

  lemma MovedTogether(callbacks: map<string, seq<nat>>, previous: Option<DeviceConfig>, deviceId: string)
    requires Together(callbacks)
    ensures Together(Moved(callbacks, previous, deviceId))
    ensures forall x :: Subscribed(callbacks, x) ==> Subscribed(Moved(callbacks, previous, deviceId), x)
  {
    if previous.Some? {
      CallbacksFollow(callbacks, previous.value, deviceId);
      forall x | Subscribed(callbacks, x) ensures Subscribed(Moved(callbacks, previous, deviceId), x) {
        SubscriptionLost(callbacks, previous.value, deviceId, x);
        var id :| id in callbacks && x in callbacks[id];
      }
    }
  }

  lemma MovedCurrent(b: Bound, device: DeviceConfig)
    requires Current(b)
    ensures Together(b.callbacks)
    ensures var moved := Moved(b.callbacks, b.device, device.deviceId);
            forall id :: id in moved && moved[id] != [] ==> id == device.deviceId
  {}

  /** Without an interrupted rollback, only the current device has callbacks. */
  lemma StepCurrent(l: Lookup, hasPath: bool, b: Bound, step: Step)
    requires LookupLawful(l) && Sound(b) && Current(b) && !Interrupted(l, hasPath, b, step)
    ensures Current(Next(l, hasPath, b, step))
  {
    if step.Turn? {
      TurnCallbacks(l, hasPath, b, step.candidate, step.device, step.script);
      MovedCurrent(b, step.device);
    }
    hide Bind, Commits, Moved, RollsBack, LookupLawful, Sound, Apply;
  }

  /** As long as no two devices have callbacks, no step but its own
      unsubscription takes a callback away. */
  lemma StepKeeps(l: Lookup, hasPath: bool, b: Bound, step: Step, x: nat)
    requires LookupLawful(l) && Sound(b) && Together(b.callbacks)
    requires Subscribed(b.callbacks, x) && !(step.Unsubscribe? && step.x == x)
    ensures Subscribed(Next(l, hasPath, b, step).callbacks, x)
  {
    var id :| id in b.callbacks && x in b.callbacks[id];
    var after := Next(l, hasPath, b, step).callbacks;
    match step
    case Subscribe(deviceId, y) => assert id in after && x in after[id];
    case Unsubscribe(deviceId, y) =>
      if deviceId in b.callbacks { WithoutKeeps(b.callbacks[deviceId], y); }
      assert id in after && x in after[id];
    case Turn(candidate, device, script) =>
      TurnCallbacks(l, hasPath, b, candidate, device, script);
      MovedTogether(b.callbacks, b.device, device.deviceId);
    case Traffic(_) =>
  }

  ghost predicate Uninterrupted(l: Lookup, hasPath: bool, start: Bound, steps: seq<Step>)
    requires LookupLawful(l) && Sound(start)
  {
    forall n :: 0 <= n < |steps| ==> !Interrupted(l, hasPath, Run(l, hasPath, start, steps[..n]), steps[n])
  }

  lemma RunFront(l: Lookup, hasPath: bool, start: Bound, steps: seq<Step>)
    requires LookupLawful(l) && Sound(start) && steps != []
    ensures var front := steps[..|steps| - 1];
            && (Uninterrupted(l, hasPath, start, steps) ==>
                  && Uninterrupted(l, hasPath, start, front)
                  && !Interrupted(l, hasPath, Run(l, hasPath, start, front), steps[|steps| - 1]))
  {
    hide Interrupted, Run;
    var front := steps[..|steps| - 1];
    assert forall n :: 0 <= n < |front| ==> front[..n] == steps[..n] && front[n] == steps[n];
  }

  /** Over every run of subscriptions and pairings with no interrupted rollback,
      only the driver's current device has callbacks, so its pushes reach them. */
  lemma {:induction false} CallbacksAreCurrent(l: Lookup, hasPath: bool, start: Bound, steps: seq<Step>)
    requires LookupLawful(l) && Sound(start) && Current(start) && Uninterrupted(l, hasPath, start, steps)
    ensures Current(Run(l, hasPath, start, steps))
  {
    hide Next, Current, Interrupted, Uninterrupted;
    if steps != [] {
      var front := steps[..|steps| - 1];
      RunFront(l, hasPath, start, steps);
      CallbacksAreCurrent(l, hasPath, start, front);
      StepCurrent(l, hasPath, Run(l, hasPath, start, front), steps[|steps| - 1]);
    }
  }

  /** The callback is not unsubscribed in these steps. */
  predicate Stays(steps: seq<Step>, x: nat) {
    forall n :: 0 <= n < |steps| ==> !(steps[n].Unsubscribe? && steps[n].x == x)
  }

  /** And no subscription is lost: whatever was subscribed at any point of such a
      run still is, under the current device, unless it was unsubscribed. */
  lemma {:induction false} NothingLost(l: Lookup, hasPath: bool, start: Bound, steps: seq<Step>, n: nat, x: nat)
    requires LookupLawful(l) && Sound(start) && Current(start) && Uninterrupted(l, hasPath, start, steps)
    requires n <= |steps| && Subscribed(Run(l, hasPath, start, steps[..n]).callbacks, x) && Stays(steps[n..], x)
    ensures Subscribed(Run(l, hasPath, start, steps).callbacks, x)
    ensures var b := Run(l, hasPath, start, steps); b.device.Some? && x in ListOf(b.callbacks, b.device.value.deviceId)
  {
    hide Next, Interrupted, Uninterrupted;
    if n < |steps| {
      var front, last := steps[..|steps| - 1], steps[|steps| - 1];
      RunFront(l, hasPath, start, steps);
      assert front[..n] == steps[..n] && steps[n..][|steps| - 1 - n] == last;
      assert forall k :: 0 <= k < |front[n..]| ==> front[n..][k] == steps[n..][k];
      NothingLost(l, hasPath, start, front, n, x);
      CallbacksAreCurrent(l, hasPath, start, front);
      StepKeeps(l, hasPath, Run(l, hasPath, start, front), last, x);
    } else {
      assert steps[..n] == steps;
    }
    CallbacksAreCurrent(l, hasPath, start, steps);
  }

  // ---- one subscriber ----

  /** Nobody subscribes while somebody is subscribed, as the publisher does:
      it subscribes again only after it has unsubscribed. */
  ghost predicate OneAtATime(l: Lookup, hasPath: bool, start: Bound, steps: seq<Step>)
    requires LookupLawful(l) && Sound(start)
  {
    forall n :: 0 <= n < |steps| && steps[n].Subscribe? ==>
      forall id :: id in Run(l, hasPath, start, steps[..n]).callbacks ==>
        Run(l, hasPath, start, steps[..n]).callbacks[id] == []
  }

  lemma StepTogether(l: Lookup, hasPath: bool, b: Bound, step: Step)
    requires LookupLawful(l) && Sound(b) && Together(b.callbacks)
    requires step.Subscribe? ==> forall id :: id in b.callbacks ==> b.callbacks[id] == []
    ensures Together(Next(l, hasPath, b, step).callbacks)
  {
    match step
    case Unsubscribe(deviceId, y) => if deviceId in b.callbacks { NotLonger(b.callbacks[deviceId], y); }
    case Turn(candidate, device, script) =>
      TurnCallbacks(l, hasPath, b, candidate, device, script);
      MovedTogether(b.callbacks, b.device, device.deviceId);
    case _ =>
  }

  lemma NotLonger(list: seq<nat>, x: nat)
    ensures list == [] ==> Without(list, x) == []
  {}

  lemma {:induction false} RunTogether(l: Lookup, hasPath: bool, start: Bound, steps: seq<Step>)
    requires LookupLawful(l) && Sound(start) && Together(start.callbacks) && OneAtATime(l, hasPath, start, steps)
    ensures Together(Run(l, hasPath, start, steps).callbacks)
  {
    hide Next, Together;
    if steps != [] {
      var front, last := steps[..|steps| - 1], steps[|steps| - 1];
      assert forall n :: 0 <= n < |front| ==> front[..n] == steps[..n] && front[n] == steps[n];
      RunTogether(l, hasPath, start, front);
      StepTogether(l, hasPath, Run(l, hasPath, start, front), last);
    }
  }

  /** A single subscriber loses nothing even to interrupted rollbacks. */
  lemma {:induction false} OneSubscriberKeeps(l: Lookup, hasPath: bool, start: Bound, steps: seq<Step>, n: nat, x: nat)
    requires LookupLawful(l) && Sound(start) && Together(start.callbacks) && OneAtATime(l, hasPath, start, steps)
    requires n <= |steps| && Subscribed(Run(l, hasPath, start, steps[..n]).callbacks, x) && Stays(steps[n..], x)
    ensures Subscribed(Run(l, hasPath, start, steps).callbacks, x)
  {
    hide Next, Together;
    if n < |steps| {
      var front, last := steps[..|steps| - 1], steps[|steps| - 1];
      assert forall k :: 0 <= k < |front| ==> front[..k] == steps[..k] && front[k] == steps[k];
      assert front[..n] == steps[..n] && steps[n..][|steps| - 1 - n] == last;
      assert forall k :: 0 <= k < |front[n..]| ==> front[n..][k] == steps[n..][k];
      OneSubscriberKeeps(l, hasPath, start, front, n, x);
      RunTogether(l, hasPath, start, front);
      StepKeeps(l, hasPath, Run(l, hasPath, start, front), last, x);
    } else {
      assert steps[..n] == steps;
    }
  }

  // ---- how one is lost ----

  /** A callback on device a, a pairing to b whose rollback is interrupted, and a
      second callback on b, which is still in place. */
  function Split(a: Configured, b: Configured, toB: string, cut: Script): seq<Step> {
    [Subscribe(a.deviceId, 1)] + [Turn(toB, b, cut)] + [Subscribe(b.deviceId, 2)]
  }

  lemma SplitCallbacks(l: Lookup, hasPath: bool, start: Bound, a: Configured, b: Configured, toB: string, cut: Script)
    requires LookupLawful(l) && Sound(start) && start.device == Some(a) && start.callbacks == map[]
    requires a.deviceId != b.deviceId && Interrupted(l, hasPath, start, Turn(toB, b, cut))
    ensures var s := Run(l, hasPath, start, Split(a, b, toB, cut));
            s.callbacks == map[a.deviceId := [1], b.deviceId := [2]] && s.device == Some(b)
  {
    RunStep(l, hasPath, start, [], Subscribe(a.deviceId, 1));
    RunStep(l, hasPath, start, [Subscribe(a.deviceId, 1)], Turn(toB, b, cut));
    RunStep(l, hasPath, start, [Subscribe(a.deviceId, 1)] + [Turn(toB, b, cut)], Subscribe(b.deviceId, 2));
    assert [] + [Subscribe(a.deviceId, 1)] == [Subscribe(a.deviceId, 1)];
    var s := Next(l, hasPath, start, Subscribe(a.deviceId, 1));
    var first: map<string, seq<nat>> := map[];
    var none: seq<nat> := [];
    assert none + [1] == [1] && none + [2] == [2];
    assert first[a.deviceId := [1]] == map[a.deviceId := [1]];
    assert s.callbacks == map[a.deviceId := [1]];
    assert map[a.deviceId := [1]][b.deviceId := [2]] == map[a.deviceId := [1], b.deviceId := [2]];
    CommitsWithout(l, hasPath, start, s, toB, b, cut);
    InterruptedRollback(l, hasPath, s, toB, b, cut);
    TurnCallbacks(l, hasPath, s, toB, b, cut);
    hide Run, Bind, Commits, Sound, LookupLawful;
  }

  /** Both conditions are needed: pairing back to a, the callbacks of b overwrite
      those of a. */
  lemma InterruptedLoses(l: Lookup, hasPath: bool, start: Bound, a: Configured, b: Configured, toB: string, toA: string,
                         cut: Script, done: Script)
    requires LookupLawful(l) && Sound(start) && start.device == Some(a) && start.callbacks == map[]
    requires a.deviceId != b.deviceId && Interrupted(l, hasPath, start, Turn(toB, b, cut))
    requires Commits(l, hasPath, Run(l, hasPath, start, Split(a, b, toB, cut)), toA, a, done)
    ensures Subscribed(Run(l, hasPath, start, Split(a, b, toB, cut)).callbacks, 1)
    ensures !Subscribed(Run(l, hasPath, start, Split(a, b, toB, cut) + [Turn(toA, a, done)]).callbacks, 1)
  {
    hide Run, Bind, Commits, Interrupted, Sound, LookupLawful, Split, Moved;
    var s := Run(l, hasPath, start, Split(a, b, toB, cut));
    SplitCallbacks(l, hasPath, start, a, b, toB, cut);
    RunStep(l, hasPath, start, Split(a, b, toB, cut), Turn(toA, a, done));
    TurnCallbacks(l, hasPath, s, toA, a, done);
    assert 1 in s.callbacks[a.deviceId];
    MovedBack(a.deviceId, b);
  }

  lemma MovedBack(a: string, b: DeviceConfig)
    requires a != b.deviceId
    ensures Moved(map[a := [1], b.deviceId := [2]], Some(b), a) == map[a := [2]]
  {}

  /** Callbacks do not decide whether a pairing commits. */
  lemma CommitsWithout(l: Lookup, hasPath: bool, b: Bound, c: Bound, candidate: string, device: Configured, s: Script)
    requires LookupLawful(l) && c == b.(callbacks := c.callbacks)
    ensures Commits(l, hasPath, b, candidate, device, s) <==> Commits(l, hasPath, c, candidate, device, s)
  {}

  lemma RunStep(l: Lookup, hasPath: bool, start: Bound, steps: seq<Step>, step: Step)
    requires LookupLawful(l) && Sound(start)
    ensures Run(l, hasPath, start, steps + [step]) == Next(l, hasPath, Run(l, hasPath, start, steps), step)
    ensures Run(l, hasPath, start, []) == start
  {
    assert (steps + [step])[..|steps|] == steps;
  }
}
