/** The boundary between server and driver: which commands are admitted, the
    idempotency journal, and concurrent runs of `handle`. */
module Boundary {
  import opened Commands
  import opened Common
  import opened Dps
  import opened Hsv
  import opened Json
  import opened Scaling

  /** An envelope from the server; ids are in canonical form. */
  datatype Envelope = Envelope(kind: string, id: string, correlationId: Option<string>, payload: seq<(string, Json)>)

  datatype Status =
    | Applied(state: LightState)
    | Failed                       // the physical action was not confirmed
    | Rejected(code: string)

  /** The payload of a command result. */
  datatype Payload = Payload(status: Status, lightId: string, commandId: string, key: string)

  /** An admitted command.  A body that does not parse has no action. */
  datatype Request = Request(lightId: string, commandId: string, key: string, action: Option<Command>)

  /** `UUID(str(value))` in canonical form, if it is one. */
  type UuidReader = Json -> Option<string>

  // ---- admission ----

  const COMMAND_TYPES := {"light.command.power", "light.command.brightness", "light.command.rgb_color"}

  function RequiredString(payload: seq<(string, Json)>, key: string): Option<string> {
    match Get(payload, key)
    case Some(Str(s)) => if s == "" || |s| > 128 then None else Some(s)
    case _ => None
  }

  /** The payload has this text, of 1 to 128 characters, under the key. */
  predicate HasText(payload: seq<(string, Json)>, key: string, s: string) {
    Get(payload, key) == Some(Str(s)) && 1 <= |s| <= 128
  }

  lemma RequiredStringExact(payload: seq<(string, Json)>, key: string)
    ensures forall s :: RequiredString(payload, key) == Some(s) <==> HasText(payload, key, s)
  {
    hide Get;
  }

  function RequiredUuid(uuid: UuidReader, payload: seq<(string, Json)>, key: string): Option<string> {
    match Get(payload, key)
    case Some(v) => uuid(v)
    case None => None
  }

  /** The driver operation a command body asks for, if it is well-formed. */
  function Action(kind: string, payload: seq<(string, Json)>): Option<Command> {
    if kind == "light.command.power" then
      match GetOrNull(payload, "power")
      case Bool(power) => Some(if power then TurnOn(None, None, None) else TurnOff)
      case _ => None
    else if kind == "light.command.brightness" then
      match GetOrNull(payload, "brightness")
      case Int(b) => if IsChannel(b) then Some(SetBrightness(b)) else None
      case _ => None
    else
      match GetOrNull(payload, "rgb_color")
      case Obj(members) => ColorAction(GetOrNull(members, "r"), GetOrNull(members, "g"), GetOrNull(members, "b"))
      case _ => None
  }

  function ColorAction(r: Json, g: Json, b: Json): Option<Command> {
    if r.Int? && g.Int? && b.Int? && Rgb(r.i, g.i, b.i).Valid() then Some(SetRgb(Rgb(r.i, g.i, b.i))) else None
  }

  function KindOf(c: Command): string {
    match c
    case TurnOn(_, _, _) => "light.command.power"
    case TurnOff => "light.command.power"
    case SetBrightness(_) => "light.command.brightness"
    case SetRgb(_) => "light.command.rgb_color"
    case SetWhite(_) => ""
  }

  /** A body that asks for exactly this operation. */
  predicate AsksFor(payload: seq<(string, Json)>, c: Command) {
    match c
    case TurnOn(rgb, level, warm) => GetOrNull(payload, "power") == Bool(true) && rgb.None? && level.None? && warm.None?
    case TurnOff => GetOrNull(payload, "power") == Bool(false)
    case SetBrightness(b) => GetOrNull(payload, "brightness") == Int(b) && IsChannel(b)
    case SetRgb(rgb) =>
      var v := GetOrNull(payload, "rgb_color");
      && v.Obj? && rgb.Valid()
      && GetOrNull(v.members, "r") == Int(rgb.r) && GetOrNull(v.members, "g") == Int(rgb.g)
           && GetOrNull(v.members, "b") == Int(rgb.b)
    case SetWhite(_) => false
  }

  /** A command message starts an operation exactly when its body asks for it
      under the operation's message type; booleans are no numbers. */
  lemma ActionMeaning(kind: string, payload: seq<(string, Json)>, c: Command)
    requires kind in COMMAND_TYPES
    ensures Action(kind, payload) == Some(c) <==> kind == KindOf(c) && AsksFor(payload, c)
  {
    assert kind[14] == 'p' || kind[14] == 'b' || kind[14] == 'r';
    hide GetOrNull;
  }

  datatype Admission =
    | ToDiscovery                  // handed to `handle_discovery`
    | ToPairing                    // handed to `handle_pairing`
    | Refused                      // `handle` raises ValueError
    | Answer(payload: Payload)     // rejected before the lock
    | Admit(request: Request)

  /** `handle` up to the command lock. */
  function Admitted(uuid: UuidReader, light: Option<string>, e: Envelope): Admission {
    if e.kind == "discovery.start" then ToDiscovery
    else if e.kind == "pairing.start" then ToPairing
    else if e.kind !in COMMAND_TYPES || e.correlationId.None? then Refused else
      var lightId := RequiredString(e.payload, "light_id");
      var commandId := RequiredUuid(uuid, e.payload, "command_id");
      var key := RequiredString(e.payload, "idempotency_key");
      var shownLight := if lightId.Some? then lightId.value
        else if light.Some? && light.value != "" then light.value else "invalid.light";
      var shownCommand := if commandId.Some? then commandId.value else e.id;
      var shownKey := if key.Some? then key.value else "invalid:" + e.id;
      if lightId.None? || commandId.None? || key.None?
      then Answer(Payload(Rejected("invalid_command"), shownLight, shownCommand, shownKey))
      else if light.None? || lightId.value != light.value
      then Answer(Payload(Rejected("unknown_light"), shownLight, shownCommand, shownKey))
      else Admit(Request(lightId.value, commandId.value, key.value, Action(e.kind, e.payload)))
  }

  ghost predicate Lacks(payload: seq<(string, Json)>, key: string) { forall s :: !HasText(payload, key, s) }

  predicate HasUuid(uuid: UuidReader, payload: seq<(string, Json)>, key: string, id: string) {
    Get(payload, key).Some? && uuid(Get(payload, key).value) == Some(id)
  }

  /** What an answer shows: what the command says, and what it falls back to
      where the command says nothing readable. */
  ghost predicate Shows(uuid: UuidReader, light: Option<string>, e: Envelope, p: Payload) {
    && (HasText(e.payload, "light_id", p.lightId)
        || (Lacks(e.payload, "light_id")
            && p.lightId == if light.Some? && light.value != "" then light.value else "invalid.light"))
    && (HasUuid(uuid, e.payload, "command_id", p.commandId)
        || ((forall id :: !HasUuid(uuid, e.payload, "command_id", id)) && p.commandId == e.id))
    && (HasText(e.payload, "idempotency_key", p.key)
        || (Lacks(e.payload, "idempotency_key") && p.key == "invalid:" + e.id))
  }

  /** The command is readable: it names a light, an identity and a key. */
  ghost predicate Readable(uuid: UuidReader, payload: seq<(string, Json)>) {
    && !Lacks(payload, "light_id") && !Lacks(payload, "idempotency_key")
    && exists id :: HasUuid(uuid, payload, "command_id", id)
  }

  /** Only commands for the light the boundary controls, with an identity and a
      key, get past the checks; a colour they carry has its channels in range.
      A command that does not is answered under the ids it shows. */
  lemma AdmittedMeaning(uuid: UuidReader, light: Option<string>, e: Envelope)
    ensures Admitted(uuid, light, e).ToDiscovery? <==> e.kind == "discovery.start"
    ensures Admitted(uuid, light, e).ToPairing? <==> e.kind == "pairing.start"
    ensures Admitted(uuid, light, e).Refused? <==>
              && e.kind != "discovery.start" && e.kind != "pairing.start"
              && (e.kind in COMMAND_TYPES ==> e.correlationId.None?)
    ensures Admitted(uuid, light, e).Admit? <==>
              && e.kind in COMMAND_TYPES && e.correlationId.Some?
              && Readable(uuid, e.payload) && light.Some? && HasText(e.payload, "light_id", light.value)
    ensures Admitted(uuid, light, e).Admit? ==>
              var action := Admitted(uuid, light, e).request.action;
              action.Some? ==>
                && WellFormed(action.value)
                && (BrightnessSet(action.value).Some? ==> IsChannel(BrightnessSet(action.value).value))
    ensures Admitted(uuid, light, e).Admit? ==>
              var r := Admitted(uuid, light, e).request;
              && Some(r.lightId) == light && HasUuid(uuid, e.payload, "command_id", r.commandId)
              && HasText(e.payload, "idempotency_key", r.key)
              && r.action == Action(e.kind, e.payload)
    ensures Admitted(uuid, light, e).Answer? ==>
              var p := Admitted(uuid, light, e).payload;
              && p.status == Rejected(if Readable(uuid, e.payload) then "unknown_light" else "invalid_command")
              && Shows(uuid, light, e, p)
  {
    DispatchIsNoCommand();
    StringRead(e.payload, "light_id");
    StringRead(e.payload, "idempotency_key");
    UuidRead(uuid, e.payload, "command_id");
    hide RequiredString, RequiredUuid, HasText, HasUuid, Lacks, Get, GetOrNull;
  }

  lemma StringRead(payload: seq<(string, Json)>, key: string)
    ensures var r := RequiredString(payload, key);
            && (r.None? <==> Lacks(payload, key))
            && forall s :: HasText(payload, key, s) <==> r == Some(s)
  {
    RequiredStringExact(payload, key);
    hide RequiredString, HasText;
    if RequiredString(payload, key).Some? { assert HasText(payload, key, RequiredString(payload, key).value); }
  }

  lemma UuidRead(uuid: UuidReader, payload: seq<(string, Json)>, key: string)
    ensures var r := RequiredUuid(uuid, payload, key);
            forall id :: HasUuid(uuid, payload, key, id) <==> r == Some(id)
  {
    hide Get;
  }

  lemma DispatchIsNoCommand()
    ensures "discovery.start" !in COMMAND_TYPES && "pairing.start" !in COMMAND_TYPES
    ensures "discovery.start" != "pairing.start"
  {
    assert "discovery.start"[0] == 'd' && "pairing.start"[0] == 'p';
    assert forall kind :: kind in COMMAND_TYPES ==> kind[0] == 'l';
  }

  // ---- the journal ----

  type Journal = map<string, Payload>

  /** `setdefault` */
  function Recorded(j: Journal, key: string, p: Payload): Journal {
    if key in j then j else j[key := p]
  }

  /** The journal after these puts, in order. */
  function RecordAll(puts: seq<(string, Payload)>): Journal {
    if puts == [] then map[]
    else Recorded(RecordAll(puts[..|puts| - 1]), puts[|puts| - 1].0, puts[|puts| - 1].1)
  }

  ghost predicate FirstPut(puts: seq<(string, Payload)>, key: string, k: nat) {
    && k < |puts| && puts[k].0 == key
    && forall j :: 0 <= j < k ==> puts[j].0 != key
  }

  /** What is found under a key, whatever was put since, is what was put first. */
  lemma {:induction false} FirstPutIsFound(puts: seq<(string, Payload)>, key: string)
    ensures key in RecordAll(puts) <==> exists k: nat :: FirstPut(puts, key, k)
    ensures forall k: nat :: FirstPut(puts, key, k) ==> key in RecordAll(puts) && RecordAll(puts)[key] == puts[k].1
  {
    if puts != [] {
      var last := |puts| - 1;
      var front := puts[..last];
      FirstPutIsFound(front, key);
      forall k: nat | k < last ensures FirstPut(front, key, k) <==> FirstPut(puts, key, k) {}
      if key in RecordAll(front) {
        var k: nat :| FirstPut(front, key, k);
        assert FirstPut(puts, key, k);
      } else {
        forall j | 0 <= j < last ensures puts[j].0 != key { NoFirstPut(front, key, j); }
        assert puts[last].0 == key ==> FirstPut(puts, key, last);
      }
    }
  }

  lemma {:induction false} NoFirstPut(puts: seq<(string, Payload)>, key: string, j: nat)
    requires j < |puts| && forall k: nat :: !FirstPut(puts, key, k)
    ensures puts[j].0 != key
  {
    forall i: nat | i < j ensures puts[i].0 != key { NoFirstPut(puts, key, i); }
    assert puts[j].0 == key ==> FirstPut(puts, key, j);
  }

  function Rejection(r: Request, code: string): Payload {
    Payload(Rejected(code), r.lightId, r.commandId, r.key)
  }

  /** What the holder of the command lock does before its first await: answer
      from the journal, refuse a malformed body, or start the operation. */
  datatype Turn =
    | Reply(payload: Payload, journal: Journal)
    | Operate(command: Command)

  function TurnOf(j: Journal, r: Request): Turn {
    if r.key in j then
      Reply(if j[r.key].commandId == r.commandId then j[r.key] else Rejection(r, "idempotency_conflict"), j)
    else if r.action.None? then
      Reply(Rejection(r, "invalid_command"), Recorded(j, r.key, Rejection(r, "invalid_command")))
    else Operate(r.action.value)
  }

  /** The payload once the driver has returned or raised. */
  function Outcome(r: Request, outcome: Option<LightState>): Payload {
    Payload(if outcome.Some? then Applied(outcome.value) else Failed, r.lightId, r.commandId, r.key)
  }

  class MemoryCommandJournal {
    var results: Journal

    constructor ()
      ensures results == map[]
    {
      results := map[];
    }

    method Lookup(key: string) returns (r: Option<Payload>)
      ensures r == if key in results then Some(results[key]) else None
    {
      r := if key in results then Some(results[key]) else None;
    }

    /** The first result of a key stays. */
    method Put(key: string, result: Payload)
      modifies this
      ensures results == Recorded(old(results), key, result)
      ensures key in results && (key in old(results) ==> results[key] == old(results)[key])
    {
      if key !in results {
        results := results[key := result];
      }
    }
  }

  class LinkerBoundary {
    const uuid: UuidReader
    const journal: MemoryCommandJournal
    var lightId: Option<string>
    var deviceId: Option<string>

    /** `descriptor` is the id of the descriptor, if there is one. */
    constructor (uuid: UuidReader, lightId: Option<string>, deviceId: Option<string>, descriptor: Option<string>)
      requires descriptor != Some("")
      ensures fresh(journal) && journal.results == map[] && this.uuid == uuid
      ensures lightId.Some? && lightId.value != "" ==> this.lightId == lightId
      ensures lightId.None? || lightId.value == "" ==> this.lightId == descriptor
      ensures deviceId.Some? && deviceId.value != "" ==> this.deviceId == deviceId
      ensures deviceId.None? || deviceId.value == "" ==> this.deviceId == this.lightId
    {
      var light := if lightId.Some? && lightId.value != "" then lightId else descriptor;
      this.uuid, this.lightId := uuid, light;
      this.deviceId := if deviceId.Some? && deviceId.value != "" then deviceId else light;
      journal := new MemoryCommandJournal();
    }

    /** `handle` up to the command lock: it changes nothing. */
    method Screen(e: Envelope) returns (a: Admission)
      ensures a == Admitted(uuid, lightId, e)
    {
      if e.kind == "discovery.start" {
        return ToDiscovery;
      }
      if e.kind == "pairing.start" {
        return ToPairing;
      }
      if e.kind !in COMMAND_TYPES || e.correlationId.None? {
        return Refused;
      }
      var light := RequiredString(e.payload, "light_id");
      var commandId := RequiredUuid(uuid, e.payload, "command_id");
      var key := RequiredString(e.payload, "idempotency_key");
      var invalid := light.None? || commandId.None? || key.None?;
      if light.None? {
        light := Some(if lightId.Some? && lightId.value != "" then lightId.value else "invalid.light");
      }
      if commandId.None? {
        commandId := Some(e.id);
      }
      if key.None? {
        key := Some("invalid:" + e.id);
      }
      if invalid {
        return Answer(Payload(Rejected("invalid_command"), light.value, commandId.value, key.value));
      }
      if lightId.None? || light.value != lightId.value {
        return Answer(Payload(Rejected("unknown_light"), light.value, commandId.value, key.value));
      }
      return Admit(Request(light.value, commandId.value, key.value, Action(e.kind, e.payload)));
    }

    /** The holder of the lock, up to the driver operation. */
    method TakeTurn(r: Request) returns (reply: Option<Payload>)
      modifies journal
      ensures match TurnOf(old(journal.results), r)
              case Reply(payload, results) => reply == Some(payload) && journal.results == results
              case Operate(_) => reply == None && journal.results == old(journal.results)
    {
      var cached := journal.Lookup(r.key);
      if cached.Some? {
        if cached.value.commandId != r.commandId {
          return Some(Rejection(r, "idempotency_conflict"));
        }
        return cached;
      }
      if r.action.None? {
        reply := Some(Rejection(r, "invalid_command"));
        journal.Put(r.key, reply.value);
        return;
      }
      return None;
    }

    /** After the driver operation. */
    method Finish(r: Request, outcome: Option<LightState>) returns (reply: Payload)
      modifies journal
      ensures reply == Outcome(r, outcome) && journal.results == Recorded(old(journal.results), r.key, reply)
      ensures forall s :: reply.status == Applied(s) <==> outcome == Some(s)
      ensures reply.status.Failed? <==> outcome.None?
      ensures reply.lightId == r.lightId && reply.commandId == r.commandId && reply.key == r.key
    {
      reply := Payload(if outcome.Some? then Applied(outcome.value) else Failed, r.lightId, r.commandId, r.key);
      journal.Put(r.key, reply);
    }

    /** The end of `handle_pairing`: only a result for the candidate that was
        asked for is taken over. */
    method AdoptPairing(candidate: string, result: Option<(string, string)>) returns (completed: bool)
      modifies `lightId, `deviceId
      ensures completed <==> result.Some? && result.value.1 != "" && result.value.0 == candidate
      ensures if completed then lightId == Some(candidate) && deviceId == Some(result.value.1)
              else lightId == old(lightId) && deviceId == old(deviceId)
    {
      if result.None? || result.value.1 == "" || result.value.0 != candidate {
        return false;
      }
      lightId, deviceId := Some(result.value.0), Some(result.value.1);
      return true;
    }
  }

  // ---- concurrent runs ----

  /** Where a call of `handle` stands. */
  datatype Pc =
    | Queued(request: Request)                      // waiting for the command lock
    | Operating(request: Request)                   // holding it, awaiting the driver
    | Answered(request: Request, payload: Payload)
    | Turned(admission: Admission)                  // handed on, raised, or rejected before the lock
    | Dropped(request: Request)                     // cancelled

  /** A driver operation that was started. */
  datatype Call = Call(task: nat, key: string, commandId: string, command: Command)

  datatype State = State(light: Option<string>, journal: Journal, holder: Option<nat>, tasks: map<nat, Pc>,
                         calls: seq<Call>, cancelled: seq<Call>)

  datatype Step =
    | Rebind(light: Option<string>)                 // a pairing changes the light
    | Submit(id: nat, envelope: Envelope)
    | Enter(id: nat)
    | Complete(id: nat, outcome: Option<LightState>)
    | Cancel(id: nat)

  const INITIAL := State(None, map[], None, map[], [], [])

  predicate Enabled(s: State, step: Step) {
    match step
    case Rebind(_) => true
    case Submit(id, _) => id !in s.tasks
    case Enter(id) => id in s.tasks && s.tasks[id].Queued? && s.holder.None?
    case Complete(id, _) => id in s.tasks && s.tasks[id].Operating?
    case Cancel(id) => id in s.tasks && (s.tasks[id].Queued? || s.tasks[id].Operating?)
  }

  function CallOf(id: nat, r: Request): Call
    requires r.action.Some?
  {
    Call(id, r.key, r.commandId, r.action.value)
  }

  function Apply(uuid: UuidReader, s: State, step: Step): State
    requires Enabled(s, step)
  {
    match step
    case Rebind(light) => s.(light := light)
    case Submit(id, e) =>
      var a := Admitted(uuid, s.light, e);
      s.(tasks := s.tasks[id := if a.Admit? then Queued(a.request) else Turned(a)])
    case Enter(id) =>
      var r := s.tasks[id].request;
      (match TurnOf(s.journal, r)
       case Reply(payload, journal) => s.(journal := journal, tasks := s.tasks[id := Answered(r, payload)])
       case Operate(_) => s.(holder := Some(id), tasks := s.tasks[id := Operating(r)],
         calls := s.calls + [CallOf(id, r)]))
    case Complete(id, outcome) =>
      var r := s.tasks[id].request;
      s.(journal := Recorded(s.journal, r.key, Outcome(r, outcome)), holder := None,
         tasks := s.tasks[id := Answered(r, Outcome(r, outcome))])
    case Cancel(id) =>
      var r := s.tasks[id].request;
      if s.tasks[id].Operating? && r.action.Some?
      then s.(holder := None, tasks := s.tasks[id := Dropped(r)], cancelled := s.cancelled + [CallOf(id, r)])
      else s.(tasks := s.tasks[id := Dropped(r)])
  }

  /** The state after a run; steps that are not enabled change nothing. */
  function Run(uuid: UuidReader, steps: seq<Step>): State {
    if steps == [] then INITIAL else
      var s := Run(uuid, steps[..|steps| - 1]);
      if Enabled(s, steps[|steps| - 1]) then Apply(uuid, s, steps[|steps| - 1]) else s
  }

  /** Entries of a call log with this key. */
  function Count(log: seq<Call>, key: string): nat {
    if log == [] then 0
    else Count(log[..|log| - 1], key) + if log[|log| - 1].key == key then 1 else 0
  }

  lemma CountAppend(log: seq<Call>, c: Call, key: string)
    ensures Count(log + [c], key) == Count(log, key) + if c.key == key then 1 else 0
  {
    assert (log + [c])[..|log|] == log;
  }

  /** A result of an operation, as opposed to a refusal of the body. */
  predicate Executed(p: Payload) { p.status.Applied? || p.status.Failed? }

  function Flying(s: State, key: string): nat {
    if && s.holder.Some? && s.holder.value in s.tasks && s.tasks[s.holder.value].Operating?
       && s.tasks[s.holder.value].request.key == key
    then 1 else 0
  }

  function Kept(j: Journal, key: string): nat { if key in j && Executed(j[key]) then 1 else 0 }

  /** The lock has one holder, the only task inside an operation. */
  ghost predicate LockInv(s: State) {
    && (forall id :: id in s.tasks && s.tasks[id].Operating? ==> s.holder == Some(id))
    && (s.holder.Some? ==> s.holder.value in s.tasks && s.tasks[s.holder.value].Operating?
                           && s.tasks[s.holder.value].request.action.Some?
                           && s.tasks[s.holder.value].request.key !in s.journal)
  }

  /** What a task was answered agrees with the journal. */
  ghost predicate AnswerFits(j: Journal, pc: Pc) {
    pc.Answered? ==>
      && pc.request.key in j && j[pc.request.key].key == pc.request.key
      && pc.payload == if j[pc.request.key].commandId == pc.request.commandId then j[pc.request.key]
                       else Rejection(pc.request, "idempotency_conflict")
  }

  ghost predicate AnswersInv(s: State) { forall id :: id in s.tasks ==> AnswerFits(s.journal, s.tasks[id]) }

  ghost predicate JournalInv(j: Journal) {
    forall key :: key in j ==> j[key].key == key && j[key].status != Rejected("idempotency_conflict")
  }

  /** Conservation: every operation started is recorded, in flight or cancelled. */
  ghost predicate CallsInv(s: State) {
    forall key :: Count(s.calls, key) == Count(s.cancelled, key) + Kept(s.journal, key) + Flying(s, key)
  }

  ghost predicate Inv(s: State) { LockInv(s) && AnswersInv(s) && JournalInv(s.journal) && CallsInv(s) }

  lemma EnterKeeps(uuid: UuidReader, s: State, id: nat)
    requires Inv(s) && Enabled(s, Enter(id))
    ensures Inv(Apply(uuid, s, Enter(id)))
  {
    var r, t := s.tasks[id].request, Apply(uuid, s, Enter(id));
    hide Count, Executed;
    forall key ensures Count(t.calls, key) == Count(t.cancelled, key) + Kept(t.journal, key) + Flying(t, key) {
      if t.calls != s.calls { CountAppend(s.calls, CallOf(id, r), key); }
      ExecutedNotRejected(r);
    }
  }

  lemma ExecutedNotRejected(r: Request)
    ensures !Executed(Rejection(r, "invalid_command"))
  {}

  lemma CompleteKeeps(uuid: UuidReader, s: State, id: nat, outcome: Option<LightState>)
    requires Inv(s) && Enabled(s, Complete(id, outcome))
    ensures Inv(Apply(uuid, s, Complete(id, outcome)))
  {
    hide Count;
    var r := s.tasks[id].request;
    assert s.holder == Some(id) && Executed(Outcome(r, outcome));
  }

  lemma CancelKeeps(uuid: UuidReader, s: State, id: nat)
    requires Inv(s) && Enabled(s, Cancel(id))
    ensures Inv(Apply(uuid, s, Cancel(id)))
  {
    hide Count, Executed;
    var r, t := s.tasks[id].request, Apply(uuid, s, Cancel(id));
    forall key ensures Count(t.calls, key) == Count(t.cancelled, key) + Kept(t.journal, key) + Flying(t, key) {
      if t.cancelled != s.cancelled { CountAppend(s.cancelled, CallOf(id, r), key); }
    }
  }

  lemma StepKeeps(uuid: UuidReader, s: State, step: Step)
    requires Inv(s) && Enabled(s, step)
    ensures Inv(Apply(uuid, s, step))
  {
    match step
    case Enter(id) => EnterKeeps(uuid, s, id);
    case Complete(id, outcome) => CompleteKeeps(uuid, s, id, outcome);
    case Cancel(id) => CancelKeeps(uuid, s, id);
    case _ => { hide Count, Executed, Admitted; }
  }

  lemma {:induction false} RunKeeps(uuid: UuidReader, steps: seq<Step>)
    ensures Inv(Run(uuid, steps))
  {
    hide Inv, Apply;
    if steps != [] {
      var s := Run(uuid, steps[..|steps| - 1]);
      RunKeeps(uuid, steps[..|steps| - 1]);
      if Enabled(s, steps[|steps| - 1]) { StepKeeps(uuid, s, steps[|steps| - 1]); }
    } else {
      InitialInv();
    }
  }

  lemma InitialInv()
    ensures Inv(INITIAL)
  {}

  /** At most once: over every interleaving of any number of concurrent calls,
      the driver operations started for a key are exactly those cancelled in
      mid-operation, plus the one whose result is recorded or that is running. */
  lemma AtMostOnce(uuid: UuidReader, steps: seq<Step>, key: string)
    ensures var s := Run(uuid, steps);
            && Count(s.calls, key) == Count(s.cancelled, key) + Kept(s.journal, key) + Flying(s, key)
            && Count(s.calls, key) <= Count(s.cancelled, key) + 1
  {
    RunKeeps(uuid, steps);
    var s := Run(uuid, steps);
    hide Run;
    assert s.holder.Some? && s.holder.value in s.tasks && s.tasks[s.holder.value].request.key == key ==>
        key !in s.journal;
  }

  /** A key whose operation was never cancelled half-way never runs twice. */
  lemma OncePerKey(uuid: UuidReader, steps: seq<Step>, key: string)
    requires Count(Run(uuid, steps).cancelled, key) == 0
    ensures Count(Run(uuid, steps).calls, key) <= 1
  {
    AtMostOnce(uuid, steps, key);
  }

  lemma StepJournal(uuid: UuidReader, s: State, step: Step, key: string)
    requires Enabled(s, step) && key in s.journal
    ensures key in Apply(uuid, s, step).journal && Apply(uuid, s, step).journal[key] == s.journal[key]
  {
    hide Admitted;
  }

  /** Journal entries never change once written, whatever happens afterwards. */
  lemma {:induction false} JournalStable(uuid: UuidReader, steps: seq<Step>, n: nat, key: string)
    requires n <= |steps| && key in Run(uuid, steps[..n]).journal
    ensures key in Run(uuid, steps).journal && Run(uuid, steps).journal[key] == Run(uuid, steps[..n]).journal[key]
  {
    if n < |steps| {
      var front := steps[..|steps| - 1];
      assert front[..n] == steps[..n];
      JournalStable(uuid, front, n, key);
      var s := Run(uuid, front);
      if Enabled(s, steps[|steps| - 1]) { StepJournal(uuid, s, steps[|steps| - 1], key); }
      hide Apply;
    } else {
      assert steps[..n] == steps;
    }
  }

  /** Every answer is the first result of its key, or a conflict: calls with
      the same key get the same payload if they carry the command id that was
      recorded first, and are turned away if they carry another one. */
  lemma RepeatsAgree(uuid: UuidReader, steps: seq<Step>, a: nat, b: nat)
    requires var s := Run(uuid, steps);
             && a in s.tasks && b in s.tasks && s.tasks[a].Answered? && s.tasks[b].Answered?
             && s.tasks[a].request.key == s.tasks[b].request.key
    ensures var s := Run(uuid, steps);
            var p, q := s.tasks[a], s.tasks[b];
            && p.request.key in s.journal
            && (p.request.commandId == q.request.commandId && p.payload.status != Rejected("idempotency_conflict") ==>
                  p.payload == q.payload)
            && (p.request.commandId != q.request.commandId ==>
                  || p.payload.status == Rejected("idempotency_conflict")
                  || q.payload.status == Rejected("idempotency_conflict"))
            && (p.payload.status != Rejected("idempotency_conflict") ==>
                  p.payload == s.journal[p.request.key] && p.payload.commandId == p.request.commandId)
  {
    RunKeeps(uuid, steps);
    var s := Run(uuid, steps);
    hide Run;
    assert AnswerFits(s.journal, s.tasks[a]) && AnswerFits(s.journal, s.tasks[b]);
  }

  /** In every run, a repeat after a result is recorded starts no operation and
      leaves the journal alone.  It is answered under its own command id: with
      the recorded payload if that is the recorded id, and with a conflict - which
      no recorded payload is - exactly if it is another one. */
  lemma RepeatIsAnswered(uuid: UuidReader, steps: seq<Step>, id: nat)
    requires var s := Run(uuid, steps); Enabled(s, Enter(id)) && s.tasks[id].request.key in s.journal
    ensures var s, t := Run(uuid, steps), Run(uuid, steps + [Enter(id)]);
            var r := s.tasks[id].request;
            && t.calls == s.calls && t.journal == s.journal && t.holder == s.holder
            && id in t.tasks && t.tasks[id].Answered?
            && var p := t.tasks[id].payload;
               && p.key == r.key && p.commandId == r.commandId
               && (s.journal[r.key].commandId == r.commandId ==> p == s.journal[r.key])
               && (p.status == Rejected("idempotency_conflict") <==> s.journal[r.key].commandId != r.commandId)
  {
    RunKeeps(uuid, steps);
    RunStep(uuid, steps, Enter(id));
    hide Run, Count, AnswersInv, CallsInv, LockInv;
  }

  // ---- what becomes of a command ----

  /** What a finished operation is reported as. */
  predicate Reports(p: Payload, r: Request, outcome: Option<LightState>) {
    && p.lightId == r.lightId && p.commandId == r.commandId && p.key == r.key
    && match outcome
       case Some(s) => p.status == Applied(s)
       case None => p.status == Failed
  }

  /** The task holds an answer, and the journal the same under its key. */
  ghost predicate AnswerRecorded(s: State, id: nat, r: Request, p: Payload) {
    id in s.tasks && s.tasks[id] == Answered(r, p) && r.key in s.journal && s.journal[r.key] == p
  }

  /** In every run, the holder of the lock whose key is not recorded yet starts
      exactly the operation its body asks for, or is refused for good. */
  lemma EnterMeaning(uuid: UuidReader, steps: seq<Step>, id: nat)
    requires var s := Run(uuid, steps); Enabled(s, Enter(id)) && s.tasks[id].request.key !in s.journal
    ensures var s, t := Run(uuid, steps), Run(uuid, steps + [Enter(id)]);
            var r := s.tasks[id].request;
            match r.action
            case Some(command) =>
              && t.calls == s.calls + [Call(id, r.key, r.commandId, command)] && t.journal == s.journal
              && t.holder == Some(id) && t.tasks == s.tasks[id := Operating(r)]
            case None =>
              && t.calls == s.calls && t.holder.None?
              && AnswerRecorded(t, id, r, Payload(Rejected("invalid_command"), r.lightId, r.commandId, r.key))
  {
    RunStep(uuid, steps, Enter(id));
    hide Run, Admitted;
  }

  /** In every run, a finished operation is answered and recorded as applied with
      the state it returned, or as failed if it returned none. */
  lemma CompleteMeaning(uuid: UuidReader, steps: seq<Step>, id: nat, outcome: Option<LightState>)
    requires Enabled(Run(uuid, steps), Complete(id, outcome))
    ensures var s, t := Run(uuid, steps), Run(uuid, steps + [Complete(id, outcome)]);
            var r := s.tasks[id].request;
            && t.holder.None? && t.calls == s.calls
            && exists p :: Reports(p, r, outcome) && AnswerRecorded(t, id, r, p)
  {
    var s, r := Run(uuid, steps), Run(uuid, steps).tasks[id].request;
    RunKeeps(uuid, steps);
    RunStep(uuid, steps, Complete(id, outcome));
    var t := Run(uuid, steps + [Complete(id, outcome)]);
    hide Run, Admitted, AnswersInv, CallsInv;
    assert s.holder == Some(id) && r.key !in s.journal;
    var p := Outcome(r, outcome);
    assert Reports(p, r, outcome) && AnswerRecorded(t, id, r, p);
  }

  /** And nothing that happens afterwards changes that. */
  lemma {:induction false} AnswerStays(uuid: UuidReader, steps: seq<Step>, n: nat, id: nat, r: Request, p: Payload)
    requires n <= |steps| && AnswerRecorded(Run(uuid, steps[..n]), id, r, p)
    ensures AnswerRecorded(Run(uuid, steps), id, r, p)
  {
    if n < |steps| {
      var front := steps[..|steps| - 1];
      assert front[..n] == steps[..n];
      AnswerStays(uuid, front, n, id, r, p);
      StepAnswer(uuid, Run(uuid, front), steps[|steps| - 1], id, r, p);
      hide Apply, AnswerRecorded, Enabled;
    } else {
      assert steps[..n] == steps;
    }
  }

  lemma StepAnswer(uuid: UuidReader, s: State, step: Step, id: nat, r: Request, p: Payload)
    requires AnswerRecorded(s, id, r, p)
    ensures Enabled(s, step) ==> AnswerRecorded(Apply(uuid, s, step), id, r, p)
  {
    if Enabled(s, step) { StepJournal(uuid, s, step, r.key); }
    hide Admitted;
  }

  /** From envelope to result: in any run, when the lock is free, a command for
      the light of the boundary, under a key not used before, starts exactly the
      operation its body asks for, and is answered with what it returns. */
  lemma CommandRuns(uuid: UuidReader, steps: seq<Step>, id: nat, e: Envelope, command: Command, commandId: string,
                    key: string, outcome: Option<LightState>)
    requires var s := Run(uuid, steps);
             && s.holder.None? && id !in s.tasks && key !in s.journal
             && s.light.Some? && HasText(e.payload, "light_id", s.light.value)
             && HasUuid(uuid, e.payload, "command_id", commandId) && HasText(e.payload, "idempotency_key", key)
             && e.correlationId.Some? && e.kind == KindOf(command) && AsksFor(e.payload, command)
    ensures var s := Run(uuid, steps);
            var started := steps + [Submit(id, e)] + [Enter(id)];
            var r := Request(s.light.value, commandId, key, Some(command));
            && Run(uuid, started).calls == s.calls + [Call(id, key, commandId, command)]
            && exists p ::
                 Reports(p, r, outcome) && AnswerRecorded(Run(uuid, started + [Complete(id, outcome)]), id, r, p)
  {
    var s := Run(uuid, steps);
    var r := Request(s.light.value, commandId, key, Some(command));
    CommandAdmits(uuid, s.light, e, command, commandId, key);
    RunStep(uuid, steps, Submit(id, e));
    hide Run, Admitted, HasText, HasUuid, AsksFor;
    EnterMeaning(uuid, steps + [Submit(id, e)], id);
    CompleteMeaning(uuid, steps + [Submit(id, e)] + [Enter(id)], id, outcome);
  }

  lemma CommandAdmits(uuid: UuidReader, light: Option<string>, e: Envelope, command: Command, commandId: string,
                      key: string)
    requires light.Some? && HasText(e.payload, "light_id", light.value)
    requires HasUuid(uuid, e.payload, "command_id", commandId) && HasText(e.payload, "idempotency_key", key)
    requires e.correlationId.Some? && e.kind == KindOf(command) && AsksFor(e.payload, command)
    ensures Admitted(uuid, light, e) == Admit(Request(light.value, commandId, key, Some(command)))
  {
    AdmittedMeaning(uuid, light, e);
    assert e.kind in COMMAND_TYPES;
    ActionMeaning(e.kind, e.payload, command);
    hide Admitted, Get, AsksFor, Action;
  }

  /** Calls in the log come from admitted requests with a well-formed body. */
  ghost predicate CallFits(s: State, c: Call) {
    && c.task in s.tasks && (s.tasks[c.task].Operating? || s.tasks[c.task].Answered? || s.tasks[c.task].Dropped?)
    && s.tasks[c.task].request.action == Some(c.command)
    && s.tasks[c.task].request.key == c.key && s.tasks[c.task].request.commandId == c.commandId
  }

  ghost predicate CallsFit(s: State) {
    && (forall k :: 0 <= k < |s.calls| ==> CallFits(s, s.calls[k]))
    && (forall j, k :: 0 <= j < k < |s.calls| ==> s.calls[j].task != s.calls[k].task)
  }

  /** Nothing reaches the driver that was refused or rejected: each operation
      started belongs to a task that was admitted with exactly that command,
      and no two operations belong to one task. */
  lemma {:induction false} CallsAreAdmitted(uuid: UuidReader, steps: seq<Step>)
    ensures CallsFit(Run(uuid, steps))
  {
    if steps != [] {
      hide Apply, CallsFit;
      var s := Run(uuid, steps[..|steps| - 1]);
      CallsAreAdmitted(uuid, steps[..|steps| - 1]);
      if Enabled(s, steps[|steps| - 1]) { StepCalls(uuid, s, steps[|steps| - 1]); }
    }
  }

  lemma StepCalls(uuid: UuidReader, s: State, step: Step)
    requires Enabled(s, step) && CallsFit(s)
    ensures CallsFit(Apply(uuid, s, step))
  {
    hide Admitted, TurnOf;
    var t := Apply(uuid, s, step);
    forall k | 0 <= k < |t.calls| ensures CallFits(t, t.calls[k]) {
      if k < |s.calls| { assert CallFits(s, s.calls[k]); } else { TurnAction(s.journal, s.tasks[step.id].request); }
    }
  }

  lemma TurnAction(j: Journal, r: Request)
    ensures TurnOf(j, r).Operate? ==> r.action == Some(TurnOf(j, r).command)
  {}

  /** The bound is tight: in every run, cancelling the running operation lets
      the next admitted call with its key start another one, because nothing of
      the first is left in the journal. */
  lemma CancelledMayRepeat(uuid: UuidReader, steps: seq<Step>, id: nat, next: nat, e: Envelope)
    requires var s := Run(uuid, steps);
             && id in s.tasks && s.tasks[id].Operating? && next !in s.tasks
             && Admitted(uuid, s.light, e).Admit? && Admitted(uuid, s.light, e).request.action.Some?
             && Admitted(uuid, s.light, e).request.key == s.tasks[id].request.key
    ensures var key := Run(uuid, steps).tasks[id].request.key;
            var again := steps + [Cancel(id)] + [Submit(next, e)] + [Enter(next)];
            Count(Run(uuid, again).calls, key) == Count(Run(uuid, steps).calls, key) + 1
  {
    hide Admitted, Action, AnswersInv, CallsInv, Count;
    var s := Run(uuid, steps);
    var r := Admitted(uuid, s.light, e).request;
    RunKeeps(uuid, steps);
    RunStep(uuid, steps, Cancel(id));
    RunStep(uuid, steps + [Cancel(id)], Submit(next, e));
    RunStep(uuid, steps + [Cancel(id)] + [Submit(next, e)], Enter(next));
    hide Run;
    CountAppend(s.calls, CallOf(next, r), r.key);
  }

  lemma RunStep(uuid: UuidReader, steps: seq<Step>, step: Step)
    ensures var s := Run(uuid, steps);
            Run(uuid, steps + [step]) == if Enabled(s, step) then Apply(uuid, s, step) else s
  {
    assert (steps + [step])[..|steps|] == steps;
  }
}
