/** `TuyaLocalDriver`: the object whose fields the tasks share.  Each method is
    what one task does between two awaits, and its contract ties the fields to
    the functions of Pending, Cache and Pairing, about which the properties of
    runs are proved. */
module Driver {
  import opened Asking
  import opened Cache
  import opened Commands
  import opened Common
  import opened Crypto
  import opened Devices
  import opened Dps
  import opened Frames
  import opened Json
  import opened Mapping
  import opened Pairing
  import opened Payloads
  import opened Pending
  import opened Scaling
  import Exchange
  import PairingFile
  import Subscriptions

  /** What the network does while `pair` runs.  `cleared`: a disconnect that is
      cancelled had already closed the connection and failed the requests. */
  datatype Net = Net(link: Link, attempts: seq<Attempt>, cleared: bool)

  /** The attempts of a call that the device's retries allow. */
  function Begun(d: DeviceConfig, attempts: seq<Attempt>): seq<Attempt> { attempts[..Min(|attempts|, d.retries + 1)] }

  lemma AskMeaning(c: Primitives, d: DeviceConfig, t: Table, attempts: seq<Attempt>)
    requires Pointed(t)
    ensures var (t', r) := Asked(c, d, t, Begun(d, attempts));
            && (forall k: nat, bytes
                  | k <= d.retries && AnsweredAt(c, d, t.connected, t.session, t.issued, attempts, k, bytes) ::
                  r == Some(bytes))
            && (forall k: nat, last
                  | k <= d.retries && StoppedAt(c, d, t.connected, t.session, t.issued, attempts, k, last) ::
                  r.None? && t'.connected && t'.issued == last)
            && (|attempts| > d.retries && AllUncut(c, d, attempts) && r.None? ==>
                  |t'.futures| == |t.futures| + d.retries + 1)
  {
    hide Asked, Uncut;
    forall k: nat, last
      | k <= d.retries && StoppedAt(c, d, t.connected, t.session, t.issued, attempts, k, last)
      ensures var (t', r) := Asked(c, d, t, Begun(d, attempts)); r.None? && t'.connected && t'.issued == last
    {
      StoppedWithin(c, d, t.connected, t.session, t.issued, attempts, |Begun(d, attempts)|, k, last);
      AskedStops(c, d, t, Begun(d, attempts), k, last);
    }
    forall k: nat, bytes
      | k <= d.retries && AnsweredAt(c, d, t.connected, t.session, t.issued, attempts, k, bytes)
      ensures Asked(c, d, t, Begun(d, attempts)).1 == Some(bytes)
    {
      AnsweredWithin(c, d, t.connected, t.session, t.issued, attempts, |Begun(d, attempts)|, k, bytes);
      AskedRetries(c, d, t, Begun(d, attempts), k, bytes);
    }
    if AllUncut(c, d, attempts) {
      AskedExhausts(c, d, t, Begun(d, attempts));
    }
  }

  /** Connecting and polling: the requests after it, and the stages of the
      script that the network decides. */
  function Contact(c: Primitives, loads: Bytes -> Json, d: DeviceConfig, t: Table, net: Net, script: Script)
    : (Table, Script)
  {
    var (t1, made) := Connected(c, d, t, net.link);
    if made.Err? then (t1, script.(opens := false, reply := None, live := false)) else
      var (t2, bytes) := Asked(c, d, t1, Begun(d, net.attempts));
      var reply := if bytes.Some? then Some(loads(bytes.value)) else None;
      (t2, script.(opens := true, reply := reply, live := t2.connected))
  }

  /** The network decides no other stage. */
  predicate SameOtherwise(script: Script, played: Script) {
    played == script.(opens := played.opens, reply := played.reply, live := played.live)
  }

  /** The handler has something to wait for exactly while the connection is
      open; what was settled stays so; and after the reply the connection is open
      with nothing outstanding, unless another task has acted on it. */
  lemma ContactMeaning(c: Primitives, loads: Bytes -> Json, d: DeviceConfig, t: Table, net: Net, script: Script)
    requires Closed(t)
    ensures var (t', played) := Contact(c, loads, d, t, net, script);
            && SameOtherwise(script, played) && (Interruptible(played) <==> t'.connected)
            && (Undisturbed(net.attempts) && played.reply.Some? ==> t'.connected && t'.pending == map[])
            && Extends(t, t')
  {
    ConnectedOpens(c, d, t, net.link);
    ConnectedExtends(c, d, t, net.link);
    var t1 := Connected(c, d, t, net.link).0;
    if t1.connected {
      if Undisturbed(net.attempts) { AskedQuietly(c, d, t1, Begun(d, net.attempts)); }
      AskedExtends(c, d, t1, Begun(d, net.attempts));
    }
    hide Connected, Asked, Quiet;
  }

  /** The requests when `pair` is over: as the poll left them if it committed,
      closed if the error handler got to close them. */
  function Settled(t: Table, script: Script, cleared: bool, commits: bool): Table {
    if commits || (!RollsBack(script) && !cleared) then t else Close(t)
  }

  /** So the requests of the old connection are all settled when `pair` is over,
      and a rollback leaves no connection; a commit leaves one with nothing
      outstanding, unless another task has acted on it. */
  lemma PairedRequests(c: Primitives, loads: Bytes -> Json, t: Table, d: DeviceConfig, net: Net, script: Script,
                       commits: bool)
    requires commits ==> Contact(c, loads, d, Close(t), net, script).1.reply.Some?
    ensures var (t', played) := Contact(c, loads, d, Close(t), net, script);
            var after := Settled(t', played, net.cleared, commits);
            && (forall h :: 0 <= h < |t.futures| && h in t.pending.Values ==>
                 h < |after.futures| && !after.futures[h].Waiting?)
            && (commits && Undisturbed(net.attempts) ==> after.connected && after.pending == map[])
            && (script.restores && !commits ==> Closed(after))
  {
    FailAllSettles(t);
    var (t', played) := Contact(c, loads, d, Close(t), net, script);
    ContactMeaning(c, loads, d, Close(t), net, script);
    FailAllSettles(t');
    hide Contact, BreakAll;
  }

  lemma PairedOutcome(l: Lookup, c: Primitives, loads: Bytes -> Json, hasPath: bool, before: Bound, t: Table,
                      candidate: string, d: DeviceConfig, net: Net, script: Script)
    requires LookupLawful(l) && Sound(before) && (d.dps.Some? ==> d.dps.value.Valid())
    ensures var (t', played) := Contact(c, loads, d, Close(t), net, script);
            var (bound, outcome) := Bind(l, hasPath, before, candidate, d, played);
            var after := Settled(t', played, net.cleared, Commits(l, hasPath, before, candidate, d, played));
            && (outcome.Paired? ==>
                  script.closes && bound.device == Some(d) && outcome == Paired(candidate, d.deviceId))
            && (outcome.Paired? && Undisturbed(net.attempts) ==> after.connected && after.pending == map[])
            && (script.restores && bound.device != Some(d) ==> Closed(after))
            && (forall h :: 0 <= h < |t.futures| && h in t.pending.Values ==>
                 h < |after.futures| && !after.futures[h].Waiting?)
  {
    var played := Contact(c, loads, d, Close(t), net, script).1;
    FailAllSettles(t);
    ContactMeaning(c, loads, d, Close(t), net, script);
    PairTransaction(l, hasPath, before, candidate, d, played);
    BindOutcome(l, hasPath, before, candidate, d, played);
    CommitsReplied(l, hasPath, before, candidate, d, played);
    PairedRequests(c, loads, t, d, net, script, Commits(l, hasPath, before, candidate, d, played));
    hide Contact, Bind, Commits, Settled, Extends, BreakAll, Moved, IsLightId, CandidateId;
  }

  lemma CommitsReplied(l: Lookup, hasPath: bool, before: Bound, candidate: string, d: DeviceConfig, s: Script)
    requires LookupLawful(l) && (d.dps.Some? ==> d.dps.value.Valid())
    ensures Commits(l, hasPath, before, candidate, d, s) ==> s.closes && s.reply.Some?
  {}

  /** A pairing in which nothing goes wrong for good: the previous device is left,
      the link opens, one of the attempts that the retries allow is answered with
      bytes that read as a light state, the file can be written, and the raw
      device id is a light id. */
  ghost predicate GoesWell(c: Primitives, loads: Bytes -> Json, d: DeviceConfig, issued: nat, net: Net, script: Script,
                           hasPath: bool)
    requires d.dps.Some? ==> d.dps.value.Valid()
  {
    && script.closes && Opens(c, d, net.link) && (hasPath ==> script.saves) && IsLightId(d.deviceId)
    && exists k: nat, bytes ::
         k <= d.retries && AnsweredOnLink(c, d, issued, net, k, bytes) && ReadsAsState(d, loads(bytes))
  }

  /** On the connection that the link opens, attempt k is the first one answered. */
  ghost predicate AnsweredOnLink(c: Primitives, d: DeviceConfig, issued: nat, net: Net, k: nat, bytes: Bytes) {
    var next := issued + HandshakeNumbers(c, d, net.link);
    AnsweredAt(c, d, true, NewSession(c, d, net.link), next, net.attempts, k, bytes)
  }

  lemma ContactReplies(c: Primitives, loads: Bytes -> Json, d: DeviceConfig, t: Table, net: Net, script: Script, k: nat,
                       bytes: Bytes)
    requires Closed(t) && Opens(c, d, net.link) && k <= d.retries
    requires AnsweredOnLink(c, d, t.issued, net, k, bytes)
    ensures var played := Contact(c, loads, d, t, net, script).1; played.opens && played.reply == Some(loads(bytes))
  {
    ConnectedMeaning(c, d, t, net.link);
    var t1 := Connected(c, d, t, net.link).0;
    hide Connected, Opens, NewSession, HandshakeNumbers, AnsweredAt, Asked, Begun;
    AskMeaning(c, d, t1, net.attempts);
  }

  /** Such a pairing succeeds. */
  lemma PairSucceeds(l: Lookup, c: Primitives, loads: Bytes -> Json, hasPath: bool, before: Bound, t: Table,
                     candidate: string, d: DeviceConfig, net: Net, script: Script)
    requires LookupLawful(l) && Sound(before) && (d.dps.Some? ==> d.dps.value.Valid())
    requires candidate == CandidateId(l, d.deviceId) && GoesWell(c, loads, d, t.issued, net, script, hasPath)
    ensures var played := Contact(c, loads, d, Close(t), net, script).1;
            Bind(l, hasPath, before, candidate, d, played).1 == Paired(candidate, d.deviceId)
  {
    var k: nat, bytes :| k <= d.retries && ReadsAsState(d, loads(bytes))
      && AnsweredOnLink(c, d, t.issued, net, k, bytes);
    FailAllSettles(t);
    ContactReplies(c, loads, d, Close(t), net, script, k, bytes);
    ContactMeaning(c, loads, d, Close(t), net, script);
    var played := Contact(c, loads, d, Close(t), net, script).1;
    hide Contact, Bind, ReadsAsState, AnsweredOnLink, Opens, CandidateId, IsLightId, BoundTo;
    PairCompletes(l, hasPath, before, candidate, d, played);
  }

  class TuyaLocalDriver {
    const lookup: Lookup
    const crypto: Primitives
    const loads: Bytes -> Json
    const profile: Option<PairingConfig>
    const hasPath: bool

    var device: Option<DeviceConfig>
    var pairedLightId: Option<string>
    var saved: Option<PairingFile.Binding>
    var discovered: map<string, Item>
    var callbacks: map<string, seq<nat>>

    var connected: bool
    var sessionKey: Option<Bytes>
    var sequence: word
    ghost var issued: nat
    var pending: map<word, nat>
    var futures: seq<Pending.Outcome>

    var rawDps: DpMap
    var state: Option<LightState>

    ghost predicate Valid()
      reads `sequence, `issued, `device, `discovered, `pending, `futures
    {
      && LookupLawful(lookup) && Lawful(crypto)
      && sequence == WireNumber(issued)
      && (forall q :: q in pending ==> pending[q] < |futures|)
      && (profile.Some? ==> profile.value.Valid())
      && (device.Some? && device.value.dps.Some? ==> device.value.dps.value.Valid())
      && forall id :: id in discovered ==> id == CandidateId(lookup, discovered[id].deviceId)
    }

    /** The outstanding requests. */
    ghost function Requests(): Table
      reads `issued, `pending, `futures, `connected, `sessionKey
    {
      Table(issued, pending, futures, connected, sessionKey)
    }

    ghost function Cached(): Cache
      requires Valid()
      reads `sequence, `issued, `device, `discovered, `pending, `futures, `rawDps, `state
    {
      Cache(SettingOf(device), rawDps, state)
    }

    ghost function Binding(): Bound
      requires Valid()
      reads `sequence, `issued, `device, `discovered, `pending, `futures, `rawDps, `state,
            `pairedLightId, `saved, `callbacks
    {
      Bound(device, pairedLightId, saved, callbacks, Cached())
    }

    constructor (lookup: Lookup, crypto: Primitives, loads: Bytes -> Json, device: Option<DeviceConfig>,
                 profile: Option<PairingConfig>, hasPath: bool)
      requires LookupLawful(lookup) && Lawful(crypto)
      requires profile.Some? ==> profile.value.Valid()
      requires device.Some? && device.value.dps.Some? ==> device.value.dps.value.Valid()
      ensures Valid()
      ensures Requests() == Table(0, map[], [], false, None)
      ensures Binding() == Bound(device, None, None, map[], Cache(SettingOf(device), map[], None))
      ensures this.lookup == lookup && this.profile == profile && this.hasPath == hasPath && discovered == map[]
    {
      this.lookup, this.crypto, this.loads, this.profile, this.hasPath := lookup, crypto, loads, profile, hasPath;
      this.device, pairedLightId, saved, discovered, callbacks := device, None, None, map[], map[];
      connected, sessionKey, sequence, issued, pending, futures := false, None, 0, 0, map[], [];
      rawDps, state := map[], None;
    }

    /** `_load_pairing_state`, for a driver constructed without a device. */
    method LoadPairingState(t: PairingFile.TextCodec, file: Option<string>) returns (r: Result<()>)
      requires Valid()
      modifies `device, `pairedLightId, `saved
      ensures Valid() && rawDps == old(rawDps) && state == old(state)
      ensures old(device).Some? || profile.None? || !hasPath ==> r.Ok? && Binding() == old(Binding())
      ensures old(device).None? && profile.Some? && hasPath ==>
                match PairingFile.Load(lookup, t, profile.value, file)
                case Err(error) => r == Err(error) && Binding() == old(Binding())
                case Ok(None) => r.Ok? && Binding() == old(Binding())
                case Ok(Some(loaded)) =>
                  && r.Ok? && device == Some(loaded.0) && pairedLightId == Some(loaded.1)
                  && Configures(profile.value, loaded.0.ip, loaded.0.deviceId, loaded.0)
                  && saved == Some(PairingFile.Binding(loaded.1, loaded.0.deviceId, loaded.0.ip))
    {
      if device.Some? || profile.None? || !hasPath {
        return Ok(());
      }
      hide LookupLawful, Lawful, MakeDevice, Configures, PairingFile.Load, PairingFile.LoadedFrom, DpMapping.Valid;
      var loaded := PairingFile.Load(lookup, t, profile.value, file);
      if file.Some? { PairingFile.LoadAccepts(lookup, t, profile.value, file.value); }
      if loaded.Err? {
        return Err(loaded.error);
      }
      if loaded.value.Some? {
        var (next, light) := loaded.value.value;
        device, pairedLightId := Some(next), Some(light);
        saved := Some(PairingFile.Binding(light, next.deviceId, next.ip));
      }
      return Ok(());
    }

    // ---- outstanding requests ----

    /** `_next_sequence` */
    method NextSequence() returns (next: word)
      requires Valid()
      modifies `sequence, `issued
      ensures Valid() && Requests() == Allocate(old(Requests()), 1) && next == WireNumber(issued)
    {
      sequence := (sequence + 1) % WORD;
      issued := issued + 1;
      next := sequence;
    }

    /** The start of an attempt: a number, a future, an entry. */
    method RegisterNext() returns (next: word, handle: nat)
      requires Valid()
      modifies `sequence, `issued, `pending, `futures
      ensures Valid() && Requests() == Register(old(Requests()))
      ensures next == WireNumber(issued) && handle == |old(futures)|
    {
      next := NextSequence();
      handle := |futures|;
      futures := futures + [Waiting];
      pending := pending[next := handle];
    }

    /** `_pending.pop(sequence, None)` */
    method Forget(q: word)
      requires Valid()
      modifies `pending
      ensures Valid() && Requests() == Drop(old(Requests()), q)
    {
      pending := pending - {q};
    }

    /** `wait_for` runs out, or the waiting task is cancelled. */
    method GiveUp(handle: nat)
      requires Valid()
      modifies `futures
      ensures Valid() && Requests() == Expire(old(Requests()), handle)
    {
      if handle < |futures| && futures[handle].Waiting? {
        futures := futures[handle := Cancelled];
      }
    }

    /** The reader's handling of a frame that is not a STATUS push. */
    method HandOver(f: Frame)
      requires Valid()
      modifies `pending, `futures
      ensures Valid() && Requests() == Deliver(old(Requests()), f)
    {
      if f.sequence in pending {
        var handle := pending[f.sequence];
        pending := pending - {f.sequence};
        if handle < |futures| && futures[handle].Waiting? {
          futures := futures[handle := Replied(f)];
        }
      }
    }

    /** Fail every pending future that is not done, then clear the table. */
    method FailPending()
      requires Valid()
      modifies `pending, `futures
      ensures Valid() && Requests() == FailAll(old(Requests()))
    {
      hide LookupLawful, Lawful, WireNumber, DpMapping.Valid;
      ghost var before := futures;
      var keys := pending.Keys;
      ghost var failed: set<nat> := {};
      BreakOneMore(before, {}, 0);
      while keys != {}
        invariant keys <= pending.Keys && pending == old(pending)
        invariant failed == set q | q in pending && q !in keys :: pending[q]
        invariant futures == BreakAll(before, failed)
        decreases |keys|
      {
        var q :| q in keys;
        var handle := pending[q];
        BreakOneMore(before, failed, handle);
        if handle < |futures| && futures[handle].Waiting? {
          futures := futures[handle := Broken];
        }
        keys := keys - {q};
        failed := failed + {handle};
        hide BreakAll;
      }
      assert failed == pending.Values;
      pending := map[];
    }

    /** `disconnect`, from the point where the reader task has ended. */
    method Disconnect()
      requires Valid()
      modifies `pending, `futures, `connected, `sessionKey
      ensures Valid() && Requests() == Close(old(Requests()))
    {
      connected := false;
      sessionKey := None;
      FailPending();
    }

    /** `connect` as one step. */
    method Connect(link: Link) returns (r: Result<()>)
      requires Valid() && device.Some?
      modifies `sequence, `issued, `pending, `futures, `connected, `sessionKey
      ensures Valid()
      ensures (Requests(), r) == Connected(crypto, device.value, old(Requests()), link)
      ensures r.Ok? <==> connected
      ensures !old(connected) && r.Ok? && device.value.version == V34 ==>
                && Verified(crypto, device.value, link).Ok?
                && sessionKey == Some(SessionKeyOf(crypto, device.value, Verified(crypto, device.value, link).value))
      ensures r.Err? && link.tcp ==> sessionKey == None && pending == map[]
    {
      hide LookupLawful, Lawful, BreakAll, WireNumber, Verified, SessionKeyOf;
      if connected {
        return Ok(());
      }
      if !link.tcp {
        return Err(IncompleteRead);
      }
      connected := true;
      sessionKey := None;
      if device.value.version == V34 {
        var start := NextSequence();
        var verified := Verified(crypto, device.value, link);
        if verified.Err? {
          Disconnect();
          return Err(verified.error);
        }
        var finish := NextSequence();
        if !link.finish {
          Disconnect();
          return Err(IncompleteRead);
        }
        sessionKey := Some(SessionKeyOf(crypto, device.value, verified.value));
      }
      return Ok(());
    }

    // ---- exchanges ----

    /** What the reader and other tasks do at an await. */
    method Wait(others: seq<Other>)
      requires Valid()
      modifies `sequence, `issued, `pending, `futures, `connected, `sessionKey
      ensures Valid() && Requests() == Meanwhile(old(Requests()), others)
    {
      hide LookupLawful, Lawful, AfterOther;
      ghost var start := Requests();
      for n := 0 to |others|
        invariant Valid() && Requests() == Meanwhile(start, others[..n])
      {
        assert others[..n + 1][..n] == others[..n];
        Interfere(others[n]);
      }
      assert others[..|others|] == others;
    }

    method Interfere(o: Other)
      requires Valid()
      modifies `sequence, `issued, `pending, `futures, `connected, `sessionKey
      ensures Valid() && Requests() == AfterOther(old(Requests()), o)
    {
      hide LookupLawful, Lawful, BreakAll;
      match o
      case Leaves => Disconnect();
      case Connects(numbers, session) =>
        if !connected {
          Spend(numbers);
          connected, sessionKey := true, session;
        }
      case Spends(numbers) => Spend(numbers);
      case Reads(f) => HandOver(f);
      case ReaderFails => FailPending();
    }

    method Spend(numbers: nat)
      requires Valid()
      modifies `sequence, `issued
      ensures Valid() && Requests() == Allocate(old(Requests()), numbers)
    {
      sequence := (sequence + numbers) % WORD;
      issued := issued + numbers;
    }

    /** After an error that `_exchange` catches. */
    method AfterError(a: Attempt) returns (turn: Turn)
      requires Valid()
      modifies `sequence, `issued, `pending, `futures, `connected, `sessionKey
      ensures Valid() && (Requests(), turn) == AfterFailure(old(Requests()), a)
    {
      hide LookupLawful, Lawful, BreakAll, Meanwhile;
      Wait(a.closing);
      if a.closes {
        Disconnect();
        return Again;
      }
      return Raise;
    }

    /** One attempt, from the point where the connection is open. */
    method RequestOnce(a: Attempt) returns (turn: Turn)
      requires Valid() && device.Some?
      modifies `sequence, `issued, `pending, `futures, `connected, `sessionKey
      ensures Valid() && (Requests(), turn) == Requested(crypto, device.value, old(Requests()), a)
    {
      hide LookupLawful, Lawful, Meanwhile, Awaited, AfterFailure, WireNumber;
      var q, h := RegisterNext();
      assert issued == old(issued) + 1;
      hide Register;
      Wait(a.sending);
      match a.end
      case Unsent =>
        Forget(q);
        turn := AfterError(a);
      case CutOffSending =>
        return Raise;
      case Sent(waiting, wake) =>
        Wait(waiting);
        turn := AwaitReply(a, q, h, wake);
    }

    /** The end of the wait for the reply. */
    method AwaitReply(a: Attempt, q: word, h: nat, wake: Wake) returns (turn: Turn)
      requires Valid() && device.Some?
      modifies `sequence, `issued, `pending, `futures, `connected, `sessionKey
      ensures Valid() && (Requests(), turn) == Awaited(crypto, device.value, old(Requests()), a, q, h, wake)
    {
      hide LookupLawful, Lawful, AfterFailure, Received;
      if wake == CutOff {
        GiveUp(h);
        return Raise;
      }
      if wake == TimesOut || h >= |futures| || futures[h].Waiting? {
        GiveUp(h);
      } else if futures[h].Replied? {
        var f := futures[h].frame;
        var decoded := Received(crypto, device.value.version, f, device.value.localKey, sessionKey);
        if decoded.Ok? {
          return Return(decoded.value);
        }
        if !Exchange.Caught(decoded.error) {
          return Raise;
        }
      }
      Forget(q);
      turn := AfterError(a);
    }

    method TryOnce(a: Attempt) returns (turn: Turn)
      requires Valid() && device.Some?
      modifies `sequence, `issued, `pending, `futures, `connected, `sessionKey
      ensures Valid() && (Requests(), turn) == AttemptOnce(crypto, device.value, old(Requests()), a)
    {
      hide LookupLawful, Lawful, Connected, Requested, AfterFailure, Meanwhile;
      Wait(a.before);
      var made := Connect(a.link);
      if made.Ok? {
        turn := RequestOnce(a);
      } else if Exchange.Caught(made.error) {
        turn := AfterError(a);
      } else {
        turn := Raise;
      }
    }

    /** `_exchange`: the retry loop, under the send lock. */
    method Ask(attempts: seq<Attempt>) returns (r: Option<Bytes>)
      requires Valid() && device.Some?
      modifies `sequence, `issued, `pending, `futures, `connected, `sessionKey
      ensures Valid()
      ensures (Requests(), r) == Asked(crypto, device.value, old(Requests()), Begun(device.value, attempts))
      // it retries: the first attempt that is answered, if those before it only missed, decides
      ensures forall k: nat, bytes
                | k <= device.value.retries
                  && AnsweredAt(crypto, device.value, old(connected), old(sessionKey), old(issued), attempts, k,
                       bytes) ::
                r == Some(bytes)
      // it stops at once: an attempt that is cancelled, or answered with a plain ValueError, is the last
      ensures forall k: nat, last
                | k <= device.value.retries
                  && StoppedAt(crypto, device.value, old(connected), old(sessionKey), old(issued), attempts, k, last) ::
                r.None? && connected && issued == last
      // it gives up only after the last one
      ensures |attempts| > device.value.retries && AllUncut(crypto, device.value, attempts) && r.None? ==>
                |futures| == |old(futures)| + device.value.retries + 1
    {
      AskMeaning(crypto, device.value, Requests(), attempts);
      hide AttemptOnce, AnsweredAt, StoppedAt, AllUncut;
      ghost var start := Requests();
      ghost var all := Begun(device.value, attempts);
      var n := 0;
      while n <= device.value.retries && n < |attempts|
        invariant 0 <= n <= |all| && Valid()
        invariant Asked(crypto, device.value, start, all) == Asked(crypto, device.value, Requests(), all[n..])
        decreases |attempts| - n
      {
        assert all[n] == attempts[n] && all[n..][1..] == all[n + 1..];
        var turn := TryOnce(attempts[n]);
        match turn {
          case Return(bytes) => return Some(bytes);
          case Raise => return None;
          case Again =>
        }
        n := n + 1;
      }
      return None;
    }

    // ---- commands ----

    /** `_check_device` and `_mapping`, the start of every operation on the light. */
    predicate Operates(deviceId: string)
      reads this
    {
      device.Some? && device.value.deviceId == deviceId && device.value.dps.Some?
    }

    /** The data points an operation writes, up to the exchange. */
    method Prepare(deviceId: string, c: Command) returns (r: Result<DpMap>)
      requires Valid() && WellFormed(c)
      ensures r == if Operates(deviceId) then ValuesFor(device.value.dps.value, c) else Err(ConfigurationError)
    {
      if device.None? || device.value.deviceId != deviceId || device.value.dps.None? {
        return Err(ConfigurationError);
      }
      var mapping := device.value.dps.value;
      var values: DpMap := map[];
      var power, color, brightness, white := PowerSet(c), ColorSet(c), BrightnessSet(c), WhiteSet(c);
      if power.Some? {
        values := values[mapping.power := Bool(power.value)];
      }
      if color.Some? {
        values := values[mapping.color := Str(mapping.EncodeColor(color.value))];
      }
      if brightness.Some? {
        var level := mapping.BrightnessToDp(brightness.value);
        if level.Err? {
          return Err(level.error);
        }
        values := values[mapping.brightness := Int(level.value)];
      }
      if white.Some? {
        var level := mapping.WhiteToDp(white.value);
        if level.Err? {
          return Err(level.error);
        }
        values := values[mapping.white.value.dp := Int(level.value)];
      }
      hide DpMapping.EncodeColor, ToDp;
      return Ok(values);
    }

    // ---- replies and pushes ----

    /** `decode_payload`, `_without_retcode` and `json.loads` on a frame. */
    function PayloadOf(f: Frame): Result<Json>
      requires device.Some?
      reads this
    {
      var bytes :- Received(crypto, device.value.version, f, device.value.localKey, sessionKey);
      Ok(loads(bytes))
    }

    /** The end of `poll_state`: the reply replaces the data points; the light
        state is adopted if they decode. */
    method CommitPoll(payload: Json) returns (r: Result<LightState>)
      requires Valid() && device.Some? && device.value.dps.Some?
      modifies `rawDps, `state
      ensures Valid() && Cached() == Apply(old(Cached()), Poll(payload))
      ensures r.Ok? <==> PollSucceeds(old(Cached()), payload)
      ensures r.Ok? ==> state == Some(r.value)
      ensures var dps := ParseDpsSpec(payload);
              r.Err? ==> r.error == if dps.Ok? && PlainRefusal(dps.value, old(device).value.dps.value)
                                    then ValueError else ProtocolError
    {
      hide LookupLawful, Lawful, DpMapping.DecodeColor, FromNumber, PlainRefusal;
      ParseDpsErrors(payload);
      var m := device.value.dps.value;
      var dps := ParseDps(payload);
      if dps.Err? {
        return Err(dps.error);
      }
      rawDps := dps.value;
      var decoded := StateFromDps(device.value.deviceId, rawDps, m);
      StateFromDpsExact(device.value.deviceId, rawDps, m);
      if decoded.Err? {
        return Err(decoded.error);
      }
      var revision := if state.None? then 0 else state.value.revision + 1;
      r := Ok(decoded.value.(revision := revision));
      state := Some(r.value);
    }

    /** The end of `_set_values`: poll, then assign the polled state once more.
        There is no await between the two assignments, so the second changes
        nothing and no revision is lost. */
    method CommitSetValues(payload: Json) returns (r: Result<LightState>)
      requires Valid() && device.Some? && device.value.dps.Some?
      modifies `rawDps, `state
      ensures Valid() && Cached() == Apply(old(Cached()), Poll(payload))
      ensures r.Ok? <==> PollSucceeds(old(Cached()), payload)
      ensures r.Ok? ==> state == Some(r.value)
    {
      r := CommitPoll(payload);
      if r.Ok? {
        state := Some(r.value);
      }
    }

    /** The end of `inspect_dps`. */
    method CommitInspect(payload: Json) returns (r: Result<DpMap>)
      requires Valid()
      modifies `rawDps
      ensures Valid() && Cached() == Apply(old(Cached()), Inspect(payload))
      ensures r == ParseDpsSpec(payload)
    {
      r := ParseDps(payload);
      if r.Ok? {
        rawDps := r.value;
      }
    }

    /** `_handle_status` on a decoded push.  A push without data points, or one
        that does not decode to a light state, is ignored - after it has been
        merged; only a colour that no light state can hold ends the reader. */
    method HandlePush(payload: Json) returns (r: Result<()>)
      requires Valid() && device.Some?
      modifies `rawDps, `state
      ensures Valid() && Cached() == Apply(old(Cached()), Push(payload))
      ensures r.Err? <==> EndsReader(old(Cached()), payload)
      ensures r.Err? ==> r.error == ValueError && state == old(state)
    {
      hide LookupLawful, Lawful, DpMapping.DecodeColor, FromNumber, PlainRefusal;
      var dps := ParseDps(payload);
      if dps.Err? {
        return Ok(());
      }
      rawDps := rawDps + dps.value;
      if device.value.dps.None? {
        return Ok(());
      }
      var decoded := StateFromDps(device.value.deviceId, rawDps, device.value.dps.value);
      StateFromDpsExact(device.value.deviceId, rawDps, device.value.dps.value);
      if decoded.Err? {
        return if decoded.error == ValueError then Err(ValueError) else Ok(());
      }
      var revision := if state.None? then 0 else state.value.revision + 1;
      state := Some(decoded.value.(revision := revision));
      return Ok(());
    }

    /** One turn of the reader loop.  A STATUS push touches the cache only, any
        other frame the table only.  The reader ends, and fails every pending
        future, exactly at a STATUS frame that cannot be decrypted or one whose
        push ends it. */
    method ReaderTurn(f: Frame) returns (alive: bool)
      requires Valid() && device.Some?
      modifies `pending, `futures, `rawDps, `state
      ensures Valid()
      ensures f.command != STATUS ==> alive && Requests() == Deliver(old(Requests()), f) && Cached() == old(Cached())
      ensures f.command == STATUS && old(PayloadOf(f)).Ok? ==>
                && (alive <==> !EndsReader(old(Cached()), old(PayloadOf(f)).value))
                && Cached() == Apply(old(Cached()), Push(old(PayloadOf(f)).value))
                && Requests() == if alive then old(Requests()) else FailAll(old(Requests()))
      ensures f.command == STATUS && old(PayloadOf(f)).Err? ==>
                !alive && Cached() == old(Cached()) && Requests() == FailAll(old(Requests()))
    {
      hide LookupLawful, Lawful, EndsReader, BreakAll, Apply;
      if f.command != STATUS {
        HandOver(f);
        return true;
      }
      var payload := PayloadOf(f);
      var r: Result<()> := Err(ValueError);
      if payload.Ok? {
        r := HandlePush(payload.value);
      }
      if r.Err? {
        FailPending();
      }
      return r.Ok?;
    }

    // ---- subscriptions ----

    /** `subscribe_state`; refused for any device but the current one. */
    method Subscribe(deviceId: string, x: nat) returns (accepted: bool)
      requires Valid()
      modifies `callbacks
      ensures Valid() && Binding() ==
              Subscriptions.Next(lookup, hasPath, old(Binding()), Subscriptions.Subscribe(deviceId, x))
      ensures accepted <==> device.Some? && device.value.deviceId == deviceId
    {
      if device.None? || device.value.deviceId != deviceId {
        return false;
      }
      var list := if deviceId in callbacks then callbacks[deviceId] else [];
      callbacks := callbacks[deviceId := list + [x]];
      return true;
    }

    /** The function `subscribe_state` hands out, on the list now under this id. */
    method Unsubscribe(deviceId: string, x: nat)
      requires Valid()
      modifies `callbacks
      ensures Valid() && Binding() ==
              Subscriptions.Next(lookup, hasPath, old(Binding()), Subscriptions.Unsubscribe(deviceId, x))
    {
      if deviceId in callbacks {
        callbacks := callbacks[deviceId := Subscriptions.Without(callbacks[deviceId], x)];
      }
    }

    // ---- discovery and pairing ----

    /** The candidates of the latest scan replace all earlier ones. */
    method Discover(found: seq<Item>)
      requires Valid()
      modifies `discovered
      ensures Valid()
      ensures forall k :: 0 <= k < |found| ==> CandidateId(lookup, found[k].deviceId) in discovered
      ensures forall id :: id in discovered ==> discovered[id] in found
    {
      discovered := map[];
      for n := 0 to |found|
        invariant Valid()
        invariant forall k :: 0 <= k < n ==> CandidateId(lookup, found[k].deviceId) in discovered
        invariant forall id :: id in discovered ==> discovered[id] in found[..n]
      {
        discovered := discovered[CandidateId(lookup, found[n].deviceId) := found[n]];
      }
    }

    method MoveCallbacks(previous: Option<DeviceConfig>, deviceId: string)
      requires Valid()
      modifies `callbacks
      ensures Valid() && callbacks == Moved(old(callbacks), previous, deviceId)
    {
      if previous.Some? && previous.value.deviceId in callbacks {
        var list := callbacks[previous.value.deviceId];
        callbacks := callbacks - {previous.value.deviceId};
        if list != [] {
          callbacks := callbacks[deviceId := list];
        }
      }
    }

    /** The error handler of `pair`.  On an open connection its disconnect can be
        cancelled (`restores` is false), before or after it has closed it. */
    method RollBack(previousDevice: Option<DeviceConfig>, previousLightId: Option<string>, restores: bool,
                    cleared: bool,
                    ghost before: Bound, ghost played: Script)
      requires Valid() && Sound(before) && before.device == previousDevice && before.light == previousLightId
      requires (Interruptible(played) <==> connected) && played.restores == restores
      modifies `device, `pairedLightId, `state, `pending, `futures, `connected, `sessionKey
      ensures Valid()
      ensures Binding() == Rollback(before, old(Binding()), played)
      ensures Requests() == Settled(old(Requests()), played, cleared, false)
    {
      hide LookupLawful, Lawful, Interruptible, BreakAll, DpMapping.Valid;
      if connected && !restores {
        if cleared {
          Disconnect();
        }
        return;
      }
      Disconnect();
      device := previousDevice;
      pairedLightId := previousLightId;
      state := None;
    }

    /** The device `pair` configures for a candidate, if it gets that far: the
        one found under that id, with everything else from the profile. */
    function Target(candidate: string): (r: Option<DeviceConfig>)
      reads this
      ensures r.Some? <==>
              && candidate in discovered && profile.Some? && lookup.privateIp(discovered[candidate].ip)
              && 1 <= |discovered[candidate].deviceId| <= 64
      ensures r.Some? ==>
                Configures(profile.value, discovered[candidate].ip, discovered[candidate].deviceId, r.value)
    {
      if candidate !in discovered || profile.None? then None else
        var made := MakeDevice(lookup, profile.value, discovered[candidate].ip, discovered[candidate].deviceId);
        if made.Ok? then Some(made.value) else None
    }

    /** `pair`; the script and the network say what happens at each await.  The
        binding changes as `Pairing.Pair` says.  The requests of the old
        connection are all settled, whatever comes of it; a commit leaves a
        connection with nothing outstanding, and a rollback no connection. */
    method Pair(candidate: string, script: Script, net: Net) returns (outcome: Pairing.Outcome)
      requires Valid()
      modifies `device, `pairedLightId, `saved, `callbacks, `rawDps, `state,
               `sequence, `issued, `pending, `futures, `connected, `sessionKey
      ensures Valid()
      ensures old(Target(candidate)).None? ==>
                outcome == Failed && Binding() == old(Binding()) && Requests() == old(Requests())
      ensures old(Target(candidate)).Some? ==>
                var next := old(Target(candidate)).value;
                var (t, played) := Contact(crypto, loads, next, Close(old(Requests())), net, script);
                && (Binding(), outcome) ==
                     Pairing.Pair(lookup, profile, hasPath, discovered, old(Binding()), candidate, played)
                && var commits := Commits(lookup, hasPath, old(Binding()), candidate, next, played);
                   script.closes ==> Requests() == Settled(t, played, net.cleared, commits)
      ensures old(Target(candidate)).Some? && !script.closes ==>
                Requests() == if net.cleared then Close(old(Requests())) else old(Requests())
      ensures old(Target(candidate)).Some? && script.closes ==>
                forall h :: 0 <= h < |old(futures)| && h in old(pending).Values ==>
                  h < |futures| && !futures[h].Waiting?
      ensures outcome.Paired? ==>
                && candidate in discovered && profile.Some? && device.Some?
                && outcome.light == candidate && outcome.deviceId == discovered[candidate].deviceId
                && Configures(profile.value, discovered[candidate].ip, discovered[candidate].deviceId, device.value)
      ensures old(Target(candidate)).Some?
              && GoesWell(crypto, loads, old(Target(candidate)).value, old(issued), net, script, hasPath) ==>
                outcome.Paired?
      ensures outcome.Paired? && Undisturbed(net.attempts) ==> connected && pending == map[]
      ensures old(Target(candidate)).Some? && script.closes && script.restores && device != old(Target(candidate)) ==>
                Closed(Requests())
    {
      hide Contact, Bind, Commits, Settled, Connected, Closed, Moved, Configures, LookupLawful, Lawful, DpMapping.Valid;
      if candidate !in discovered || profile.None? {
        return Failed;
      }
      var item := discovered[candidate];
      var made := MakeDevice(lookup, profile.value, item.ip, item.deviceId);
      if made.Err? {
        return Failed;
      }
      ghost var before, requests := Binding(), Requests();
      if GoesWell(crypto, loads, made.value, issued, net, script, hasPath) {
        PairSucceeds(lookup, crypto, loads, hasPath, before, requests, candidate, made.value, net, script);
      }
      hide GoesWell, IsLightId;
      outcome := BindTo(candidate, made.value, script, net);
      PairedOutcome(lookup, crypto, loads, hasPath, before, requests, candidate, made.value, net, script);
    }

    /** Leave the previous device and turn to the next one. */
    method SwitchTo(next: DeviceConfig)
      requires Valid() && next.dps.Some? && next.dps.value.Valid()
      modifies `device, `state, `pending, `futures, `connected, `sessionKey
      ensures Valid() && device == Some(next)
      ensures Binding() == Switch(old(Binding()), next) && Requests() == Close(old(Requests()))
    {
      hide LookupLawful, Lawful, BreakAll;
      Disconnect();
      device := Some(next);
      state := None;
    }

    /** `pair` from the point where the new device is configured. */
    method BindTo(candidate: string, next: DeviceConfig, script: Script, net: Net) returns (outcome: Pairing.Outcome)
      requires Valid() && next.dps.Some? && next.dps.value.Valid()
      modifies `device, `pairedLightId, `saved, `callbacks, `rawDps, `state,
               `sequence, `issued, `pending, `futures, `connected, `sessionKey
      ensures Valid()
      ensures var (t, played) := Contact(crypto, loads, next, Close(old(Requests())), net, script);
              && (Binding(), outcome) == Bind(lookup, hasPath, old(Binding()), candidate, next, played)
              && var commits := Commits(lookup, hasPath, old(Binding()), candidate, next, played);
                 script.closes ==> Requests() == Settled(t, played, net.cleared, commits)
      ensures !script.closes ==> Requests() == if net.cleared then Close(old(Requests())) else old(Requests())
    {
      hide LookupLawful, Lawful, Contact, Commits, Moved, Switch, Tried, Rollback, BreakAll, MakeDevice,
        Interruptible, IsLightId;
      ghost var before, requests := Binding(), Requests();
      FailAllSettles(requests);
      ghost var played := Contact(crypto, loads, next, Close(requests), net, script).1;
      ContactMeaning(crypto, loads, next, Close(requests), net, script);
      if !script.closes {
        if net.cleared {
          Disconnect();
        }
        return Failed;
      }
      TriedMeaning(lookup, hasPath, before, candidate, next, played);
      hide Settled, BoundTo;
      var previousDevice, previousLightId := device, pairedLightId;
      SwitchTo(next);
      var completed := TryBind(candidate, next, previousDevice, script, net);
      if completed {
        outcome := if IsLightId(next.deviceId) && IsLightId(candidate) then Paired(candidate, next.deviceId)
          else Failed;
        SettledCommit(Requests(), played, net.cleared);
      } else {
        RollBack(previousDevice, previousLightId, script.restores, net.cleared, before, played);
        outcome := Failed;
      }
    }

    lemma SettledCommit(t: Table, played: Script, cleared: bool)
      ensures Settled(t, played, cleared, true) == t
    {}

    /** The guarded part of `pair`: connect, poll, save, commit. */
    method TryBind(candidate: string, next: DeviceConfig, previousDevice: Option<DeviceConfig>, script: Script,
                   net: Net)
      returns (completed: bool)
      requires Valid() && device == Some(next) && next.dps.Some?
      modifies `pairedLightId, `saved, `callbacks, `rawDps, `state,
               `sequence, `issued, `pending, `futures, `connected, `sessionKey
      ensures Valid()
      ensures var (t, played) := Contact(crypto, loads, next, old(Requests()), net, script);
              && Requests() == t
              && (Binding(), completed) ==
                   Tried(lookup, hasPath, previousDevice, old(Binding()), candidate, next, played)
    {
      hide LookupLawful, Lawful, Contact, PushAll, Answered, SettingOf;
      completed := false;
      var opens, reply := Reach(net, script);
      if opens {
        ReceivePushes(script.pushes);
        if reply.Some? {
          completed := CommitReply(candidate, next, previousDevice, reply.value, script.saves);
        }
      }
    }

    /** Connect and poll. */
    method Reach(net: Net, ghost script: Script) returns (opens: bool, reply: Option<Json>)
      requires Valid() && device.Some?
      modifies `sequence, `issued, `pending, `futures, `connected, `sessionKey
      ensures Valid()
      ensures Contact(crypto, loads, device.value, old(Requests()), net, script) ==
              (Requests(), script.(opens := opens, reply := reply, live := connected))
    {
      hide LookupLawful, Lawful, Connected, Asked, Begun;
      var made := Connect(net.link);
      opens, reply := made.Ok?, None;
      if opens {
        var bytes := Ask(net.attempts);
        if bytes.Some? {
          reply := Some(loads(bytes.value));
        }
      }
    }

    /** The reply to the poll has arrived: adopt it, save and commit. */
    method CommitReply(candidate: string, next: DeviceConfig, previousDevice: Option<DeviceConfig>, payload: Json,
                       saves: bool)
      returns (completed: bool)
      requires Valid() && device == Some(next) && next.dps.Some?
      modifies `pairedLightId, `saved, `callbacks, `rawDps, `state
      ensures Valid()
      ensures (Binding(), completed) ==
              Answered(lookup, hasPath, previousDevice, old(Binding()), candidate, next, payload, saves)
    {
      hide LookupLawful, Lawful, Apply, PollSucceeds, Moved, CandidateId, SettingOf;
      var polled := CommitPoll(payload);
      if polled.Err? || (hasPath && (candidate != CandidateId(lookup, next.deviceId) || !saves)) {
        return false;
      }
      if hasPath {
        saved := Some(PairingFile.Binding(candidate, next.deviceId, next.ip));
      }
      MoveCallbacks(previousDevice, next.deviceId);
      pairedLightId := Some(candidate);
      return true;
    }

    /** The pushes that arrive while `pair` waits. */
    method ReceivePushes(pushes: seq<Json>)
      requires Valid() && device.Some?
      modifies `rawDps, `state
      ensures Valid() && Cached() == PushAll(old(Cached()), pushes)
    {
      ghost var before := Cached();
      for n := 0 to |pushes|
        invariant Valid() && Cached() == PushAll(before, pushes[..n])
      {
        var r := HandlePush(pushes[n]);
        assert pushes[..n + 1][..n] == pushes[..n];
      }
      assert pushes[..|pushes|] == pushes;
    }
  }
}
