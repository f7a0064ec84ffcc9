/** Connecting and one call of `_exchange`, as the coroutine that runs them sees
    the table of requests.  At each await of the call the reader and other tasks
    may act on the table, in any number of steps; `connect` is one step. */
module Asking {
  import opened Common
  import opened Crypto
  import opened Devices
  import opened Dps
  import opened Frames
  import opened Payloads
  import opened Pending
  import Exchange
  import Session

  /** How an attempt to connect goes. */
  datatype Link = Link(
    tcp: bool,                  // the TCP connection is made
    response: Option<Bytes>,    // protocol 3.4: the handshake response, if one arrives
    finish: bool)               // protocol 3.4: the finish message is written

  /** `connect`.  Under protocol 3.4 it takes a number for each of the two
      handshake messages; whatever fails after the TCP connection is made closes
      it again. */
  function Connected(c: Primitives, d: DeviceConfig, t: Table, link: Link): (Table, Result<()>) {
    if t.connected then (t, Ok(()))
    else if !link.tcp then (t, Err(IncompleteRead))
    else if d.version != V34 then (t.(connected := true, session := None), Ok(()))
    else
      match Verified(c, d, link)
      case Err(error) => (Close(Allocate(t, 1)), Err(error))
      case Ok(remote) =>
        if !link.finish then (Close(Allocate(t, 2)), Err(IncompleteRead))
        else (Allocate(t, 2).(connected := true, session := Some(SessionKeyOf(c, d, remote))), Ok(()))
  }

  /** The peer's nonce, if a response arrives and proves knowledge of the key. */
  function Verified(c: Primitives, d: DeviceConfig, link: Link): Result<Session.Nonce> {
    if link.response.None? then Err(IncompleteRead)
    else Session.Verify(c, d.localKey, Session.LOCAL_NONCE, link.response.value)
  }

  function SessionKeyOf(c: Primitives, d: DeviceConfig, remote: Session.Nonce): Bytes {
    Session.SessionKey(c, d.localKey, Session.LOCAL_NONCE, remote)
  }

  // ---- what happens at an await ----

  /** A step of the reader or of another task.  None of them registers a
      request: the call holds the send lock. */
  datatype Other =
    | Leaves                                           // `disconnect`
    | Connects(numbers: nat, session: Option<Bytes>)   // `connect`, if there is no connection
    | Spends(numbers: nat)                             // a handshake that fails
    | Reads(frame: Frame)                              // any frame but a STATUS push
    | ReaderFails

  function AfterOther(t: Table, o: Other): Table {
    match o
    case Leaves => Close(t)
    case Connects(numbers, session) =>
      if t.connected then t else Allocate(t, numbers).(connected := true, session := session)
    case Spends(numbers) => Allocate(t, numbers)
    case Reads(f) => Deliver(t, f)
    case ReaderFails => FailAll(t)
  }

  function Meanwhile(t: Table, others: seq<Other>): Table {
    if others == [] then t else AfterOther(Meanwhile(t, others[..|others| - 1]), others[|others| - 1])
  }

  // ---- the call ----

  /** How the wait for the reply ends. */
  datatype Wake = Wakes | TimesOut | CutOff

  /** How an attempt goes once its request is registered. */
  datatype End =
    | Unsent                                      // the write fails
    | CutOffSending                               // cancelled while writing
    | Sent(waiting: seq<Other>, wake: Wake)

  /** `before`: at the lock or the back-off; `sending`: at the write; `closing`:
      at the disconnect after an error, which `closes` unless it is cancelled. */
  datatype Attempt = Attempt(
    before: seq<Other>, link: Link, sending: seq<Other>, end: End, closing: seq<Other>, closes: bool)

  /** What the loop does after an attempt. */
  datatype Turn = Return(bytes: Bytes) | Raise | Again

  /** The error path, its entry already dropped: disconnect and go on. */
  function AfterFailure(t: Table, a: Attempt): (Table, Turn) {
    var t' := Meanwhile(t, a.closing);
    if a.closes then (Close(t'), Again) else (t', Raise)
  }

  function AttemptOnce(c: Primitives, d: DeviceConfig, t: Table, a: Attempt): (Table, Turn) {
    var (t', made) := Connected(c, d, Meanwhile(t, a.before), a.link);
    if made.Ok? then Requested(c, d, t', a)
    else if Exchange.Caught(made.error) then AfterFailure(t', a)
    else (t', Raise)
  }

  /** The attempt from the point where the connection is open. */
  function Requested(c: Primitives, d: DeviceConfig, t: Table, a: Attempt): (Table, Turn) {
    var q, h, t' := WireNumber(t.issued + 1), |t.futures|, Meanwhile(Register(t), a.sending);
    match a.end
    case Unsent => AfterFailure(Drop(t', q), a)
    case CutOffSending => (t', Raise)
    case Sent(waiting, wake) => Awaited(c, d, Meanwhile(t', waiting), a, q, h, wake)
  }

  /** The end of the wait for future h.  A timeout or a cancellation wins over a
      reply that has only just come. */
  function Awaited(c: Primitives, d: DeviceConfig, t: Table, a: Attempt, q: word, h: nat, wake: Wake): (Table, Turn) {
    if wake == CutOff then (Expire(t, h), Raise)
    else if wake == TimesOut || h >= |t.futures| || t.futures[h].Waiting? then AfterFailure(Drop(Expire(t, h), q), a)
    else if !t.futures[h].Replied? then AfterFailure(Drop(t, q), a)
    else
      match Received(c, d.version, t.futures[h].frame, d.localKey, t.session)
      case Ok(bytes) => (t, Return(bytes))
      case Err(error) => if Exchange.Caught(error) then AfterFailure(Drop(t, q), a) else (t, Raise)
  }

  /** The loop over the attempts that begin. */
  function Asked(c: Primitives, d: DeviceConfig, t: Table, attempts: seq<Attempt>): (Table, Option<Bytes>)
    decreases |attempts|
  {
    if attempts == [] then (t, None) else
      var (t', turn) := AttemptOnce(c, d, t, attempts[0]);
      match turn
      case Return(bytes) => (t', Some(bytes))
      case Raise => (t', None)
      case Again => Asked(c, d, t', attempts[1..])
  }

  // ---- the reply is its own ----

  /** The table in which the last attempt registers its request. */
  function LastRequest(c: Primitives, d: DeviceConfig, t: Table, attempts: seq<Attempt>): Table
    requires attempts != []
    decreases |attempts|
  {
    var (t', turn) := AttemptOnce(c, d, t, attempts[0]);
    if turn.Again? && |attempts| > 1 then LastRequest(c, d, t', attempts[1..])
    else Connected(c, d, Meanwhile(t, attempts[0].before), attempts[0].link).0
  }

  /** Entries point to futures. */
  ghost predicate Pointed(t: Table) { forall q :: q in t.pending ==> t.pending[q] < |t.futures| }

  /** Future h was registered under number q and no other. */
  ghost predicate Own(t: Table, q: word, h: nat) {
    && Pointed(t) && h < |t.futures|
    && (forall p :: p in t.pending && t.pending[p] == h ==> p == q)
    && (t.futures[h].Replied? ==> t.futures[h].frame.sequence == q)
  }

  lemma FailAllOwn(t: Table, q: word, h: nat)
    ensures Pointed(FailAll(t)) && Pointed(Close(t))
    ensures Own(t, q, h) ==> Own(FailAll(t), q, h) && Own(Close(t), q, h)
  {
    FailAllSettles(t);
  }

  lemma OtherOwn(t: Table, o: Other, q: word, h: nat)
    ensures Pointed(t) ==> Pointed(AfterOther(t, o))
    ensures Own(t, q, h) ==> Own(AfterOther(t, o), q, h)
  {
    FailAllOwn(t, q, h);
    hide FailAll, Close;
  }

  lemma {:induction false} MeanwhileOwn(t: Table, others: seq<Other>, q: word, h: nat)
    ensures Pointed(t) ==> Pointed(Meanwhile(t, others))
    ensures Own(t, q, h) ==> Own(Meanwhile(t, others), q, h)
  {
    if others != [] {
      MeanwhileOwn(t, others[..|others| - 1], q, h);
      OtherOwn(Meanwhile(t, others[..|others| - 1]), others[|others| - 1], q, h);
      hide AfterOther, Own, Pointed;
    }
  }

  /** Future |r.futures| answers the request registered in table r, and decodes. */
  ghost predicate Answers(c: Primitives, d: DeviceConfig, r: Table, t: Table, bytes: Bytes) {
    && |r.futures| < |t.futures| && t.futures[|r.futures|].Replied?
    && var f := t.futures[|r.futures|].frame;
       f.sequence == WireNumber(r.issued + 1) && Received(c, d.version, f, d.localKey, t.session) == Ok(bytes)
  }

  lemma RegisterOwn(t: Table)
    requires Pointed(t)
    ensures Own(Register(t), WireNumber(t.issued + 1), |t.futures|)
  {}

  lemma FailureTurns(t: Table, a: Attempt)
    ensures var (t', turn) := AfterFailure(t, a); !turn.Return? && (turn.Again? ==> t'.pending == map[])
  {
    FailAllSettles(Meanwhile(t, a.closing));
    hide Meanwhile, BreakAll;
  }

  lemma AwaitedAnswers(c: Primitives, d: DeviceConfig, r: Table, t: Table, a: Attempt, wake: Wake)
    requires Own(t, WireNumber(r.issued + 1), |r.futures|)
    ensures var (t', turn) := Awaited(c, d, t, a, WireNumber(r.issued + 1), |r.futures|, wake);
            (turn.Return? ==> Answers(c, d, r, t', turn.bytes)) && (turn.Again? ==> t'.pending == map[])
  {
    FailureTurns(Drop(Expire(t, |r.futures|), WireNumber(r.issued + 1)), a);
    FailureTurns(Drop(t, WireNumber(r.issued + 1)), a);
    hide AfterFailure, Received, WireNumber;
  }

  lemma RequestedAnswers(c: Primitives, d: DeviceConfig, t: Table, a: Attempt)
    requires Pointed(t)
    ensures var (t', turn) := Requested(c, d, t, a);
            && (turn.Return? ==> Answers(c, d, t, t', turn.bytes))
            && (turn.Again? ==> t'.pending == map[])
  {
    hide Meanwhile, Register, Drop, AfterFailure, Awaited, Answers, Own, WireNumber, Pointed;
    var q, h, t' := WireNumber(t.issued + 1), |t.futures|, Meanwhile(Register(t), a.sending);
    RegisterOwn(t);
    MeanwhileOwn(Register(t), a.sending, q, h);
    FailureTurns(Drop(t', q), a);
    if a.end.Sent? {
      MeanwhileOwn(t', a.end.waiting, q, h);
      AwaitedAnswers(c, d, t, Meanwhile(t', a.end.waiting), a, a.end.wake);
    }
  }

  lemma AttemptAnswers(c: Primitives, d: DeviceConfig, t: Table, a: Attempt)
    requires Pointed(t)
    ensures var (t', turn) := AttemptOnce(c, d, t, a);
            && (turn.Return? ==> Answers(c, d, Connected(c, d, Meanwhile(t, a.before), a.link).0, t', turn.bytes))
            && (turn.Again? ==> t'.pending == map[])
  {
    MeanwhileOwn(t, a.before, 0, 0);
    ConnectedPointed(c, d, Meanwhile(t, a.before), a.link);
    RequestedAnswers(c, d, Connected(c, d, Meanwhile(t, a.before), a.link).0, a);
    hide Connected, Requested, Meanwhile, Answers, Pointed, BreakAll;
  }

  lemma ConnectedPointed(c: Primitives, d: DeviceConfig, t: Table, link: Link)
    requires Pointed(t)
    ensures Pointed(Connected(c, d, t, link).0)
  {
    FailAllOwn(Allocate(t, 1), 0, 0);
    FailAllOwn(Allocate(t, 2), 0, 0);
    hide Close;
  }

  /** Whatever the reader and other tasks do in between - frames of any number,
      disconnects, reconnects - a call that returns does so with the decode of a
      frame that carries the number its own last attempt was registered under. */
  lemma {:induction false} AskedAnswers(c: Primitives, d: DeviceConfig, t: Table, attempts: seq<Attempt>)
    requires Pointed(t) && attempts != []
    ensures var (t', bytes) := Asked(c, d, t, attempts);
            bytes.Some? ==> Answers(c, d, LastRequest(c, d, t, attempts), t', bytes.value)
    decreases |attempts|
  {
    AttemptAnswers(c, d, t, attempts[0]);
    var (t', turn) := AttemptOnce(c, d, t, attempts[0]);
    if turn.Again? && |attempts| > 1 { AskedAnswers(c, d, t', attempts[1..]); }
    hide AttemptOnce, Answers, Connected, Meanwhile;
  }

  // ---- a call that no other task disturbs ----

  /** Nothing outstanding, no connection, no session key. */
  predicate Closed(t: Table) { t.pending == map[] && !t.connected && t.session == None }

  lemma ConnectedOpens(c: Primitives, d: DeviceConfig, t: Table, link: Link)
    ensures var (t', made) := Connected(c, d, t, link);
            && (made.Ok? <==> t'.connected)
            && (made.Err? ==> t.session == None ==> t'.session == None)
            && (t.pending == map[] ==> t'.pending == map[])
  {
    FailAllSettles(Allocate(t, 1));
    FailAllSettles(Allocate(t, 2));
  }

  /** Steps of the reader alone. */
  predicate Reading(others: seq<Other>) {
    forall k :: 0 <= k < |others| ==> others[k].Reads? || others[k].ReaderFails?
  }

  predicate Quiet(a: Attempt) {
    Reading(a.before) && Reading(a.sending) && Reading(a.closing) && (a.end.Sent? ==> Reading(a.end.waiting))
  }

  predicate Undisturbed(attempts: seq<Attempt>) { forall k :: 0 <= k < |attempts| ==> Quiet(attempts[k]) }

  /** Future h is the only one outstanding, or nothing is. */
  ghost predicate Alone(t: Table, q: word, h: nat) {
    && t.connected && h < |t.futures|
    && t.pending == (if t.futures[h].Waiting? then map[q := h] else map[])
  }

  lemma OtherAlone(t: Table, o: Other, q: word, h: nat)
    requires o.Reads? || o.ReaderFails?
    ensures Alone(t, q, h) ==> Alone(AfterOther(t, o), q, h)
    ensures t.pending == map[] ==> AfterOther(t, o).pending == map[]
    ensures AfterOther(t, o).connected == t.connected && AfterOther(t, o).session == t.session
  {
    if o.ReaderFails? && Alone(t, q, h) && t.futures[h].Waiting? { assert t.pending[q] in t.pending.Values; }
    if o.Reads? && Alone(t, q, h) && o.frame.sequence in t.pending { assert t.pending - {q} == map[]; }
  }

  lemma {:induction false} ReadingAlone(t: Table, others: seq<Other>, q: word, h: nat)
    requires Reading(others)
    ensures Alone(t, q, h) ==> Alone(Meanwhile(t, others), q, h)
    ensures t.pending == map[] ==> Meanwhile(t, others).pending == map[]
    ensures Meanwhile(t, others).connected == t.connected && Meanwhile(t, others).session == t.session
  {
    if others != [] {
      ReadingAlone(t, others[..|others| - 1], q, h);
      OtherAlone(Meanwhile(t, others[..|others| - 1]), others[|others| - 1], q, h);
      hide AfterOther, Alone;
    }
  }

  lemma FailureQuiet(t: Table, a: Attempt)
    requires t.connected && Reading(a.closing)
    ensures var (t', turn) := AfterFailure(t, a);
            !turn.Return? && (turn.Again? ==> Closed(t')) && (turn.Raise? ==> t'.connected)
  {
    ReadingAlone(t, a.closing, 0, 0);
    hide Meanwhile, BreakAll;
  }

  lemma AwaitedQuiet(c: Primitives, d: DeviceConfig, t: Table, a: Attempt, q: word, h: nat, wake: Wake)
    requires Alone(t, q, h) && Reading(a.closing)
    ensures var (t', turn) := Awaited(c, d, t, a, q, h, wake);
            && (turn.Return? ==> t'.connected && t'.pending == map[])
            && (turn.Again? ==> Closed(t')) && (turn.Raise? ==> t'.connected)
  {
    FailureQuiet(Drop(Expire(t, h), q), a);
    FailureQuiet(Drop(t, q), a);
    hide AfterFailure, Received;
  }

  lemma RequestedQuiet(c: Primitives, d: DeviceConfig, t: Table, a: Attempt)
    requires t.connected && t.pending == map[] && Quiet(a)
    ensures var (t', turn) := Requested(c, d, t, a);
            && (turn.Return? ==> t'.connected && t'.pending == map[])
            && (turn.Again? ==> Closed(t')) && (turn.Raise? ==> t'.connected)
  {
    var q, h := WireNumber(t.issued + 1), |t.futures|;
    assert Alone(Register(t), q, h);
    ReadingAlone(Register(t), a.sending, q, h);
    var t' := Meanwhile(Register(t), a.sending);
    FailureQuiet(Drop(t', q), a);
    if a.end.Sent? {
      ReadingAlone(t', a.end.waiting, q, h);
      AwaitedQuiet(c, d, Meanwhile(t', a.end.waiting), a, q, h, a.end.wake);
    }
    hide Meanwhile, Register, AfterFailure, Awaited, Reading, WireNumber;
  }

  lemma AttemptQuiet(c: Primitives, d: DeviceConfig, t: Table, a: Attempt)
    requires (t.connected && t.pending == map[]) || Closed(t)
    requires Quiet(a)
    ensures var (t', turn) := AttemptOnce(c, d, t, a);
            && (turn.Return? ==> t'.connected && t'.pending == map[])
            && (turn.Again? ==> Closed(t')) && (turn.Raise? ==> t'.connected || Closed(t'))
  {
    ReadingAlone(t, a.before, 0, 0);
    var t1 := Meanwhile(t, a.before);
    ConnectedOpens(c, d, t1, a.link);
    var (t2, made) := Connected(c, d, t1, a.link);
    if made.Ok? { RequestedQuiet(c, d, t2, a); } else { ClosedFails(t2, a); }
    hide Connected, Requested, Meanwhile, AfterFailure;
  }

  lemma ClosedFails(t: Table, a: Attempt)
    requires Closed(t) && Reading(a.closing)
    ensures Closed(AfterFailure(t, a).0) && !AfterFailure(t, a).1.Return?
  {
    ReadingAlone(t, a.closing, 0, 0);
    FailAllSettles(Meanwhile(t, a.closing));
    hide Meanwhile, BreakAll;
  }

  /** A call during which no other task acts on the connection - as inside `pair` -
      returns over an open connection with nothing outstanding, or raises with
      the connection closed and nothing outstanding, or was stopped with it open. */
  lemma {:induction false} AskedQuietly(c: Primitives, d: DeviceConfig, t: Table, attempts: seq<Attempt>)
    requires (t.connected && t.pending == map[]) || Closed(t)
    requires Undisturbed(attempts)
    ensures var (t', bytes) := Asked(c, d, t, attempts);
            && (bytes.Some? ==> t'.connected && t'.pending == map[])
            && (bytes.None? ==> t'.connected || Closed(t'))
    decreases |attempts|
  {
    if attempts != [] {
      AttemptQuiet(c, d, t, attempts[0]);
      var (t', turn) := AttemptOnce(c, d, t, attempts[0]);
      if turn.Again? { AskedQuietly(c, d, t', attempts[1..]); }
      hide AttemptOnce, Quiet;
    }
  }

  // ---- futures that are done ----

  /** Futures are only added, and one that is done stays as it is. */
  ghost predicate Extends(t: Table, t': Table) {
    && |t.futures| <= |t'.futures|
    && forall h :: 0 <= h < |t.futures| && !t.futures[h].Waiting? ==> t'.futures[h] == t.futures[h]
  }

  lemma ClosingExtends(t: Table)
    ensures Extends(t, Close(t)) && Extends(t, FailAll(t))
  {
    FailAllSettles(t);
  }

  lemma OtherExtends(t: Table, o: Other)
    ensures Extends(t, AfterOther(t, o))
  {
    ClosingExtends(t);
    hide Close, FailAll;
  }

  lemma {:induction false} MeanwhileExtends(t: Table, others: seq<Other>)
    ensures Extends(t, Meanwhile(t, others))
  {
    if others != [] {
      MeanwhileExtends(t, others[..|others| - 1]);
      OtherExtends(Meanwhile(t, others[..|others| - 1]), others[|others| - 1]);
      hide AfterOther;
    }
  }

  lemma FailureExtends(t: Table, a: Attempt)
    ensures Extends(t, AfterFailure(t, a).0)
  {
    MeanwhileExtends(t, a.closing);
    ClosingExtends(Meanwhile(t, a.closing));
    hide Close, Meanwhile;
  }

  lemma AwaitedExtends(c: Primitives, d: DeviceConfig, t: Table, a: Attempt, q: word, h: nat, wake: Wake)
    ensures Extends(t, Awaited(c, d, t, a, q, h, wake).0)
  {
    FailureExtends(Drop(Expire(t, h), q), a);
    FailureExtends(Drop(t, q), a);
    hide AfterFailure, Received;
  }

  lemma ExtendsOn(t: Table, t': Table, t'': Table)
    requires Extends(t, t') && Extends(t', t'')
    ensures Extends(t, t'')
  {}

  lemma UnsentExtends(t: Table, a: Attempt, q: word)
    ensures Extends(t, AfterFailure(Drop(t, q), a).0)
  {
    FailureExtends(Drop(t, q), a);
    hide AfterFailure;
  }

  lemma RegisterExtends(t: Table, a: Attempt)
    ensures Extends(t, Meanwhile(Register(t), a.sending))
  {
    MeanwhileExtends(Register(t), a.sending);
    hide Meanwhile, WireNumber;
  }

  lemma RequestedExtends(c: Primitives, d: DeviceConfig, t: Table, a: Attempt)
    ensures Extends(t, Requested(c, d, t, a).0)
  {
    hide Extends, Meanwhile, Register, AfterFailure, Awaited, WireNumber, Drop;
    var q, h, t' := WireNumber(t.issued + 1), |t.futures|, Meanwhile(Register(t), a.sending);
    RegisterExtends(t, a);
    UnsentExtends(t', a, q);
    ExtendsOn(t, t', AfterFailure(Drop(t', q), a).0);
    if a.end.Sent? {
      var t'' := Meanwhile(t', a.end.waiting);
      MeanwhileExtends(t', a.end.waiting);
      AwaitedExtends(c, d, t'', a, q, h, a.end.wake);
      ExtendsOn(t, t', t'');
      ExtendsOn(t, t'', Awaited(c, d, t'', a, q, h, a.end.wake).0);
    }
  }

  lemma AttemptExtends(c: Primitives, d: DeviceConfig, t: Table, a: Attempt)
    ensures Extends(t, AttemptOnce(c, d, t, a).0)
  {
    var t1 := Meanwhile(t, a.before);
    var t2 := Connected(c, d, t1, a.link).0;
    MeanwhileExtends(t, a.before);
    ConnectedExtends(c, d, t1, a.link);
    FailureExtends(t2, a);
    RequestedExtends(c, d, t2, a);
    hide Connected, Requested, AfterFailure, Meanwhile;
  }

  lemma ConnectedExtends(c: Primitives, d: DeviceConfig, t: Table, link: Link)
    ensures Extends(t, Connected(c, d, t, link).0)
  {
    ClosingExtends(Allocate(t, 1));
    ClosingExtends(Allocate(t, 2));
    hide Close;
  }

  /** A call never touches a future that is done. */
  lemma {:induction false} AskedExtends(c: Primitives, d: DeviceConfig, t: Table, attempts: seq<Attempt>)
    ensures Extends(t, Asked(c, d, t, attempts).0)
    decreases |attempts|
  {
    if attempts != [] {
      AttemptExtends(c, d, t, attempts[0]);
      var (t', turn) := AttemptOnce(c, d, t, attempts[0]);
      if turn.Again? { AskedExtends(c, d, t', attempts[1..]); }
      hide AttemptOnce;
    }
  }

  // ---- progress ----

  /** The link opens a connection where there is none. */
  predicate Opens(c: Primitives, d: DeviceConfig, link: Link) {
    link.tcp && (d.version == V34 ==> Verified(c, d, link).Ok? && link.finish)
  }

  /** How many numbers connecting takes: one for each handshake message it sends. */
  function HandshakeNumbers(c: Primitives, d: DeviceConfig, link: Link): nat {
    if !link.tcp || d.version != V34 then 0 else if Verified(c, d, link).Ok? then 2 else 1
  }

  /** The session key of a new connection. */
  function NewSession(c: Primitives, d: DeviceConfig, link: Link): Option<Bytes> {
    if d.version == V34 && Verified(c, d, link).Ok? then Some(SessionKeyOf(c, d, Verified(c, d, link).value)) else None
  }

  /** A handshake response that is no whole number of cipher blocks stops the
      call with a plain ValueError; every other failure to connect is retried. */
  predicate RetriedIfNotOpen(c: Primitives, d: DeviceConfig, link: Link) {
    link.tcp && d.version == V34 && Verified(c, d, link).Err? ==> Exchange.Caught(Verified(c, d, link).error)
  }

  /** Connecting succeeds exactly if there is a connection or the link opens one. */
  lemma ConnectedMeaning(c: Primitives, d: DeviceConfig, t: Table, link: Link)
    ensures var (t', made) := Connected(c, d, t, link);
            && (made.Ok? <==> t.connected || Opens(c, d, link))
            && (t.connected ==> t' == t)
            && (!t.connected && made.Ok? ==>
                  t' == Allocate(t, HandshakeNumbers(c, d, link)).(
                    connected := true, session := NewSession(c, d, link)))
            && (made.Err? ==> t'.issued == t.issued + HandshakeNumbers(c, d, link) && |t'.futures| == |t.futures|
                              && !t'.connected && (Exchange.Caught(made.error) <==> RetriedIfNotOpen(c, d, link)))
  {
    hide Verified, SessionKeyOf;
  }

  /** An attempt, on a connection that is open or not, that no other task
      disturbs and that fails to connect, to write, or to get a reply in time. */
  predicate Misses(c: Primitives, d: DeviceConfig, a: Attempt, open: bool) {
    && Quiet(a) && a.closes
    && if open || Opens(c, d, a.link) then a.end.Unsent? || (a.end.Sent? && a.end.wake == TimesOut)
       else RetriedIfNotOpen(c, d, a.link)
  }

  /** The numbers such an attempt takes. */
  function NumbersTaken(c: Primitives, d: DeviceConfig, a: Attempt, open: bool): nat {
    (if open then 0 else HandshakeNumbers(c, d, a.link)) + if open || Opens(c, d, a.link) then 1 else 0
  }

  /** Frames with other numbers. */
  predicate OthersReplies(others: seq<Other>, q: word) {
    forall k :: 0 <= k < |others| ==> others[k].Reads? && others[k].frame.sequence != q
  }

  /** An attempt whose request, registered under the number q, is answered by f:
      before it frames with other numbers arrive, after it anything the reader does. */
  predicate GetsReply(c: Primitives, d: DeviceConfig, a: Attempt, open: bool, q: word, f: Frame) {
    && Quiet(a) && (open || Opens(c, d, a.link)) && f.sequence == q
    && OthersReplies(a.sending, q) && a.end.Sent? && a.end.wake == Wakes
    && exists m :: 0 <= m < |a.end.waiting| && a.end.waiting[m] == Reads(f) && OthersReplies(a.end.waiting[..m], q)
  }

  /** The reply f to the attempt decodes to these bytes, under the session key the
      connection has then. */
  predicate DecodesTo(c: Primitives, d: DeviceConfig, a: Attempt, open: bool, session: Option<Bytes>, issued: nat,
                      f: Frame, bytes: Bytes)
  {
    && GetsReply(c, d, a, open, WireNumber(issued + (if open then 0 else HandshakeNumbers(c, d, a.link)) + 1), f)
    && Received(c, d.version, f, d.localKey, if open then session else NewSession(c, d, a.link)) == Ok(bytes)
  }

  /** The attempts before k miss and attempt k is answered by a frame that decodes
      to these bytes, `issued` numbers having been taken so far. */
  ghost predicate AnsweredAt(c: Primitives, d: DeviceConfig, open: bool, session: Option<Bytes>, issued: nat,
                             attempts: seq<Attempt>, k: nat, bytes: Bytes)
    decreases k
  {
    && k < |attempts|
    && var a := attempts[0];
       if k == 0 then exists f :: DecodesTo(c, d, a, open, session, issued, f, bytes)
       else
         && Misses(c, d, a, open)
         && AnsweredAt(c, d, false, None, issued + NumbersTaken(c, d, a, open), attempts[1..], k - 1, bytes)
  }

  /** The attempts before k miss, and attempt k - which registers its request
      under the number `last` - is cancelled while it writes or waits, or is
      answered by a frame that decodes with a plain ValueError. */
  ghost predicate StoppedAt(c: Primitives, d: DeviceConfig, open: bool, session: Option<Bytes>, issued: nat,
                            attempts: seq<Attempt>, k: nat, last: nat)
    decreases k
  {
    && k < |attempts|
    && var a := attempts[0];
       if k == 0 then
         && last == issued + (if open then 0 else HandshakeNumbers(c, d, a.link)) + 1
         && (CancelledIn(c, d, a, open) || exists f :: SpoiltBy(c, d, a, open, session, last, f))
       else
         && Misses(c, d, a, open)
         && StoppedAt(c, d, false, None, issued + NumbersTaken(c, d, a, open), attempts[1..], k - 1, last)
  }

  predicate CancelledIn(c: Primitives, d: DeviceConfig, a: Attempt, open: bool) {
    && Quiet(a) && (open || Opens(c, d, a.link))
    && (a.end.CutOffSending? || (a.end.Sent? && a.end.wake == CutOff))
  }

  predicate SpoiltBy(c: Primitives, d: DeviceConfig, a: Attempt, open: bool, session: Option<Bytes>, last: nat,
                     f: Frame)
  {
    && GetsReply(c, d, a, open, WireNumber(last), f)
    && Received(c, d.version, f, d.localKey, if open then session else NewSession(c, d, a.link)) == Err(ValueError)
  }

  lemma {:induction false} ReadingNumbers(t: Table, others: seq<Other>)
    requires Reading(others)
    ensures Meanwhile(t, others).issued == t.issued && Meanwhile(t, others).connected == t.connected
    ensures Meanwhile(t, others).session == t.session
  {
    if others != [] { ReadingNumbers(t, others[..|others| - 1]); }
    hide FailAll;
  }

  lemma FailureNumbers(t: Table, a: Attempt)
    requires Reading(a.closing) && a.closes
    ensures var (t', turn) := AfterFailure(t, a); turn.Again? && t'.issued == t.issued && !t'.connected
  {
    ReadingNumbers(t, a.closing);
    hide Meanwhile, FailAll;
  }

  lemma MissedRequest(c: Primitives, d: DeviceConfig, t: Table, a: Attempt)
    requires Quiet(a) && a.closes && (a.end.Unsent? || (a.end.Sent? && a.end.wake == TimesOut))
    ensures var (t', turn) := Requested(c, d, t, a); turn.Again? && t'.issued == t.issued + 1 && !t'.connected
  {
    var q, h := WireNumber(t.issued + 1), |t.futures|;
    var t1 := Meanwhile(Register(t), a.sending);
    ReadingNumbers(Register(t), a.sending);
    FailureNumbers(Drop(t1, q), a);
    if a.end.Sent? {
      var t2 := Meanwhile(t1, a.end.waiting);
      ReadingNumbers(t1, a.end.waiting);
      FailureNumbers(Drop(Expire(t2, h), q), a);
    }
    hide Meanwhile, AfterFailure, Received, WireNumber;
  }

  /** An attempt that misses makes the loop go on, with the connection closed. */
  lemma MissesAgain(c: Primitives, d: DeviceConfig, t: Table, a: Attempt)
    requires Misses(c, d, a, t.connected)
    ensures var (t', turn) := AttemptOnce(c, d, t, a);
            turn.Again? && !t'.connected && t'.issued == t.issued + NumbersTaken(c, d, a, t.connected)
  {
    var t1 := Meanwhile(t, a.before);
    ReadingNumbers(t, a.before);
    ConnectedMeaning(c, d, t1, a.link);
    var (t2, made) := Connected(c, d, t1, a.link);
    if made.Ok? { MissedRequest(c, d, t2, a); } else { FailureNumbers(t2, a); }
    hide Meanwhile, Connected, Requested, AfterFailure, Opens, HandshakeNumbers, RetriedIfNotOpen, Reading;
  }

  /** Future h waits under the number q. */
  ghost predicate Expects(t: Table, q: word, h: nat) {
    h < |t.futures| && t.futures[h].Waiting? && q in t.pending && t.pending[q] == h && Own(t, q, h)
  }

  lemma {:induction false} OthersExpect(t: Table, others: seq<Other>, q: word, h: nat)
    requires Expects(t, q, h) && OthersReplies(others, q)
    ensures Expects(Meanwhile(t, others), q, h)
    ensures Meanwhile(t, others).session == t.session
  {
    if others != [] {
      OthersExpect(t, others[..|others| - 1], q, h);
      MeanwhileOwn(t, others, q, h);
      hide Own;
    }
  }

  lemma {:induction false} MeanwhileOn(t: Table, a: seq<Other>, b: seq<Other>)
    ensures Meanwhile(t, a + b) == Meanwhile(Meanwhile(t, a), b)
  {
    hide AfterOther;
    if b == [] {
      assert a + b == a;
    } else {
      MeanwhileOn(t, a, b[..|b| - 1]);
      assert (a + b)[..|a + b| - 1] == a + b[..|b| - 1];
    }
  }

  lemma ReplyArrives(t: Table, waiting: seq<Other>, m: nat, f: Frame, h: nat)
    requires Expects(t, f.sequence, h) && Reading(waiting)
    requires m < |waiting| && waiting[m] == Reads(f) && OthersReplies(waiting[..m], f.sequence)
    ensures var t' := Meanwhile(t, waiting); h < |t'.futures| && t'.futures[h] == Replied(f) && t'.session == t.session
  {
    var early, late := waiting[..m], waiting[m + 1..];
    assert waiting == (early + [Reads(f)]) + late;
    var t1 := Meanwhile(t, early);
    OthersExpect(t, early, f.sequence, h);
    var t2 := Deliver(t1, f);
    MeanwhileOn(t, early, [Reads(f)]);
    assert [Reads(f)][..0] == [];
    assert Meanwhile(t1, [Reads(f)]) == AfterOther(Meanwhile(t1, []), Reads(f)) == t2;
    MeanwhileOn(t, early + [Reads(f)], late);
    MeanwhileExtends(t2, late);
    assert Reading(late);
    ReadingNumbers(t2, late);
  }

  /** The reply has arrived when the wait ends. */
  lemma ReplyWaits(c: Primitives, d: DeviceConfig, t: Table, a: Attempt, open: bool, f: Frame)
    requires Pointed(t) && GetsReply(c, d, a, open, WireNumber(t.issued + 1), f)
    ensures var t' := Meanwhile(Meanwhile(Register(t), a.sending), a.end.waiting);
            && |t.futures| < |t'.futures| && t'.futures[|t.futures|] == Replied(f)
            && t'.session == t.session && t'.issued == t.issued + 1 && t'.connected == t.connected
  {
    hide WireNumber, Opens;
    assert Reading(a.end.waiting) && Reading(a.sending) by { assert Quiet(a); QuietWaiting(a); }
    hide Quiet;
    var q, h := WireNumber(t.issued + 1), |t.futures|;
    RegisterOwn(t);
    var t1 := Meanwhile(Register(t), a.sending);
    OthersExpect(Register(t), a.sending, q, h);
    ReadingNumbers(Register(t), a.sending);
    ReadingNumbers(t1, a.end.waiting);
    var m :| 0 <= m < |a.end.waiting| && a.end.waiting[m] == Reads(f) && OthersReplies(a.end.waiting[..m], q);
    ReplyArrives(t1, a.end.waiting, m, f, h);
    hide Meanwhile, Expects, Own;
  }

  lemma RepliedRequest(c: Primitives, d: DeviceConfig, t: Table, a: Attempt, open: bool, f: Frame, bytes: Bytes)
    requires Pointed(t) && GetsReply(c, d, a, open, WireNumber(t.issued + 1), f)
    requires Received(c, d.version, f, d.localKey, t.session) == Ok(bytes)
    ensures Requested(c, d, t, a).1 == Return(bytes)
  {
    hide Received, WireNumber, Quiet, Opens, OthersReplies, Meanwhile, AfterFailure, Register, Pointed;
    ReplyWaits(c, d, t, a, open, f);
  }

  lemma QuietWaiting(a: Attempt)
    requires Quiet(a) && a.end.Sent?
    ensures Reading(a.end.waiting)
  {}

  lemma RepliedAttempt(c: Primitives, d: DeviceConfig, t: Table, a: Attempt, f: Frame, bytes: Bytes)
    requires Pointed(t)
    requires DecodesTo(c, d, a, t.connected, t.session, t.issued, f, bytes)
    ensures AttemptOnce(c, d, t, a).1 == Return(bytes)
  {
    var t1 := Meanwhile(t, a.before);
    ReadingNumbers(t, a.before);
    MeanwhileOwn(t, a.before, 0, 0);
    ConnectedMeaning(c, d, t1, a.link);
    ConnectedPointed(c, d, t1, a.link);
    RepliedRequest(c, d, Connected(c, d, t1, a.link).0, a, t.connected, f, bytes);
    hide Meanwhile, Connected, Requested, HandshakeNumbers, NewSession, Opens, Received, WireNumber, Pointed;
  }

  /** The loop retries: when the attempts before some attempt miss and that one
      is answered, the call returns exactly the decode of the answer. */
  lemma {:induction false} AskedRetries(c: Primitives, d: DeviceConfig, t: Table, attempts: seq<Attempt>, k: nat,
                                        bytes: Bytes)
    requires Pointed(t) && AnsweredAt(c, d, t.connected, t.session, t.issued, attempts, k, bytes)
    ensures Asked(c, d, t, attempts).1 == Some(bytes)
    decreases k
  {
    hide AttemptOnce, DecodesTo, Misses, NumbersTaken, Pointed;
    var a := attempts[0];
    if k == 0 {
      var f :| DecodesTo(c, d, a, t.connected, t.session, t.issued, f, bytes);
      RepliedAttempt(c, d, t, a, f, bytes);
    } else {
      MissesAgain(c, d, t, a);
      var t' := AttemptOnce(c, d, t, a).0;
      AttemptPointed(c, d, t, a);
      NewSessionOnly(c, d, None, t'.session, t'.issued, attempts[1..], k - 1, bytes);
      AskedRetries(c, d, t', attempts[1..], k - 1, bytes);
    }
  }

  lemma AttemptPointed(c: Primitives, d: DeviceConfig, t: Table, a: Attempt)
    requires Pointed(t) && AttemptOnce(c, d, t, a).1.Again?
    ensures Pointed(AttemptOnce(c, d, t, a).0)
  {
    AttemptAnswers(c, d, t, a);
  }

  /** Without a connection the old session key does not matter. */
  lemma NewSessionOnly(c: Primitives, d: DeviceConfig, s: Option<Bytes>, s': Option<Bytes>, issued: nat,
                       attempts: seq<Attempt>, k: nat, bytes: Bytes)
    requires AnsweredAt(c, d, false, s, issued, attempts, k, bytes)
    ensures AnsweredAt(c, d, false, s', issued, attempts, k, bytes)
  {
    if k == 0 {
      var f :| DecodesTo(c, d, attempts[0], false, s, issued, f, bytes);
      assert DecodesTo(c, d, attempts[0], false, s', issued, f, bytes);
    }
  }

  /** Later attempts do not matter. */
  lemma {:induction false} AnsweredWithin(c: Primitives, d: DeviceConfig, open: bool, s: Option<Bytes>, issued: nat,
                                          attempts: seq<Attempt>, n: nat, k: nat, bytes: Bytes)
    requires k < n <= |attempts| && AnsweredAt(c, d, open, s, issued, attempts, k, bytes)
    ensures AnsweredAt(c, d, open, s, issued, attempts[..n], k, bytes)
    decreases k
  {
    hide DecodesTo, Misses, NumbersTaken;
    if k > 0 {
      var next := issued + NumbersTaken(c, d, attempts[0], open);
      AnsweredWithin(c, d, false, None, next, attempts[1..], n - 1, k - 1, bytes);
      assert attempts[..n][1..] == attempts[1..][..n - 1];
    }
  }

  lemma StoppedRequest(c: Primitives, d: DeviceConfig, t: Table, a: Attempt, open: bool)
    requires CancelledIn(c, d, a, open)
    ensures var (t', turn) := Requested(c, d, t, a);
            turn.Raise? && t'.issued == t.issued + 1 && t'.connected == t.connected
  {
    hide Received, WireNumber, Opens, AfterFailure;
    var t1 := Meanwhile(Register(t), a.sending);
    ReadingNumbers(Register(t), a.sending);
    if a.end.Sent? { ReadingNumbers(t1, a.end.waiting); }
    hide Meanwhile;
  }

  lemma SpoiltRequest(c: Primitives, d: DeviceConfig, t: Table, a: Attempt, open: bool, f: Frame)
    requires Pointed(t) && GetsReply(c, d, a, open, WireNumber(t.issued + 1), f)
    requires Received(c, d.version, f, d.localKey, t.session) == Err(ValueError)
    ensures var (t', turn) := Requested(c, d, t, a);
            turn.Raise? && t'.issued == t.issued + 1 && t'.connected == t.connected
  {
    hide Received, WireNumber, Quiet, Opens, OthersReplies, Meanwhile, AfterFailure, Register, Pointed;
    ReplyWaits(c, d, t, a, open, f);
  }

  lemma StoppedAttempt(c: Primitives, d: DeviceConfig, t: Table, a: Attempt, last: nat)
    requires Pointed(t) && StoppedAt(c, d, t.connected, t.session, t.issued, [a], 0, last)
    ensures var (t', turn) := AttemptOnce(c, d, t, a); turn.Raise? && t'.issued == last && t'.connected
  {
    hide Meanwhile, Connected, Requested, HandshakeNumbers, NewSession, Opens, Received, WireNumber, Pointed;
    var t1 := Meanwhile(t, a.before);
    ReadingNumbers(t, a.before);
    MeanwhileOwn(t, a.before, 0, 0);
    ConnectedMeaning(c, d, t1, a.link);
    ConnectedPointed(c, d, t1, a.link);
    var t2 := Connected(c, d, t1, a.link).0;
    if CancelledIn(c, d, a, t.connected) {
      StoppedRequest(c, d, t2, a, t.connected);
    } else {
      var f :| SpoiltBy(c, d, a, t.connected, t.session, last, f);
      SpoiltRequest(c, d, t2, a, t.connected, f);
    }
  }

  /** A call that is stopped makes no further attempt: it returns nothing and
      leaves the connection open, its request the last to have taken a number. */
  lemma {:induction false} AskedStops(c: Primitives, d: DeviceConfig, t: Table, attempts: seq<Attempt>, k: nat,
                                      last: nat)
    requires Pointed(t) && StoppedAt(c, d, t.connected, t.session, t.issued, attempts, k, last)
    ensures var (t', bytes) := Asked(c, d, t, attempts); bytes.None? && t'.issued == last && t'.connected
    decreases k
  {
    hide AttemptOnce, CancelledIn, SpoiltBy, Misses, NumbersTaken, Pointed, HandshakeNumbers;
    var a := attempts[0];
    if k == 0 {
      StoppedAttempt(c, d, t, a, last);
    } else {
      MissesAgain(c, d, t, a);
      var t' := AttemptOnce(c, d, t, a).0;
      AttemptPointed(c, d, t, a);
      StoppedSessionOnly(c, d, None, t'.session, t'.issued, attempts[1..], k - 1, last);
      AskedStops(c, d, t', attempts[1..], k - 1, last);
    }
  }

  lemma StoppedSessionOnly(c: Primitives, d: DeviceConfig, s: Option<Bytes>, s': Option<Bytes>, issued: nat,
                           attempts: seq<Attempt>, k: nat, last: nat)
    requires StoppedAt(c, d, false, s, issued, attempts, k, last)
    ensures StoppedAt(c, d, false, s', issued, attempts, k, last)
  {
    hide CancelledIn, Misses;
    if k == 0 && !CancelledIn(c, d, attempts[0], false) {
      var f :| SpoiltBy(c, d, attempts[0], false, s, last, f);
      assert SpoiltBy(c, d, attempts[0], false, s', last, f);
    }
  }

  lemma {:induction false} StoppedWithin(c: Primitives, d: DeviceConfig, open: bool, s: Option<Bytes>, issued: nat,
                                         attempts: seq<Attempt>, n: nat, k: nat, last: nat)
    requires k < n <= |attempts| && StoppedAt(c, d, open, s, issued, attempts, k, last)
    ensures StoppedAt(c, d, open, s, issued, attempts[..n], k, last)
    decreases k
  {
    hide CancelledIn, SpoiltBy, Misses, NumbersTaken;
    if k > 0 {
      var next := issued + NumbersTaken(c, d, attempts[0], open);
      StoppedWithin(c, d, false, None, next, attempts[1..], n - 1, k - 1, last);
      assert attempts[..n][1..] == attempts[1..][..n - 1];
    }
  }

  // ---- giving up ----

  /** Nothing in the attempt cancels the call or raises a plain ValueError, and
      its link opens a connection if there is none. */
  ghost predicate Uncut(c: Primitives, d: DeviceConfig, a: Attempt) {
    && a.closes && !a.end.CutOffSending? && (a.end.Sent? ==> a.end.wake != CutOff) && Opens(c, d, a.link)
    && Sorted(c, d, a.sending) && (a.end.Sent? ==> Sorted(c, d, a.end.waiting))
  }

  /** Frames that do not decode do so with an error that is retried. */
  ghost predicate Sorted(c: Primitives, d: DeviceConfig, others: seq<Other>) {
    forall k, session :: 0 <= k < |others| && others[k].Reads? ==> Decent(c, d, others[k].frame, session)
  }

  predicate Decent(c: Primitives, d: DeviceConfig, f: Frame, session: Option<Bytes>) {
    var r := Received(c, d.version, f, d.localKey, session);
    r.Err? ==> Exchange.Caught(r.error)
  }

  ghost predicate DecentAt(c: Primitives, d: DeviceConfig, t: Table, h: nat) {
    h < |t.futures| && (t.futures[h].Replied? ==> forall session :: Decent(c, d, t.futures[h].frame, session))
  }

  lemma {:induction false} MeanwhileCounts(c: Primitives, d: DeviceConfig, t: Table, others: seq<Other>, h: nat)
    ensures |Meanwhile(t, others).futures| == |t.futures|
    ensures Sorted(c, d, others) && DecentAt(c, d, t, h) ==> DecentAt(c, d, Meanwhile(t, others), h)
  {
    if others != [] {
      var front := others[..|others| - 1];
      MeanwhileCounts(c, d, t, front, h);
      OtherCounts(c, d, Meanwhile(t, front), others[|others| - 1], h);
      assert Sorted(c, d, others) ==> Sorted(c, d, front);
      hide AfterOther, Decent;
    }
  }

  lemma OtherCounts(c: Primitives, d: DeviceConfig, t: Table, o: Other, h: nat)
    ensures |AfterOther(t, o).futures| == |t.futures|
    ensures DecentAt(c, d, t, h) && (o.Reads? ==> forall session :: Decent(c, d, o.frame, session)) ==>
              DecentAt(c, d, AfterOther(t, o), h)
  {
    hide Decent;
  }

  lemma RequestedCounts(c: Primitives, d: DeviceConfig, t: Table, a: Attempt)
    requires Uncut(c, d, a)
    ensures var (t', turn) := Requested(c, d, t, a); !turn.Raise? && |t'.futures| == |t.futures| + 1
  {
    hide Received, WireNumber, Opens, Meanwhile, Awaited, AfterFailure, Decent, Sorted;
    var h, t1 := |t.futures|, Meanwhile(Register(t), a.sending);
    MeanwhileCounts(c, d, Register(t), a.sending, h);
    FailureCounts(c, d, Drop(t1, WireNumber(t.issued + 1)), a);
    if a.end.Sent? {
      MeanwhileCounts(c, d, t1, a.end.waiting, h);
      AwaitedCounts(c, d, Meanwhile(t1, a.end.waiting), a, WireNumber(t.issued + 1), h, a.end.wake);
    }
  }

  lemma AwaitedCounts(c: Primitives, d: DeviceConfig, t: Table, a: Attempt, q: word, h: nat, wake: Wake)
    requires DecentAt(c, d, t, h) && a.closes && wake != CutOff
    ensures var (t', turn) := Awaited(c, d, t, a, q, h, wake); !turn.Raise? && |t'.futures| == |t.futures|
  {
    hide Received;
    FailureCounts(c, d, Drop(Expire(t, h), q), a);
    FailureCounts(c, d, Drop(t, q), a);
    assert t.futures[h].Replied? ==> Decent(c, d, t.futures[h].frame, t.session);
    hide AfterFailure;
  }

  lemma FailureCounts(c: Primitives, d: DeviceConfig, t: Table, a: Attempt)
    ensures |AfterFailure(t, a).0.futures| == |t.futures| && (a.closes ==> AfterFailure(t, a).1.Again?)
  {
    MeanwhileCounts(c, d, t, a.closing, 0);
    hide Meanwhile;
  }

  lemma AttemptCounts(c: Primitives, d: DeviceConfig, t: Table, a: Attempt)
    requires Uncut(c, d, a)
    ensures var (t', turn) := AttemptOnce(c, d, t, a); !turn.Raise? && |t'.futures| == |t.futures| + 1
  {
    var t1 := Meanwhile(t, a.before);
    MeanwhileCounts(c, d, t, a.before, 0);
    ConnectedMeaning(c, d, t1, a.link);
    RequestedCounts(c, d, Connected(c, d, t1, a.link).0, a);
    hide Meanwhile, Connected, Requested, HandshakeNumbers, NewSession;
  }

  ghost predicate AllUncut(c: Primitives, d: DeviceConfig, attempts: seq<Attempt>) {
    forall k :: 0 <= k < |attempts| ==> Uncut(c, d, attempts[k])
  }

  /** A call that nothing cuts off gives up only after every attempt has been
      made: each registers one request. */
  lemma {:induction false} AskedExhausts(c: Primitives, d: DeviceConfig, t: Table, attempts: seq<Attempt>)
    requires AllUncut(c, d, attempts)
    ensures var (t', bytes) := Asked(c, d, t, attempts);
            && (bytes.None? ==> |t'.futures| == |t.futures| + |attempts|)
            && |t'.futures| <= |t.futures| + |attempts|
    decreases |attempts|
  {
    if attempts != [] {
      AttemptCounts(c, d, t, attempts[0]);
      var (t', turn) := AttemptOnce(c, d, t, attempts[0]);
      if turn.Again? { AskedExhausts(c, d, t', attempts[1..]); }
      hide AttemptOnce, Uncut;
    }
  }

  // ---- the same call in the step machine ----

  /** The state after these steps; steps that are not enabled change nothing. */
  function Follow(g: Exchange.Config, s: Exchange.State, steps: seq<Exchange.Step>): Exchange.State {
    if steps == [] then s else
      var s' := Follow(g, s, steps[..|steps| - 1]);
      if Exchange.Enabled(g, s', steps[|steps| - 1]) then Exchange.Apply(g, s', steps[|steps| - 1]) else s'
  }

  ghost predicate Reaches(g: Exchange.Config, s: Exchange.State, s': Exchange.State) {
    exists steps :: Follow(g, s, steps) == s'
  }

  lemma {:induction false} FollowOn(g: Exchange.Config, s: Exchange.State, a: seq<Exchange.Step>, b: seq<Exchange.Step>)
    ensures Follow(g, s, a + b) == Follow(g, Follow(g, s, a), b)
  {
    hide Exchange.Enabled, Exchange.Apply;
    if b == [] {
      assert a + b == a;
    } else {
      FollowOn(g, s, a, b[..|b| - 1]);
      assert (a + b)[..|a + b| - 1] == a + b[..|b| - 1];
    }
  }

  lemma {:induction false} RunOn(g: Exchange.Config, history: seq<Exchange.Step>, steps: seq<Exchange.Step>)
    ensures Exchange.Run(g, history + steps) == Follow(g, Exchange.Run(g, history), steps)
  {
    hide Exchange.Enabled, Exchange.Apply;
    if steps == [] {
      assert history + steps == history;
    } else {
      RunOn(g, history, steps[..|steps| - 1]);
      assert (history + steps)[..|history + steps| - 1] == history + steps[..|steps| - 1];
    }
  }

  lemma Staying(g: Exchange.Config, s: Exchange.State)
    ensures Reaches(g, s, s)
  {
    assert Follow(g, s, []) == s;
  }

  lemma Stepping(g: Exchange.Config, s: Exchange.State, s': Exchange.State, step: Exchange.Step)
    requires Reaches(g, s, s')
    ensures Reaches(g, s, if Exchange.Enabled(g, s', step) then Exchange.Apply(g, s', step) else s')
  {
    hide Exchange.Enabled, Exchange.Apply;
    var steps :| Follow(g, s, steps) == s';
    assert (steps + [step])[..|steps|] == steps;
    assert Follow(g, s, steps + [step]) == if Exchange.Enabled(g, s', step) then Exchange.Apply(g, s', step) else s';
  }

  lemma Onward(g: Exchange.Config, s: Exchange.State, s': Exchange.State, s'': Exchange.State)
    requires Reaches(g, s, s') && Reaches(g, s', s'')
    ensures Reaches(g, s, s'')
  {
    hide Exchange.Enabled, Exchange.Apply;
    var a :| Follow(g, s, a) == s';
    var b :| Follow(g, s', b) == s'';
    FollowOn(g, s, a, b);
  }

  lemma {:induction false} FollowKeeps(g: Exchange.Config, s: Exchange.State, steps: seq<Exchange.Step>)
    requires Exchange.Inv(g, s)
    ensures Exchange.Inv(g, Follow(g, s, steps))
  {
    hide Exchange.Inv, Exchange.Apply, Exchange.Enabled;
    if steps != [] {
      FollowKeeps(g, s, steps[..|steps| - 1]);
      var s' := Follow(g, s, steps[..|steps| - 1]);
      if Exchange.Enabled(g, s', steps[|steps| - 1]) { Exchange.StepKeeps(g, s', steps[|steps| - 1]); }
    }
  }

  lemma ReachesKeeps(g: Exchange.Config, s: Exchange.State, s': Exchange.State)
    requires Exchange.Inv(g, s) && Reaches(g, s, s')
    ensures Exchange.Inv(g, s')
  {
    hide Exchange.Inv, Exchange.Apply, Exchange.Enabled;
    var steps :| Follow(g, s, steps) == s';
    FollowKeeps(g, s, steps);
  }

  function StepOf(o: Other): Exchange.Step {
    match o
    case Leaves => Exchange.Disconnect
    case Connects(numbers, session) => Exchange.Connect(numbers, session)
    case Spends(numbers) => Exchange.Spend(numbers)
    case Reads(f) => Exchange.Receive(f)
    case ReaderFails => Exchange.ReaderFails
  }

  function On(s: Exchange.State, t: Table): Exchange.State { s.(table := t) }

  /** What others do at an await are steps of the machine. */
  lemma {:induction false} OthersReach(g: Exchange.Config, s: Exchange.State, others: seq<Other>)
    ensures Reaches(g, s, On(s, Meanwhile(s.table, others)))
  {
    if others == [] {
      Staying(g, s);
      assert On(s, s.table) == s;
    } else {
      var front, last := others[..|others| - 1], others[|others| - 1];
      OthersReach(g, s, front);
      Stepping(g, s, On(s, Meanwhile(s.table, front)), StepOf(last));
      OtherStep(g, On(s, Meanwhile(s.table, front)), last);
      hide Reaches, AfterOther, Exchange.Apply, Exchange.Enabled;
    }
  }

  lemma OtherStep(g: Exchange.Config, s: Exchange.State, o: Other)
    ensures On(s, AfterOther(s.table, o)) ==
            if Exchange.Enabled(g, s, StepOf(o)) then Exchange.Apply(g, s, StepOf(o)) else s
  {
    hide Deliver, Close, FailAll;
    assert On(s, s.table) == s;
  }

  /** The call is over without a reply. */
  predicate Ended(pc: Exchange.Pc) { pc.Raised? || pc.Escaped? || pc.Dropped? }

  /** Task `id` of the machine is where the loop is. */
  ghost predicate Fits(s: Exchange.State, id: nat, k: nat, r: (Table, Turn)) {
    && s.table == r.0 && id in s.tasks
    && match r.1
       case Return(bytes) => s.tasks[id].Returned? && s.tasks[id].payload == bytes
       case Raise => Ended(s.tasks[id])
       case Again => s.tasks[id] == Exchange.Sleeping(k)
  }

  lemma FailureIsRun(g: Exchange.Config, s: Exchange.State, id: nat, k: nat, a: Attempt) returns (s': Exchange.State)
    requires id in s.tasks && s.tasks[id] == Exchange.Closing(k)
    ensures Reaches(g, s, s') && Fits(s', id, k, AfterFailure(s.table, a))
  {
    OthersReach(g, s, a.closing);
    var s1 := On(s, Meanwhile(s.table, a.closing));
    var step := if a.closes then Exchange.Closed(id) else Exchange.Cancel(id);
    Stepping(g, s, s1, step);
    s' := Exchange.Apply(g, s1, step);
    hide Meanwhile, Reaches, Close;
  }

  /** One step of task `id` itself, then the error path. */
  lemma FailsIsRun(g: Exchange.Config, s: Exchange.State, step: Exchange.Step, id: nat, k: nat, a: Attempt)
    returns (s': Exchange.State)
    requires Exchange.Enabled(g, s, step)
    requires var s1 := Exchange.Apply(g, s, step); id in s1.tasks && s1.tasks[id] == Exchange.Closing(k)
    ensures Reaches(g, s, s') && Fits(s', id, k, AfterFailure(Exchange.Apply(g, s, step).table, a))
  {
    hide Reaches, Fits, AfterFailure, Exchange.Enabled, Exchange.Apply;
    Staying(g, s);
    Stepping(g, s, s, step);
    var s1 := Exchange.Apply(g, s, step);
    s' := FailureIsRun(g, s1, id, k, a);
    Onward(g, s, s1, s');
  }

  /** What the machine decodes is what the driver decodes. */
  ghost predicate Decodes(g: Exchange.Config, c: Primitives, d: DeviceConfig) {
    && g.retries == d.retries
    && forall f, session :: g.decode(f, session) == Received(c, d.version, f, d.localKey, session)
  }

  lemma AwaitedIsRun(g: Exchange.Config, c: Primitives, d: DeviceConfig, s: Exchange.State, id: nat, k: nat, a: Attempt,
                     q: word, h: nat, wake: Wake)
    returns (s': Exchange.State)
    requires Decodes(g, c, d) && id in s.tasks && s.tasks[id] == Exchange.Awaiting(k, h)
    requires h < |s.table.futures| && Exchange.WireOf(s.log, h) == q
    ensures Reaches(g, s, s') && Fits(s', id, k, Awaited(c, d, s.table, a, q, h, wake))
  {
    hide AfterFailure, Received, Reaches;
    var o := s.table.futures[h];
    Staying(g, s);
    if wake == CutOff {
      Stepping(g, s, s, Exchange.Cancel(id));
      s' := Exchange.Apply(g, s, Exchange.Cancel(id));
    } else if wake == TimesOut || o.Waiting? {
      s' := FailsIsRun(g, s, Exchange.TimeOut(id), id, k, a);
    } else if o.Replied? && !FailsToDecode(c, d, s.table, o.frame) {
      assert g.decode(o.frame, s.table.session) == Received(c, d.version, o.frame, d.localKey, s.table.session);
      Stepping(g, s, s, Exchange.Resume(id));
      s' := Exchange.Apply(g, s, Exchange.Resume(id));
    } else {
      assert o.Replied? ==>
          g.decode(o.frame, s.table.session) == Received(c, d.version, o.frame, d.localKey, s.table.session);
      s' := FailsIsRun(g, s, Exchange.Resume(id), id, k, a);
    }
  }

  predicate FailsToDecode(c: Primitives, d: DeviceConfig, t: Table, f: Frame) {
    var decoded := Received(c, d.version, f, d.localKey, t.session);
    decoded.Err? && Exchange.Caught(decoded.error)
  }

  /** The request is registered, and others have acted while it is written. */
  lemma RegisteredIsRun(g: Exchange.Config, s: Exchange.State, id: nat, k: nat, a: Attempt) returns (s': Exchange.State)
    requires Exchange.Inv(g, s) && id in s.tasks && s.tasks[id] == Exchange.Ready(k) && s.table.connected
    ensures Reaches(g, s, s') && s'.table == Meanwhile(Register(s.table), a.sending)
    ensures id in s'.tasks && s'.tasks[id] == Exchange.Writing(k, |s.table.futures|)
    ensures Exchange.WireOf(s'.log, |s.table.futures|) == WireNumber(s.table.issued + 1)
    ensures |s.table.futures| < |s'.table.futures|
  {
    hide WireNumber, Reaches, Register, Meanwhile, Exchange.Inv, Exchange.Apply, Exchange.Enabled;
    var s1 := RegisterStep(g, s, id, k);
    Staying(g, s);
    Stepping(g, s, s, Exchange.RegisterNext(id));
    OthersReach(g, s1, a.sending);
    MeanwhileExtends(s1.table, a.sending);
    s' := On(s1, Meanwhile(s1.table, a.sending));
    Onward(g, s, s1, s');
  }

  lemma RegisterStep(g: Exchange.Config, s: Exchange.State, id: nat, k: nat) returns (s': Exchange.State)
    requires Exchange.Inv(g, s) && id in s.tasks && s.tasks[id] == Exchange.Ready(k) && s.table.connected
    ensures Exchange.Enabled(g, s, Exchange.RegisterNext(id)) && s' == Exchange.Apply(g, s, Exchange.RegisterNext(id))
    ensures s'.table == Register(s.table) && |s'.table.futures| == |s.table.futures| + 1
    ensures id in s'.tasks && s'.tasks[id] == Exchange.Writing(k, |s.table.futures|)
    ensures Exchange.WireOf(s'.log, |s.table.futures|) == WireNumber(s.table.issued + 1)
  {
    LogMatches(g, s);
    hide WireNumber, Exchange.Inv;
    s' := Exchange.Apply(g, s, Exchange.RegisterNext(id));
  }

  lemma LogMatches(g: Exchange.Config, s: Exchange.State)
    requires Exchange.Inv(g, s)
    ensures |s.log| == |s.table.futures|
  {
    hide Exchange.LogOk, Exchange.LockOk, Exchange.TasksOk, Exchange.EntriesOk;
  }

  lemma RequestedIsRun(g: Exchange.Config, c: Primitives, d: DeviceConfig, s: Exchange.State, id: nat, k: nat,
                       a: Attempt)
    returns (s': Exchange.State)
    requires Decodes(g, c, d) && Exchange.Inv(g, s) && s.table.connected
    requires id in s.tasks && s.tasks[id] == Exchange.Ready(k)
    ensures Reaches(g, s, s') && Fits(s', id, k, Requested(c, d, s.table, a))
  {
    hide Meanwhile, Register, AfterFailure, Awaited, WireNumber, Decodes, Reaches, Exchange.Inv;
    var q, h := WireNumber(s.table.issued + 1), |s.table.futures|;
    var s1 := RegisteredIsRun(g, s, id, k, a);
    Staying(g, s1);
    match a.end
    case Unsent =>
      s' := FailsIsRun(g, s1, Exchange.WriteFails(id), id, k, a);
      Onward(g, s, s1, s');
    case CutOffSending =>
      Stepping(g, s, s1, Exchange.Cancel(id));
      s' := Exchange.Apply(g, s1, Exchange.Cancel(id));
    case Sent(waiting, wake) =>
      var s2 := WaitingIsRun(g, s1, id, k, h, waiting);
      s' := AwaitedIsRun(g, c, d, s2, id, k, a, q, h, wake);
      Onward(g, s, s1, s2);
      Onward(g, s, s2, s');
  }

  lemma WaitingIsRun(g: Exchange.Config, s: Exchange.State, id: nat, k: nat, h: nat, waiting: seq<Other>)
    returns (s': Exchange.State)
    requires id in s.tasks && s.tasks[id] == Exchange.Writing(k, h) && h < |s.table.futures|
    ensures Reaches(g, s, s') && s'.table == Meanwhile(s.table, waiting) && s'.log == s.log
    ensures id in s'.tasks && s'.tasks[id] == Exchange.Awaiting(k, h) && h < |s'.table.futures|
  {
    hide Reaches, Meanwhile;
    Staying(g, s);
    Stepping(g, s, s, Exchange.Written(id));
    var s1 := Exchange.Apply(g, s, Exchange.Written(id));
    OthersReach(g, s1, waiting);
    MeanwhileExtends(s1.table, waiting);
    s' := On(s1, Meanwhile(s1.table, waiting));
    Onward(g, s, s1, s');
  }

  /** Connecting, whatever becomes of it. */
  lemma ConnectedIsRun(g: Exchange.Config, c: Primitives, d: DeviceConfig, s: Exchange.State, id: nat, k: nat,
                       link: Link)
    returns (s': Exchange.State)
    requires id in s.tasks && s.tasks[id] == Exchange.Ready(k)
    ensures Reaches(g, s, s') && s'.table == Connected(c, d, s.table, link).0 && id in s'.tasks
    ensures var made := Connected(c, d, s.table, link).1;
            s'.tasks[id] == if made.Ok? then Exchange.Ready(k)
                            else if Exchange.Caught(made.error) then Exchange.Closing(k) else Exchange.Escaped
  {
    hide Reaches, Close, Verified, SessionKeyOf;
    Staying(g, s);
    if s.table.connected {
      s' := s;
    } else if !link.tcp {
      Stepping(g, s, s, Exchange.ConnectFails(id, IncompleteRead));
      s' := Exchange.Apply(g, s, Exchange.ConnectFails(id, IncompleteRead));
    } else if d.version != V34 {
      Stepping(g, s, s, Exchange.Connect(0, None));
      s' := Exchange.Apply(g, s, Exchange.Connect(0, None));
    } else {
      var verified := Verified(c, d, link);
      if verified.Ok? && link.finish {
        var step := Exchange.Connect(2, Some(SessionKeyOf(c, d, verified.value)));
        Stepping(g, s, s, step);
        s' := Exchange.Apply(g, s, step);
      } else {
        var error := if verified.Err? then verified.error else IncompleteRead;
        s' := HandshakeFails(g, s, id, if verified.Err? then 1 else 2, error);
      }
    }
  }

  lemma HandshakeFails(g: Exchange.Config, s: Exchange.State, id: nat, numbers: nat, error: Error)
    returns (s': Exchange.State)
    requires id in s.tasks && s.tasks[id].Ready?
    ensures Reaches(g, s, s') && s'.table == Close(Allocate(s.table, numbers)) && id in s'.tasks
    ensures s'.tasks[id] == if Exchange.Caught(error) then Exchange.Closing(s.tasks[id].attempt) else Exchange.Escaped
  {
    hide Reaches, BreakAll;
    Staying(g, s);
    Stepping(g, s, s, Exchange.Spend(numbers));
    var s1 := Exchange.Apply(g, s, Exchange.Spend(numbers));
    Stepping(g, s, s1, Exchange.Disconnect);
    var s2 := Exchange.Apply(g, s1, Exchange.Disconnect);
    Stepping(g, s, s2, Exchange.ConnectFails(id, error));
    s' := Exchange.Apply(g, s2, Exchange.ConnectFails(id, error));
  }

  /** Task `id` is about to begin attempt k: at once, or after backing off. */
  predicate Begins(s: Exchange.State, id: nat, k: nat) {
    id in s.tasks && (s.tasks[id] == Exchange.Ready(k) || (k > 0 && s.tasks[id] == Exchange.Sleeping(k - 1)))
  }

  /** Others act before the attempt, then task `id` goes on. */
  lemma BegunIsRun(g: Exchange.Config, s: Exchange.State, id: nat, k: nat, before: seq<Other>)
    returns (s': Exchange.State)
    requires Begins(s, id, k) && k <= g.retries
    ensures Reaches(g, s, s') && s'.table == Meanwhile(s.table, before)
    ensures id in s'.tasks && s'.tasks[id] == Exchange.Ready(k)
  {
    hide Reaches, Meanwhile;
    OthersReach(g, s, before);
    s' := On(s, Meanwhile(s.table, before));
    if s.tasks[id].Sleeping? {
      Stepping(g, s, s', Exchange.Retry(id));
      s' := Exchange.Apply(g, s', Exchange.Retry(id));
    }
  }

  lemma AttemptIsRun(g: Exchange.Config, c: Primitives, d: DeviceConfig, s: Exchange.State, id: nat, k: nat, a: Attempt)
    returns (s': Exchange.State)
    requires Decodes(g, c, d) && Exchange.Inv(g, s) && Begins(s, id, k) && k <= g.retries
    ensures Reaches(g, s, s') && Fits(s', id, k, AttemptOnce(c, d, s.table, a))
  {
    hide Reaches, Meanwhile, Connected, Requested, AfterFailure, Decodes, Exchange.Inv, Exchange.Apply,
      Exchange.Enabled;
    var s1 := BegunIsRun(g, s, id, k, a.before);
    var s2 := ConnectedIsRun(g, c, d, s1, id, k, a.link);
    Onward(g, s, s1, s2);
    ReachesKeeps(g, s, s2);
    var (t, made) := Connected(c, d, s1.table, a.link);
    ConnectedOpens(c, d, s1.table, a.link);
    if made.Ok? {
      s' := RequestedIsRun(g, c, d, s2, id, k, a);
    } else if Exchange.Caught(made.error) {
      s' := FailureIsRun(g, s2, id, k, a);
    } else {
      s' := s2;
      Staying(g, s2);
    }
    Onward(g, s, s2, s');
  }

  /** No attempt is left: the call gives up, or was cancelled while it waited. */
  lemma GivesUp(g: Exchange.Config, s: Exchange.State, id: nat, k: nat) returns (s': Exchange.State)
    requires Begins(s, id, k)
    ensures Reaches(g, s, s') && s'.table == s.table && id in s'.tasks && Ended(s'.tasks[id])
  {
    hide Reaches;
    var step := if s.tasks[id].Sleeping? && s.tasks[id].attempt >= g.retries then Exchange.Retry(id)
                else Exchange.Cancel(id);
    Staying(g, s);
    Stepping(g, s, s, step);
    s' := Exchange.Apply(g, s, step);
  }

  /** The loop, with everything others do in between, is a run of the machine. */
  lemma {:induction false} LoopIsRun(g: Exchange.Config, c: Primitives, d: DeviceConfig, s: Exchange.State, id: nat,
                                     k: nat, attempts: seq<Attempt>)
    returns (s': Exchange.State)
    requires Decodes(g, c, d) && Exchange.Inv(g, s) && Begins(s, id, k) && k + |attempts| <= d.retries + 1
    ensures Reaches(g, s, s') && s'.table == Asked(c, d, s.table, attempts).0 && id in s'.tasks
    ensures match Asked(c, d, s.table, attempts).1
            case Some(bytes) => s'.tasks[id].Returned? && s'.tasks[id].payload == bytes
            case None => Ended(s'.tasks[id])
    decreases |attempts|
  {
    hide Reaches, AttemptOnce, Exchange.Inv, Exchange.Apply, Exchange.Enabled;
    if attempts == [] {
      s' := GivesUp(g, s, id, k);
    } else {
      var s1 := AttemptIsRun(g, c, d, s, id, k, attempts[0]);
      ReachesKeeps(g, s, s1);
      s' := s1;
      if AttemptOnce(c, d, s.table, attempts[0]).1.Again? {
        s' := LoopIsRun(g, c, d, s1, id, k + 1, attempts[1..]);
        Onward(g, s, s1, s');
      }
    }
  }

  /** So a call of `_exchange` by a task that has the lock, after any history, is
      the rest of a run of the machine, with the same table and the same outcome:
      what holds in every run holds of the call. */
  lemma AskedIsRun(g: Exchange.Config, c: Primitives, d: DeviceConfig, history: seq<Exchange.Step>, id: nat,
                   attempts: seq<Attempt>)
    returns (steps: seq<Exchange.Step>)
    requires Decodes(g, c, d) && |attempts| <= d.retries + 1
    requires var s := Exchange.Run(g, history); id in s.tasks && s.tasks[id] == Exchange.Ready(0)
    ensures var s, s' := Exchange.Run(g, history), Exchange.Run(g, history + steps);
            var (t, bytes) := Asked(c, d, s.table, attempts);
            && s'.table == t && id in s'.tasks
            && (bytes.Some? ==> s'.tasks[id].Returned? && s'.tasks[id].payload == bytes.value)
            && (bytes.None? ==> Ended(s'.tasks[id]))
  {
    hide Asked, Exchange.Run, Exchange.Inv, Exchange.Apply, Exchange.Enabled;
    var s := Exchange.Run(g, history);
    Exchange.RunKeeps(g, history);
    var s' := LoopIsRun(g, c, d, s, id, 0, attempts);
    steps :| Follow(g, s, steps) == s';
    RunOn(g, history, steps);
  }
}
