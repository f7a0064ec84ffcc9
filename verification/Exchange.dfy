/** `_exchange` as a concurrent protocol.  Each step is what one task does
    between two awaits; a run is any sequence of steps, so the lemmas about
    runs cover every interleaving of exchanges, reader steps, timeouts,
    retries, disconnects, reconnects and cancellations.  Frames are delivered
    by an unconstrained network. */
module Exchange {
  import opened Common
  import opened Frames
  import opened Pending

  datatype Config = Config(
    retries: nat,
    /** `decode_payload` and `_without_retcode`, under the session key of the moment */
    decode: (Frame, Option<Bytes>) -> Result<Bytes>)

  /** Where a call of `_exchange` stands. */
  datatype Pc =
    | Queued                                   // waiting for the send lock
    | Ready(attempt: nat)                      // at the top of the retry loop
    | Writing(attempt: nat, handle: nat)       // awaiting the write
    | Awaiting(attempt: nat, handle: nat)      // awaiting the reply
    | Closing(attempt: nat)                    // awaiting `disconnect` after an error
    | Sleeping(attempt: nat)                   // after it: back off or give up
    | Returned(handle: nat, frame: Frame, session: Option<Bytes>, payload: Bytes)
    | Raised                                   // ConnectionError after the last attempt
    | Escaped                                  // an error the loop does not catch
    | Dropped                                  // cancelled

  /** History of the numbers taken by exchanges, one per future. */
  datatype Issue = Issue(number: nat, wire: word, task: nat, attempt: nat)

  /** `abandoned` counts the cancellations that left a request behind. */
  datatype State = State(table: Table, log: seq<Issue>, owner: Option<nat>, tasks: map<nat, Pc>, abandoned: nat)

  const INITIAL := State(Table(0, map[], [], false, None), [], None, map[], 0)

  datatype Step =
    | Arrive(id: nat)
    | Acquire(id: nat)
    | Connect(numbers: nat, session: Option<Bytes>)   // by any task; a handshake takes numbers too
    | Spend(numbers: nat)                             // a handshake that failed
    | ConnectFails(id: nat, error: Error)
    | RegisterNext(id: nat)
    | Written(id: nat)
    | WriteFails(id: nat)
    | Receive(frame: Frame)                           // the reader, for any frame but a STATUS push
    | ReaderFails
    | Disconnect                                      // by any task
    | TimeOut(id: nat)
    | Resume(id: nat)                                 // the reply future is done
    | Closed(id: nat)
    | Retry(id: nat)
    | Cancel(id: nat)

  predicate Holding(pc: Pc) {
    pc.Ready? || pc.Writing? || pc.Awaiting? || pc.Closing? || pc.Sleeping?
  }

  predicate HasFuture(pc: Pc) { pc.Writing? || pc.Awaiting? }

  /** The errors the retry loop catches. */
  predicate Caught(error: Error) { error == ProtocolError || error == IncompleteRead }

  /** The sequence number a future was issued with. */
  function WireOf(log: seq<Issue>, handle: nat): word {
    if handle < |log| then log[handle].wire else 0
  }

  function At(s: State, id: nat, pc: Pc): State { s.(tasks := s.tasks[id := pc]) }

  function Leave(s: State, id: nat, pc: Pc): State { s.(tasks := s.tasks[id := pc], owner := None) }

  function NextIssue(s: State, id: nat): Issue
    requires id in s.tasks && s.tasks[id].Ready?
  {
    Issue(s.table.issued + 1, WireNumber(s.table.issued + 1), id, s.tasks[id].attempt)
  }

  /** The error path: forget the entry, then disconnect. */
  function Fail(s: State, id: nat, attempt: nat, handle: nat): State {
    s.(table := Drop(s.table, WireOf(s.log, handle)), tasks := s.tasks[id := Closing(attempt)])
  }

  /** Task `id` waits for a reply that has not come, nor failed to. */
  predicate Outstanding(s: State, id: nat) {
    && id in s.tasks && HasFuture(s.tasks[id])
    && s.tasks[id].handle < |s.table.futures| && s.table.futures[s.tasks[id].handle].Waiting?
  }

  predicate Enabled(c: Config, s: State, step: Step) {
    match step
    case Arrive(id) => id !in s.tasks
    case Acquire(id) => id in s.tasks && s.tasks[id].Queued? && s.owner.None?
    case Connect(_, _) => !s.table.connected
    case Spend(_) => true
    case ConnectFails(id, _) => id in s.tasks && s.tasks[id].Ready? && !s.table.connected
    case RegisterNext(id) => id in s.tasks && s.tasks[id].Ready? && s.table.connected
    case Written(id) => id in s.tasks && s.tasks[id].Writing?
    case WriteFails(id) => id in s.tasks && s.tasks[id].Writing?
    case Receive(_) => true
    case ReaderFails => true
    case Disconnect => true
    case TimeOut(id) => id in s.tasks && s.tasks[id].Awaiting?     // even if the reply has just come
    case Resume(id) => id in s.tasks && s.tasks[id].Awaiting? && s.tasks[id].handle < |s.table.futures|
                       && !s.table.futures[s.tasks[id].handle].Waiting?
    case Closed(id) => id in s.tasks && s.tasks[id].Closing?
    case Retry(id) => id in s.tasks && s.tasks[id].Sleeping?
    case Cancel(id) => id in s.tasks && (s.tasks[id].Queued? || Holding(s.tasks[id]))
  }

  function Apply(c: Config, s: State, step: Step): State
    requires Enabled(c, s, step)
  {
    match step
    case Arrive(id) => At(s, id, Queued)
    case Acquire(id) => At(s, id, Ready(0)).(owner := Some(id))
    case Connect(numbers, session) => s.(table := Allocate(s.table, numbers).(connected := true, session := session))
    case Spend(numbers) => s.(table := Allocate(s.table, numbers))
    case ConnectFails(id, error) =>
      if Caught(error) then At(s, id, Closing(s.tasks[id].attempt)) else Leave(s, id, Escaped)
    case RegisterNext(id) =>
      var attempt, handle := s.tasks[id].attempt, |s.table.futures|;
      s.(table := Register(s.table),
         log := s.log + [NextIssue(s, id)],
         tasks := s.tasks[id := Writing(attempt, handle)])
    case Written(id) => At(s, id, Awaiting(s.tasks[id].attempt, s.tasks[id].handle))
    case WriteFails(id) => Fail(s, id, s.tasks[id].attempt, s.tasks[id].handle)
    case Receive(frame) => s.(table := Deliver(s.table, frame))
    case ReaderFails => s.(table := FailAll(s.table))
    case Disconnect => s.(table := Close(s.table))
    case TimeOut(id) =>
      Fail(s.(table := Expire(s.table, s.tasks[id].handle)), id, s.tasks[id].attempt, s.tasks[id].handle)
    case Resume(id) => Resumed(c, s, id, s.tasks[id].attempt, s.tasks[id].handle, s.table.futures[s.tasks[id].handle])
    case Closed(id) => At(s.(table := Close(s.table)), id, Sleeping(s.tasks[id].attempt))
    case Retry(id) =>
      if s.tasks[id].attempt < c.retries then At(s, id, Ready(s.tasks[id].attempt + 1)) else Leave(s, id, Raised)
    case Cancel(id) =>
      var t := if s.tasks[id].Awaiting? then Expire(s.table, s.tasks[id].handle) else s.table;
      State(t, s.log, if Holding(s.tasks[id]) then None else s.owner, s.tasks[id := Dropped],
            s.abandoned + if Outstanding(s, id) then 1 else 0)
  }

  /** The reply future is done: decode a reply, or take the error path. */
  function Resumed(c: Config, s: State, id: nat, attempt: nat, handle: nat, outcome: Outcome): State {
    if !outcome.Replied? then Fail(s, id, attempt, handle) else
      match c.decode(outcome.frame, s.table.session)
      case Ok(payload) => Leave(s, id, Returned(handle, outcome.frame, s.table.session, payload))
      case Err(error) => if Caught(error) then Fail(s, id, attempt, handle) else Leave(s, id, Escaped)
  }

  /** The state after a run; steps that are not enabled change nothing. */
  function Run(c: Config, steps: seq<Step>): State {
    if steps == [] then INITIAL else
      var s := Run(c, steps[..|steps| - 1]);
      if Enabled(c, s, steps[|steps| - 1]) then Apply(c, s, steps[|steps| - 1]) else s
  }

  // ---- the invariant ----

  /** Entries and replies carry the number their future was issued with. */
  ghost predicate TableOk(t: Table, log: seq<Issue>) {
    && |log| == |t.futures|
    && (forall h :: 0 <= h < |log| ==> 1 <= log[h].number <= t.issued)
    && (forall q :: q in t.pending ==> t.pending[q] < |log| && WireOf(log, t.pending[q]) == q)
    && (forall h :: 0 <= h < |log| && t.futures[h].Replied? ==> t.futures[h].frame.sequence == WireOf(log, h))
  }

  /** Numbers grow, and the attempts of one task grow with them. */
  ghost predicate LogOk(c: Config, log: seq<Issue>) {
    && (forall h :: 0 <= h < |log| ==> log[h].attempt <= c.retries && log[h].wire == WireNumber(log[h].number))
    && (forall g, h :: 0 <= g < h < |log| ==> log[g].number < log[h].number)
    && (forall g, h :: 0 <= g < h < |log| && log[g].task == log[h].task ==> log[g].attempt < log[h].attempt)
  }

  /** The send lock is held by the one task that is past it. */
  ghost predicate LockOk(owner: Option<nat>, tasks: map<nat, Pc>) {
    && (forall id :: id in tasks ==> (Holding(tasks[id]) <==> owner == Some(id)))
    && (owner.Some? ==> owner.value in tasks)
  }

  /** Every issue of this task has an attempt number below the bound. */
  ghost predicate IssuedBelow(log: seq<Issue>, id: nat, bound: nat) {
    forall h :: 0 <= h < |log| && log[h].task == id ==> log[h].attempt < bound
  }

  /** The handle is this task's own and its latest. */
  ghost predicate Latest(log: seq<Issue>, id: nat, handle: nat) {
    && handle < |log| && log[handle].task == id
    && forall h :: handle < h < |log| ==> log[h].task != id
  }

  ghost predicate TaskOk(c: Config, log: seq<Issue>, id: nat, pc: Pc) {
    match pc
    case Queued => IssuedBelow(log, id, 0)
    case Ready(a) => a <= c.retries && IssuedBelow(log, id, a)
    case Writing(a, h) => a <= c.retries && IssuedBelow(log, id, a + 1) && Latest(log, id, h)
    case Awaiting(a, h) => a <= c.retries && IssuedBelow(log, id, a + 1) && Latest(log, id, h)
    case Closing(a) => a <= c.retries && IssuedBelow(log, id, a + 1)
    case Sleeping(a) => a <= c.retries && IssuedBelow(log, id, a + 1)
    case Returned(h, frame, session, payload) =>
      Latest(log, id, h) && frame.sequence == WireOf(log, h) && c.decode(frame, session) == Ok(payload)
    case _ => true
  }

  ghost predicate TasksOk(c: Config, log: seq<Issue>, tasks: map<nat, Pc>) {
    && (forall id :: id in tasks ==> TaskOk(c, log, id, tasks[id]))
    && (forall h :: 0 <= h < |log| ==> log[h].task in tasks)
  }

  /** The future of the exchange that holds the lock, if it has one. */
  function OwnHandle(s: State): Option<nat> {
    if s.owner.Some? && s.owner.value in s.tasks && HasFuture(s.tasks[s.owner.value])
    then Some(s.tasks[s.owner.value].handle)
    else None
  }

  function OwnKeys(log: seq<Issue>, own: Option<nat>): set<word> {
    if own.Some? then {WireOf(log, own.value)} else {}
  }

  /** A future that is not done is in the table, and otherwise its number is not. */
  ghost predicate Findable(t: Table, log: seq<Issue>, handle: nat) {
    && handle < |t.futures|
    && (t.futures[handle].Waiting? <==> WireOf(log, handle) in t.pending)
    && (t.futures[handle].Waiting? ==> t.pending[WireOf(log, handle)] == handle)
  }

  /** The holder's future is findable, and only cancellations leave other entries. */
  ghost predicate EntriesOk(t: Table, log: seq<Issue>, own: Option<nat>, abandoned: nat) {
    && (own.Some? ==> Findable(t, log, own.value))
    && |t.pending.Keys - OwnKeys(log, own)| <= abandoned
  }

  ghost predicate Inv(c: Config, s: State) {
    && TableOk(s.table, s.log)
    && LogOk(c, s.log)
    && LockOk(s.owner, s.tasks)
    && TasksOk(c, s.log, s.tasks)
    && EntriesOk(s.table, s.log, OwnHandle(s), s.abandoned)
  }

  // ---- steps on the table ----

  lemma {:induction false} SubsetSize<T>(a: set<T>, b: set<T>)
    requires a <= b
    ensures |a| <= |b|
  {
    if a != {} {
      var x :| x in a;
      SubsetSize(a - {x}, b - {x});
    }
  }

  lemma DeliverTable(t: Table, log: seq<Issue>, f: Frame)
    requires TableOk(t, log)
    ensures TableOk(Deliver(t, f), log)
  {}

  lemma DeliverFindable(t: Table, log: seq<Issue>, h: nat, f: Frame)
    requires TableOk(t, log) && Findable(t, log, h)
    ensures Findable(Deliver(t, f), log, h)
  {
    if f.sequence in t.pending { assert WireOf(log, t.pending[f.sequence]) == f.sequence; }
  }

  lemma DeliverKeeps(t: Table, log: seq<Issue>, own: Option<nat>, n: nat, f: Frame)
    requires TableOk(t, log) && EntriesOk(t, log, own, n)
    ensures TableOk(Deliver(t, f), log) && EntriesOk(Deliver(t, f), log, own, n)
  {
    DeliverTable(t, log, f);
    if own.Some? { DeliverFindable(t, log, own.value, f); }
    hide TableOk, Findable;
    SubsetSize(Deliver(t, f).pending.Keys - OwnKeys(log, own), t.pending.Keys - OwnKeys(log, own));
  }

  lemma FailAllTable(t: Table, log: seq<Issue>)
    requires TableOk(t, log)
    ensures TableOk(FailAll(t), log)
  {}

  lemma FailAllFindable(t: Table, log: seq<Issue>, h: nat)
    requires Findable(t, log, h)
    ensures Findable(FailAll(t), log, h)
  {
    FailAllSettles(t);
    if t.futures[h].Waiting? { assert t.pending[WireOf(log, h)] in t.pending.Values; }
    hide BreakAll, WireOf;
  }

  /** Connection and session key do not matter to the entries. */
  lemma ConnectionApart(t: Table, log: seq<Issue>, own: Option<nat>, n: nat, connected: bool, session: Option<Bytes>)
    requires TableOk(t, log) && EntriesOk(t, log, own, n)
    ensures var t' := t.(connected := connected, session := session); TableOk(t', log) && EntriesOk(t', log, own, n)
  {
    hide WireOf;
  }

  lemma FailAllKeeps(t: Table, log: seq<Issue>, own: Option<nat>, n: nat)
    requires TableOk(t, log) && EntriesOk(t, log, own, n)
    ensures TableOk(FailAll(t), log) && EntriesOk(FailAll(t), log, own, n)
    ensures TableOk(Close(t), log) && EntriesOk(Close(t), log, own, n)
  {
    FailAllSettles(t);
    FailAllTable(t, log);
    if own.Some? { FailAllFindable(t, log, own.value); }
    hide TableOk, Findable, BreakAll;
    assert FailAll(t).pending.Keys - OwnKeys(log, own) == {};
    ConnectionApart(FailAll(t), log, own, n, false, None);
    hide FailAll;
  }

  lemma RegisterTable(t: Table, log: seq<Issue>, issue: Issue)
    requires TableOk(t, log)
    requires issue.number == t.issued + 1 && issue.wire == WireNumber(t.issued + 1)
    ensures TableOk(Register(t), log + [issue]) && Findable(Register(t), log + [issue], |log|)
  {
    hide WireNumber;
    var log' := log + [issue];
    assert forall h :: 0 <= h < |log| ==> log'[h] == log[h] && WireOf(log', h) == WireOf(log, h);
    assert WireOf(log', |log|) == issue.wire;
  }

  lemma RegisterEntries(t: Table, log: seq<Issue>, n: nat, issue: Issue)
    requires TableOk(t, log) && EntriesOk(t, log, None, n)
    requires issue.number == t.issued + 1 && issue.wire == WireNumber(t.issued + 1)
    ensures EntriesOk(Register(t), log + [issue], Some(|log|), n)
  {
    RegisterTable(t, log, issue);
    hide WireNumber, TableOk, Findable;
    var keys := Register(t).pending.Keys - OwnKeys(log + [issue], Some(|log|));
    assert t.pending.Keys - OwnKeys(log, None) == t.pending.Keys;
    SubsetSize(keys, t.pending.Keys);
  }

  lemma DropKeeps(t: Table, log: seq<Issue>, h: nat, n: nat)
    requires TableOk(t, log) && EntriesOk(t, log, Some(h), n)
    ensures TableOk(Drop(t, WireOf(log, h)), log) && EntriesOk(Drop(t, WireOf(log, h)), log, None, n)
  {
    assert Drop(t, WireOf(log, h)).pending.Keys - OwnKeys(log, None) == t.pending.Keys - OwnKeys(log, Some(h));
  }

  lemma ExpireKeeps(t: Table, log: seq<Issue>, h: nat, n: nat)
    requires TableOk(t, log) && EntriesOk(t, log, None, n)
    ensures TableOk(Expire(t, h), log) && EntriesOk(Expire(t, h), log, None, n)
  {}

  /** The exchange gives up its future: one more entry may stay behind. */
  lemma AbandonKeeps(t: Table, log: seq<Issue>, own: Option<nat>, n: nat)
    requires EntriesOk(t, log, own, n)
    ensures EntriesOk(t, log, None, n + 1)
    ensures own.None? || (own.value < |t.futures| && !t.futures[own.value].Waiting?) ==> EntriesOk(t, log, None, n)
  {
    var keys := t.pending.Keys;
    assert keys - OwnKeys(log, None) == keys;
    SubsetSize(keys, (keys - OwnKeys(log, own)) + OwnKeys(log, own));
    if own.Some? && !t.futures[own.value].Waiting? {
      assert keys - OwnKeys(log, own) == keys;
    }
  }

  // ---- steps on the tasks ----

  /** A task that gets a new position keeps the rest of the tasks in order. */
  lemma MoveTask(c: Config, log: seq<Issue>, tasks: map<nat, Pc>, id: nat, pc: Pc)
    requires TasksOk(c, log, tasks) && TaskOk(c, log, id, pc)
    ensures TasksOk(c, log, tasks[id := pc])
  {}

  /** The lock changes hands only as its holder does. */
  lemma MoveLock(owner: Option<nat>, tasks: map<nat, Pc>, id: nat, pc: Pc, owner': Option<nat>)
    requires LockOk(owner, tasks)
    requires if Holding(pc) then owner' == Some(id) && (owner.None? || owner == Some(id))
             else owner' == if owner == Some(id) then None else owner
    ensures LockOk(owner', tasks[id := pc])
  {}

  lemma Known(c: Config, s: State, id: nat)
    requires Inv(c, s) && id in s.tasks
    ensures TaskOk(c, s.log, id, s.tasks[id])
    ensures Holding(s.tasks[id]) <==> s.owner == Some(id)
    ensures HasFuture(s.tasks[id]) ==>
              OwnHandle(s) == Some(s.tasks[id].handle) && Findable(s.table, s.log, s.tasks[id].handle)
    ensures Holding(s.tasks[id]) && !HasFuture(s.tasks[id]) ==> OwnHandle(s) == None
  {}

  /** A new issue is later than everything a task other than its own relies on. */
  lemma RegisterTasks(c: Config, log: seq<Issue>, tasks: map<nat, Pc>, id: nat, issue: Issue)
    requires TasksOk(c, log, tasks)
    requires id in tasks && tasks[id].Ready? && issue.task == id && issue.attempt == tasks[id].attempt
    ensures TasksOk(c, log + [issue], tasks[id := Writing(issue.attempt, |log|)])
  {
    var log' := log + [issue];
    assert TaskOk(c, log, id, tasks[id]);
    assert forall h :: 0 <= h < |log| ==> log'[h] == log[h] && WireOf(log', h) == WireOf(log, h);
    forall other | other in tasks && other != id ensures TaskOk(c, log', other, tasks[other]) {
      assert TaskOk(c, log, other, tasks[other]);
      assert log'[|log|].task != other;
    }
  }

  lemma RegisterLog(c: Config, log: seq<Issue>, issue: Issue)
    requires LogOk(c, log) && issue.attempt <= c.retries && IssuedBelow(log, issue.task, issue.attempt)
    requires issue.wire == WireNumber(issue.number) && forall h :: 0 <= h < |log| ==> log[h].number < issue.number
    ensures LogOk(c, log + [issue])
  {
    hide WireNumber;
    assert forall h :: 0 <= h < |log| ==> (log + [issue])[h] == log[h];
  }

  // ---- every step ----

  lemma TableStep(c: Config, s: State, step: Step)
    requires Inv(c, s) && Enabled(c, s, step)
    requires step.Receive? || step.ReaderFails? || step.Disconnect? || step.Spend? || step.Connect?
    ensures Inv(c, Apply(c, s, step))
  {
    var own := OwnHandle(s);
    assert OwnHandle(Apply(c, s, step)) == own;
    if step.Receive? {
      DeliverKeeps(s.table, s.log, own, s.abandoned, step.frame);
    } else if step.ReaderFails? || step.Disconnect? {
      FailAllKeeps(s.table, s.log, own, s.abandoned);
    }
  }

  /** One task moves; the table and the future of the holder stay as they are. */
  lemma MoveStep(c: Config, s: State, id: nat, pc: Pc, owner: Option<nat>)
    requires Inv(c, s) && TaskOk(c, s.log, id, pc)
    requires LockOk(owner, s.tasks[id := pc])
    requires OwnHandle(s.(tasks := s.tasks[id := pc], owner := owner)) == OwnHandle(s)
    ensures Inv(c, s.(tasks := s.tasks[id := pc], owner := owner))
  {
    hide TableOk, LogOk, LockOk, TasksOk, EntriesOk, TaskOk, OwnHandle;
    MoveTask(c, s.log, s.tasks, id, pc);
  }

  lemma ArriveStep(c: Config, s: State, id: nat)
    requires Inv(c, s) && Enabled(c, s, Arrive(id))
    ensures Inv(c, Apply(c, s, Arrive(id)))
  {
    assert s.owner != Some(id) && TaskOk(c, s.log, id, Queued);
    MoveLock(s.owner, s.tasks, id, Queued, s.owner);
    hide TableOk, LogOk, LockOk, TasksOk, EntriesOk, TaskOk;
    MoveStep(c, s, id, Queued, s.owner);
  }

  lemma AcquireStep(c: Config, s: State, id: nat)
    requires Inv(c, s) && Enabled(c, s, Acquire(id))
    ensures Inv(c, Apply(c, s, Acquire(id)))
  {
    Known(c, s, id);
    MoveLock(s.owner, s.tasks, id, Ready(0), Some(id));
    hide TableOk, LogOk, LockOk, TasksOk, EntriesOk;
    MoveStep(c, s, id, Ready(0), Some(id));
  }

  /** The holder moves on, keeping the lock and its future. */
  lemma HolderStep(c: Config, s: State, id: nat, pc: Pc)
    requires Inv(c, s) && id in s.tasks && Holding(s.tasks[id]) && Holding(pc) && TaskOk(c, s.log, id, pc)
    requires HasFuture(pc) <==> HasFuture(s.tasks[id])
    requires HasFuture(pc) ==> pc.handle == s.tasks[id].handle
    ensures Inv(c, At(s, id, pc))
  {
    Known(c, s, id);
    MoveLock(s.owner, s.tasks, id, pc, s.owner);
    hide TableOk, LogOk, LockOk, TasksOk, EntriesOk, TaskOk;
    MoveStep(c, s, id, pc, s.owner);
  }

  /** The holder leaves without a future. */
  lemma LeaveStep(c: Config, s: State, id: nat, pc: Pc)
    requires Inv(c, s) && id in s.tasks && Holding(s.tasks[id]) && !HasFuture(s.tasks[id])
    requires pc.Raised? || pc.Escaped?
    ensures Inv(c, Leave(s, id, pc))
  {
    Known(c, s, id);
    MoveLock(s.owner, s.tasks, id, pc, None);
    hide TableOk, LogOk, LockOk, TasksOk, EntriesOk;
    MoveStep(c, s, id, pc, None);
  }

  lemma WrittenStep(c: Config, s: State, id: nat)
    requires Inv(c, s) && Enabled(c, s, Written(id))
    ensures Inv(c, Apply(c, s, Written(id)))
  {
    hide TableOk, LogOk, LockOk, TasksOk, EntriesOk;
    Known(c, s, id);
    HolderStep(c, s, id, Awaiting(s.tasks[id].attempt, s.tasks[id].handle));
  }

  lemma ConnectFailsStep(c: Config, s: State, id: nat, error: Error)
    requires Inv(c, s) && Enabled(c, s, ConnectFails(id, error))
    ensures Inv(c, Apply(c, s, ConnectFails(id, error)))
  {
    hide TableOk, LogOk, LockOk, TasksOk, EntriesOk;
    Known(c, s, id);
    if Caught(error) { HolderStep(c, s, id, Closing(s.tasks[id].attempt)); } else { LeaveStep(c, s, id, Escaped); }
  }

  lemma RetryStep(c: Config, s: State, id: nat)
    requires Inv(c, s) && Enabled(c, s, Retry(id))
    ensures Inv(c, Apply(c, s, Retry(id)))
  {
    hide TableOk, LogOk, LockOk, TasksOk, EntriesOk;
    Known(c, s, id);
    var a := s.tasks[id].attempt;
    if a < c.retries { HolderStep(c, s, id, Ready(a + 1)); } else { LeaveStep(c, s, id, Raised); }
  }

  lemma RegisterStep(c: Config, s: State, id: nat)
    requires Inv(c, s) && Enabled(c, s, RegisterNext(id))
    ensures Inv(c, Apply(c, s, RegisterNext(id)))
  {
    hide WireNumber, Register, Findable, LogOk, LockOk, TasksOk, EntriesOk;
    var issue := NextIssue(s, id);
    var pc := Writing(issue.attempt, |s.log|);
    Known(c, s, id);
    MoveLock(s.owner, s.tasks, id, pc, s.owner);
    assert forall h :: 0 <= h < |s.log| ==> s.log[h].number < issue.number;
    assert |s.log| == |s.table.futures|;
    hide TableOk, TaskOk;
    RegisterTable(s.table, s.log, issue);
    RegisterEntries(s.table, s.log, s.abandoned, issue);
    RegisterLog(c, s.log, issue);
    RegisterTasks(c, s.log, s.tasks, id, issue);
    assert OwnHandle(Apply(c, s, RegisterNext(id))) == Some(|s.log|);
  }

  lemma FailStep(c: Config, s: State, id: nat)
    requires Inv(c, s) && id in s.tasks && HasFuture(s.tasks[id])
    ensures Inv(c, Fail(s, id, s.tasks[id].attempt, s.tasks[id].handle))
    ensures Inv(c, Fail(s.(table := Expire(s.table, s.tasks[id].handle)), id, s.tasks[id].attempt, s.tasks[id].handle))
  {
    var a, h := s.tasks[id].attempt, s.tasks[id].handle;
    var q := WireOf(s.log, h);
    Known(c, s, id);
    MoveLock(s.owner, s.tasks, id, Closing(a), s.owner);
    MoveTask(c, s.log, s.tasks, id, Closing(a));
    hide TableOk, LogOk, LockOk, TasksOk, EntriesOk, TaskOk, Findable;
    DropKeeps(s.table, s.log, h, s.abandoned);
    ExpireKeeps(Drop(s.table, q), s.log, h, s.abandoned);
    assert Drop(Expire(s.table, h), q) == Expire(Drop(s.table, q), h);
    assert OwnHandle(Fail(s, id, a, h)) == None;
  }

  /** The holder leaves with a future that is done. */
  lemma AnswerStep(c: Config, s: State, id: nat, pc: Pc)
    requires Inv(c, s) && id in s.tasks && HasFuture(s.tasks[id])
    requires s.tasks[id].handle < |s.table.futures| && !s.table.futures[s.tasks[id].handle].Waiting?
    requires !Holding(pc) && TaskOk(c, s.log, id, pc)
    ensures Inv(c, Leave(s, id, pc))
  {
    Known(c, s, id);
    MoveLock(s.owner, s.tasks, id, pc, None);
    hide TableOk, LogOk, LockOk, TasksOk, EntriesOk, TaskOk, Findable;
    AbandonKeeps(s.table, s.log, OwnHandle(s), s.abandoned);
    MoveTask(c, s.log, s.tasks, id, pc);
  }

  /** A reply that reached a future carries the number of that future. */
  lemma ReplyNumber(c: Config, s: State, h: nat)
    requires Inv(c, s) && h < |s.table.futures| && s.table.futures[h].Replied?
    ensures s.table.futures[h].frame.sequence == WireOf(s.log, h)
  {}

  lemma ResumeStep(c: Config, s: State, id: nat)
    requires Inv(c, s) && Enabled(c, s, Resume(id))
    ensures Inv(c, Apply(c, s, Resume(id)))
  {
    hide TableOk, LogOk, LockOk, TasksOk, EntriesOk, Findable;
    var h := s.tasks[id].handle;
    var o := s.table.futures[h];
    Known(c, s, id);
    if !o.Replied? {
      FailStep(c, s, id);
    } else {
      ReplyNumber(c, s, h);
      match c.decode(o.frame, s.table.session)
      case Ok(payload) => AnswerStep(c, s, id, Returned(h, o.frame, s.table.session, payload));
      case Err(error) => if Caught(error) { FailStep(c, s, id); } else { AnswerStep(c, s, id, Escaped); }
    }
  }

  lemma ClosedStep(c: Config, s: State, id: nat)
    requires Inv(c, s) && Enabled(c, s, Closed(id))
    ensures Inv(c, Apply(c, s, Closed(id)))
  {
    hide TableOk, LogOk, LockOk, TasksOk, EntriesOk;
    Known(c, s, id);
    TableStep(c, s, Disconnect);
    HolderStep(c, Apply(c, s, Disconnect), id, Sleeping(s.tasks[id].attempt));
  }

  /** What a cancellation does to the requests and to the count of those left behind. */
  lemma CancelTable(s: State, id: nat, h: nat)
    requires TableOk(s.table, s.log) && EntriesOk(s.table, s.log, Some(h), s.abandoned)
    requires id in s.tasks && HasFuture(s.tasks[id]) && s.tasks[id].handle == h
    ensures var n := s.abandoned + if Outstanding(s, id) then 1 else 0;
            && TableOk(s.table, s.log) && EntriesOk(s.table, s.log, None, n)
            && TableOk(Expire(s.table, h), s.log) && EntriesOk(Expire(s.table, h), s.log, None, n)
  {
    AbandonKeeps(s.table, s.log, Some(h), s.abandoned);
    hide TableOk, Findable;
    ExpireKeeps(s.table, s.log, h, s.abandoned + if Outstanding(s, id) then 1 else 0);
  }

  lemma CancelStep(c: Config, s: State, id: nat)
    requires Inv(c, s) && Enabled(c, s, Cancel(id))
    ensures Inv(c, Apply(c, s, Cancel(id)))
  {
    hide TableOk, LogOk, LockOk, TasksOk, EntriesOk, Findable, Expire, Outstanding, TaskOk;
    Known(c, s, id);
    assert TaskOk(c, s.log, id, Dropped) by { DroppedOk(c, s.log, id); }
    MoveTask(c, s.log, s.tasks, id, Dropped);
    MoveLock(s.owner, s.tasks, id, Dropped, if Holding(s.tasks[id]) then None else s.owner);
    if HasFuture(s.tasks[id]) {
      CancelTable(s, id, s.tasks[id].handle);
    } else {
      NotOutstanding(s, id);
    }
  }

  lemma DroppedOk(c: Config, log: seq<Issue>, id: nat)
    ensures TaskOk(c, log, id, Dropped)
  {}

  lemma NotOutstanding(s: State, id: nat)
    requires id in s.tasks && !HasFuture(s.tasks[id])
    ensures !Outstanding(s, id)
  {}

  lemma StepKeeps(c: Config, s: State, step: Step)
    requires Inv(c, s) && Enabled(c, s, step)
    ensures Inv(c, Apply(c, s, step))
  {
    match step
    case RegisterNext(id) => RegisterStep(c, s, id);
    case WriteFails(id) => FailStep(c, s, id);
    case TimeOut(id) => FailStep(c, s, id);
    case Resume(id) => ResumeStep(c, s, id);
    case Closed(id) => ClosedStep(c, s, id);
    case Cancel(id) => CancelStep(c, s, id);
    case Receive(_) => TableStep(c, s, step);
    case ReaderFails => TableStep(c, s, step);
    case Disconnect => TableStep(c, s, step);
    case Spend(_) => TableStep(c, s, step);
    case Connect(_, _) => TableStep(c, s, step);
    case Arrive(id) => ArriveStep(c, s, id);
    case Acquire(id) => AcquireStep(c, s, id);
    case Written(id) => WrittenStep(c, s, id);
    case Retry(id) => RetryStep(c, s, id);
    case ConnectFails(id, error) => ConnectFailsStep(c, s, id, error);
  }

  lemma {:induction false} RunKeeps(c: Config, steps: seq<Step>)
    ensures Inv(c, Run(c, steps))
  {
    if steps != [] {
      var last := |steps| - 1;
      RunKeeps(c, steps[..last]);
      var s := Run(c, steps[..last]);
      if Enabled(c, s, steps[last]) { StepKeeps(c, s, steps[last]); }
    }
  }

  // ---- what holds in every run ----

  /** An exchange that returns does so with the decode of a frame that carries
      exactly the sequence number allocated by its own latest attempt. */
  lemma ExchangeAnswersItself(c: Config, steps: seq<Step>, id: nat)
    requires id in Run(c, steps).tasks && Run(c, steps).tasks[id].Returned?
    ensures var s := Run(c, steps);
            var r := s.tasks[id];
            && Latest(s.log, id, r.handle)
            && r.frame.sequence == WireNumber(s.log[r.handle].number)
            && c.decode(r.frame, r.session) == Ok(r.payload)
  {
    RunKeeps(c, steps);
    assert TaskOk(c, Run(c, steps).log, id, Run(c, steps).tasks[id]);
  }

  lemma NumberInRange(c: Config, s: State, h: nat)
    requires Inv(c, s) && h < |s.log|
    ensures 1 <= s.log[h].number <= s.table.issued
  {}

  /** Up to 2^32 allocations, a frame that answers any other allocation - of an
      earlier attempt, another exchange or an earlier connection - completes
      no exchange. */
  lemma NoLateReply(c: Config, steps: seq<Step>, id: nat, answered: nat)
    requires id in Run(c, steps).tasks && Run(c, steps).tasks[id].Returned?
    requires Run(c, steps).table.issued <= WORD
    requires 1 <= answered <= Run(c, steps).table.issued
    requires Run(c, steps).tasks[id].frame.sequence == WireNumber(answered)
    ensures var s := Run(c, steps);
            var h := s.tasks[id].handle;
            h < |s.log| && s.log[h].task == id && answered == s.log[h].number
  {
    hide Run, Inv;
    ExchangeAnswersItself(c, steps, id);
    var s := Run(c, steps);
    var own := s.log[s.tasks[id].handle].number;
    RunKeeps(c, steps);
    NumberInRange(c, s, s.tasks[id].handle);
    if answered <= own { WireNumberClash(answered, own); } else { WireNumberClash(own, answered); }
  }

  /** No waiter is lost: a future that an exchange still waits for is in the
      table under its own number, unless it is done already. */
  lemma NoWaiterLost(c: Config, steps: seq<Step>, id: nat)
    requires id in Run(c, steps).tasks && HasFuture(Run(c, steps).tasks[id])
    ensures var s := Run(c, steps);
            var h := s.tasks[id].handle;
            var q := WireOf(s.log, h);
            && s.owner == Some(id) && h < |s.table.futures|
            && (s.table.futures[h].Waiting? <==> q in s.table.pending)
            && (q in s.table.pending ==> s.table.pending[q] == h)
  {
    RunKeeps(c, steps);
    Known(c, Run(c, steps), id);
  }

  /** The table never holds more than one entry beyond those that cancelled
      exchanges left behind; if none was, an entry means that the lock is held
      by the exchange that waits for it. */
  lemma AtMostOneEntry(c: Config, steps: seq<Step>)
    ensures var s := Run(c, steps);
            && |s.table.pending| <= s.abandoned + 1
            && (s.abandoned == 0 ==> s.table.pending.Keys <= OwnKeys(s.log, OwnHandle(s)))
            && (s.abandoned == 0 && s.table.pending != map[] ==> s.owner.Some? && HasFuture(s.tasks[s.owner.value]))
  {
    RunKeeps(c, steps);
    var s := Run(c, steps);
    var keys, own := s.table.pending.Keys, OwnKeys(s.log, OwnHandle(s));
    assert |own| <= 1;
    SubsetSize(keys, (keys - own) + own);
    assert |s.table.pending| == |keys|;
    if s.abandoned == 0 { assert keys - own == {}; }
    if keys == {} { assert s.table.pending == map[]; }
  }

  /** A disconnect, or a failure of the reader, leaves the table empty and the
      future of every waiting exchange done. */
  lemma ClosingWakesEveryone(c: Config, steps: seq<Step>, closing: Step)
    requires closing == Disconnect || closing == ReaderFails
    ensures var s := Run(c, steps + [closing]);
            && s.table.pending == map[]
            && forall id :: id in s.tasks && HasFuture(s.tasks[id]) ==>
                 s.tasks[id].handle < |s.table.futures| && !s.table.futures[s.tasks[id].handle].Waiting?
  {
    hide Run, TableOk, LogOk, LockOk, TasksOk, EntriesOk, FailAll;
    Extend(c, steps, closing);
    FailAllSettles(Run(c, steps).table);
    var s := Run(c, steps + [closing]);
    RunKeeps(c, steps + [closing]);
    forall id | id in s.tasks && HasFuture(s.tasks[id])
      ensures s.tasks[id].handle < |s.table.futures| && !s.table.futures[s.tasks[id].handle].Waiting?
    {
      Known(c, s, id);
    }
  }

  lemma Extend(c: Config, steps: seq<Step>, step: Step)
    ensures Run(c, steps + [step]) == if Enabled(c, Run(c, steps), step) then Apply(c, Run(c, steps), step)
              else Run(c, steps)
  {
    assert (steps + [step])[..|steps|] == steps;
  }

  /** How many requests a call has put on the wire. */
  function Issued(log: seq<Issue>, id: nat): nat {
    if log == [] then 0
    else Issued(log[..|log| - 1], id) + if log[|log| - 1].task == id then 1 else 0
  }

  lemma {:induction false} IssuedWithin(c: Config, log: seq<Issue>, id: nat, bound: nat)
    requires LogOk(c, log) && IssuedBelow(log, id, bound)
    ensures Issued(log, id) <= bound
  {
    if log != [] {
      var front, last := log[..|log| - 1], log[|log| - 1];
      if last.task == id {
        IssuedWithin(c, front, id, last.attempt);
      } else {
        IssuedWithin(c, front, id, bound);
      }
    }
  }

  /** A call writes at most once more than it may retry. */
  lemma WritesBounded(c: Config, steps: seq<Step>, id: nat)
    ensures Issued(Run(c, steps).log, id) <= c.retries + 1
  {
    RunKeeps(c, steps);
    IssuedWithin(c, Run(c, steps).log, id, c.retries + 1);
  }

  // ---- why the hypotheses are there ----

  /** One more step of a concrete run. */
  lemma Next(c: Config, steps: seq<Step>, step: Step, s: State, s': State)
    requires Run(c, steps) == s && Enabled(c, s, step) && Apply(c, s, step) == s'
    ensures Run(c, steps + [step]) == s'
  {
    hide Enabled, Apply;
    Extend(c, steps, step);
  }

  /** An exchange that has written its first request and waits for the reply. */
  const ASKED: seq<Step> := [] + [Arrive(0)] + [Acquire(0)] + [Connect(0, None)] + [RegisterNext(0)] + [Written(0)]

  const FIRST := Issue(1, 1, 0, 0)

  lemma Asked(c: Config)
    ensures Run(c, ASKED) == State(Table(1, map[1 := 0], [Waiting], true, None), [FIRST], Some(0),
              map[0 := Awaiting(0, 0)], 0)
  {
    assert Run(c, []) == INITIAL;
    hide Run;
    assert WireNumber(1) == 1 && [] + [FIRST] == [FIRST] && [] + [Waiting] == [Waiting];
    var s1 := INITIAL.(tasks := map[0 := Queued]);
    var s2 := s1.(tasks := map[0 := Ready(0)], owner := Some(0));
    var s3 := s2.(table := s2.table.(connected := true));
    var s4 := State(Table(1, map[1 := 0], [Waiting], true, None), [FIRST], Some(0), map[0 := Writing(0, 0)], 0);
    Next(c, [], Arrive(0), INITIAL, s1);
    Next(c, [] + [Arrive(0)], Acquire(0), s1, s2);
    Next(c, [] + [Arrive(0)] + [Acquire(0)], Connect(0, None), s2, s3);
    Next(c, [] + [Arrive(0)] + [Acquire(0)] + [Connect(0, None)], RegisterNext(0), s3, s4);
    Next(c, [] + [Arrive(0)] + [Acquire(0)] + [Connect(0, None)] + [RegisterNext(0)], Written(0), s4,
         s4.(tasks := map[0 := Awaiting(0, 0)]));
  }

  /** Cancelling an exchange frees the lock and leaves the table as it is.  So
      its own entry stays behind exactly if the reply was still outstanding; and
      if no earlier cancellation left one, that is the only way for the table to
      hold an entry with no exchange to wait for it. */
  lemma CancelledEntryStays(c: Config, steps: seq<Step>, id: nat)
    requires id in Run(c, steps).tasks && Holding(Run(c, steps).tasks[id])
    ensures var s, t := Run(c, steps), Run(c, steps + [Cancel(id)]);
            && t.owner == None && t.table.pending == s.table.pending
            && (HasFuture(s.tasks[id]) ==>
                 (WireOf(s.log, s.tasks[id].handle) in t.table.pending <==> Outstanding(s, id)))
            && (s.abandoned == 0 ==> (t.table.pending != map[] <==> Outstanding(s, id)))
  {
    hide Run, TableOk, LogOk, LockOk, TasksOk, EntriesOk;
    var s := Run(c, steps);
    Extend(c, steps, Cancel(id));
    RunKeeps(c, steps);
    Known(c, s, id);
    AtMostOneEntry(c, steps);
  }

  /** The attempt timed out and its connection closed. */
  const CLOSED: seq<Step> := ASKED + [TimeOut(0)] + [Closed(0)] + [Retry(0)]

  lemma ClosedAttempt(c: Config)
    requires c.retries > 0
    ensures Run(c, CLOSED) == State(Table(1, map[], [Cancelled], false, None), [FIRST], Some(0), map[0 := Ready(1)], 0)
  {
    hide Run;
    Asked(c);
    var s := State(Table(1, map[1 := 0], [Waiting], true, None), [FIRST], Some(0), map[0 := Awaiting(0, 0)], 0);
    var s1 := State(Table(1, map[], [Cancelled], true, None), [FIRST], Some(0), map[0 := Closing(0)], 0);
    var s2 := State(Table(1, map[], [Cancelled], false, None), [FIRST], Some(0), map[0 := Sleeping(0)], 0);
    Next(c, ASKED, TimeOut(0), s, s1);
    Next(c, ASKED + [TimeOut(0)], Closed(0), s1, s2);
    Next(c, ASKED + [TimeOut(0)] + [Closed(0)], Retry(0), s2, s2.(tasks := map[0 := Ready(1)]));
  }

  /** 2^32 - 1 handshake numbers later the second attempt waits under number 1 again. */
  const WRAPPED: seq<Step> := CLOSED + [Spend(WORD - 1)] + [Connect(0, None)] + [RegisterNext(0)] + [Written(0)]

  lemma WrappedAttempt(c: Config)
    requires c.retries > 0
    ensures Run(c, WRAPPED) == State(Table(WORD + 1, map[1 := 1], [Cancelled, Waiting], true, None),
                                     [FIRST, Issue(WORD + 1, 1, 0, 1)], Some(0), map[0 := Awaiting(1, 1)], 0)
  {
    hide Run;
    ClosedAttempt(c);
    var s := State(Table(1, map[], [Cancelled], false, None), [FIRST], Some(0), map[0 := Ready(1)], 0);
    var s1 := s.(table := s.table.(issued := WORD));
    var s2 := s1.(table := s1.table.(connected := true));
    var s3 := State(Table(WORD + 1, map[1 := 1], [Cancelled, Waiting], true, None),
                    [FIRST, Issue(WORD + 1, 1, 0, 1)], Some(0), map[0 := Writing(1, 1)], 0);
    Next(c, CLOSED, Spend(WORD - 1), s, s1);
    Next(c, CLOSED + [Spend(WORD - 1)], Connect(0, None), s1, s2);
    assert WireNumber(WORD + 1) == 1;
    Next(c, CLOSED + [Spend(WORD - 1)] + [Connect(0, None)], RegisterNext(0), s2, s3);
    Next(c, CLOSED + [Spend(WORD - 1)] + [Connect(0, None)] + [RegisterNext(0)], Written(0), s3,
      s3.(tasks := map[0 := Awaiting(1, 1)]));
  }

  /** One allocation more and the bound fails: after 2^32 further allocations
      the late reply to the first attempt completes the second. */
  lemma LateReplyAfterWrap(c: Config, reply: Bytes, payload: Bytes)
    requires c.retries > 0 && c.decode(Frame(1, 10, reply), None) == Ok(payload)
    ensures var s := Run(c, WRAPPED + [Receive(Frame(1, 10, reply))] + [Resume(0)]);
            && 0 in s.tasks && s.tasks[0] == Returned(1, Frame(1, 10, reply), None, payload)
            && |s.log| == 2 && s.log[1].number == WORD + 1
  {
    hide Run;
    WrappedAttempt(c);
    Extend(c, WRAPPED, Receive(Frame(1, 10, reply)));
    Extend(c, WRAPPED + [Receive(Frame(1, 10, reply))], Resume(0));
  }
}
