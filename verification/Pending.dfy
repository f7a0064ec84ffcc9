/** The driver's table of outstanding requests: the sequence counter, the
    `_pending` entries and the futures they hand out, with the connection flag
    and session key that are reset along with them.  Futures are handles into
    a sequence of outcomes. */
module Pending {
  import opened Common
  import opened Frames

  datatype Outcome = Waiting | Replied(frame: Frame) | Broken | Cancelled

  datatype Table = Table(
    /** numbers allocated so far; the counter field is this modulo 2^32 */
    issued: nat,
    pending: map<word, nat>,
    futures: seq<Outcome>,
    connected: bool,
    session: Option<Bytes>)

  /** `_sequence` after n allocations: `+ 1` and `& 0xFFFFFFFF` each time. */
  function WireNumber(n: nat): word { n % WORD }

  /** Two allocations share a wire number exactly when they are a multiple of
      2^32 apart. */
  lemma WireNumberClash(m: nat, n: nat)
    requires m <= n
    ensures WireNumber(m) == WireNumber(n) <==> (n - m) % WORD == 0
  {}

  function Allocate(t: Table, numbers: nat): Table { t.(issued := t.issued + numbers) }

  /** Take the next number and a new future, and enter them. */
  function Register(t: Table): Table {
    t.(issued := t.issued + 1,
       pending := t.pending[WireNumber(t.issued + 1) := |t.futures|],
       futures := t.futures + [Waiting])
  }

  /** A done future keeps its outcome. */
  function Settle(o: Outcome, settled: Outcome): Outcome { if o.Waiting? then settled else o }

  function SettleAt(futures: seq<Outcome>, h: nat, settled: Outcome): seq<Outcome> {
    if h < |futures| then futures[h := Settle(futures[h], settled)] else futures
  }

  /** The reader hands a frame to the entry with its sequence number, if any. */
  function Deliver(t: Table, f: Frame): Table {
    if f.sequence !in t.pending then t else
      t.(pending := t.pending - {f.sequence},
         futures := SettleAt(t.futures, t.pending[f.sequence], Replied(f)))
  }

  /** Break those of the given futures that are still waiting. */
  function BreakAll(futures: seq<Outcome>, handles: set<nat>): seq<Outcome> {
    seq(|futures|, h requires 0 <= h < |futures| => if h in handles then Settle(futures[h], Broken) else futures[h])
  }

  lemma BreakOneMore(futures: seq<Outcome>, handles: set<nat>, h: nat)
    ensures BreakAll(futures, handles + {h}) == SettleAt(BreakAll(futures, handles), h, Broken)
    ensures BreakAll(futures, {}) == futures
  {}

  /** Fail every entry that is still waiting, then empty the table. */
  function FailAll(t: Table): Table {
    t.(pending := map[], futures := BreakAll(t.futures, t.pending.Values))
  }

  /** `disconnect`, from the point where the reader task has ended. */
  function Close(t: Table): Table {
    FailAll(t).(connected := false, session := None)
  }

  function Drop(t: Table, q: word): Table { t.(pending := t.pending - {q}) }

  /** `wait_for` gives up: the future is cancelled unless it is done. */
  function Expire(t: Table, h: nat): Table { t.(futures := SettleAt(t.futures, h, Cancelled)) }

  /** After `disconnect` or a reader failure the table is empty and every
      future that was in it is done; no done future changed. */
  lemma FailAllSettles(t: Table)
    ensures FailAll(t).pending == map[] && Close(t).pending == map[]
    ensures |FailAll(t).futures| == |t.futures| && Close(t).futures == FailAll(t).futures
    ensures forall h :: 0 <= h < |t.futures| && (h in t.pending.Values || !t.futures[h].Waiting?) ==>
              !FailAll(t).futures[h].Waiting?
    ensures forall h :: 0 <= h < |t.futures| && (h !in t.pending.Values || !t.futures[h].Waiting?) ==>
              FailAll(t).futures[h] == t.futures[h]
  {}
}
