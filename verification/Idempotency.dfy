/** Idempotency leases: `run` over one table of rows, with the steps of any number of callers, clock ticks and crashes
    interleaved between the SQL statements. */
module Idempotency {
  import opened Basics

  const DAY_MS: nat := 86_400_000

  datatype Key = Key(scope: string, key: string)

  datatype RowState = Processing | Completed(response: string)

  datatype Row = Row(digest: string, state: RowState, lease: nat, expires: int)

  datatype Result = Replayed(response: string) | Conflicted | Returned(response: string) | Failed | GaveUp

  /** Where a caller of `run` is. `now` is captured before the row is read, `at` when the operation returns, before the
      statement that completes the row. */
  datatype Pc =
    | Starting
    | Reading(now: int)
    | Clearing(now: int)
    | Inserting(now: int)
    | Operating(lease: nat)
    | Completing(lease: nat, response: string, at: int)
    | Releasing(lease: nat)
    | Polling
    | Done(result: Result)

  datatype Caller = Caller(key: Key, fingerprint: string, pc: Pc)

  /** One successful completion: the row it answered, and the time its expiry counts from. */
  datatype Written = Written(key: Key, digest: string, lease: nat, response: string, at: int)

  datatype Sys = Sys(rows: map<Key, Row>, callers: map<nat, Caller>, clock: int, nextLease: nat, log: seq<Written>)

  datatype Event =
    | Call(id: nat, key: Key, fingerprint: string)
    | Capture(id: nat)
    | Read(id: nat)
    | Clear(id: nat)
    | Insert(id: nat)
    | Succeed(id: nat, response: string)
    | Throw(id: nat)
    | Complete(id: nat)
    | Release(id: nat)
    | Poll(id: nat)
    | StopPolling(id: nat)
    | Crash(id: nat)
    | Tick(ms: nat)

  const INITIAL := Sys(map[], map[], 0, 0, [])

  function Goto(s: Sys, id: nat, pc: Pc): Sys
  {
    if id in s.callers then s.(callers := s.callers[id := s.callers[id].(pc := pc)]) else s
  }

  /** What `begin` decides from the row it read. */
  function Decide(c: Caller, row: Option<Row>, now: int): Pc
  {
    if row.None? then Inserting(now)
    else if row.value.expires <= now then Clearing(now)
    else if row.value.digest != c.fingerprint then Done(Conflicted)
    else match row.value.state
      case Completed(response) => Done(Replayed(response))
      case Processing => Polling
  }

  function Lookup(s: Sys, k: Key): Option<Row>
  {
    if k in s.rows then Some(s.rows[k]) else None
  }

  predicate Holds(s: Sys, c: Caller, lease: nat)
  {
    c.key in s.rows && s.rows[c.key].digest == c.fingerprint && s.rows[c.key].lease == lease
  }

  function DoClear(s: Sys, id: nat, c: Caller, now: int): Sys
  {
    var cleared := if c.key in s.rows && s.rows[c.key].expires <= now then s.(rows := s.rows - {c.key}) else s;
    Goto(cleared, id, Inserting(now))
  }

  function DoInsert(s: Sys, leaseMs: nat, id: nat, c: Caller, now: int): Sys
  {
    if c.key in s.rows then Goto(s, id, Starting)
    else
      Goto(s.(rows := s.rows[c.key := Row(c.fingerprint, Processing, s.nextLease, now + leaseMs)],
              nextLease := s.nextLease + 1), id, Operating(s.nextLease))
  }

  function DoComplete(s: Sys, id: nat, c: Caller, lease: nat, response: string, at: int): Sys
  {
    if !Holds(s, c, lease) then Goto(s, id, Releasing(lease))
    else
      Goto(s.(rows := s.rows[c.key := s.rows[c.key].(state := Completed(response), expires := at + DAY_MS)],
              log := s.log + [Written(c.key, c.fingerprint, lease, response, at)]), id, Done(Returned(response)))
  }

  function DoRelease(s: Sys, id: nat, c: Caller, lease: nat): Sys
  {
    Goto(if Holds(s, c, lease) then s.(rows := s.rows - {c.key}) else s, id, Done(Failed))
  }

  function DoPoll(s: Sys, id: nat, c: Caller): Sys
  {
    if c.key !in s.rows then Goto(s, id, Done(GaveUp))
    else if s.rows[c.key].digest != c.fingerprint then Goto(s, id, Done(Conflicted))
    else match s.rows[c.key].state
      case Completed(response) => Goto(s, id, Done(Replayed(response)))
      case Processing => s
  }

  function StepCaller(s: Sys, leaseMs: nat, id: nat, c: Caller, e: Event): Sys
  {
    match (e, c.pc)
    case (Capture(_), Starting) => Goto(s, id, Reading(s.clock))
    case (Read(_), Reading(now)) => Goto(s, id, Decide(c, Lookup(s, c.key), now))
    case (Clear(_), Clearing(now)) => DoClear(s, id, c, now)
    case (Insert(_), Inserting(now)) => DoInsert(s, leaseMs, id, c, now)
    case (Succeed(_, response), Operating(lease)) => Goto(s, id, Completing(lease, response, s.clock))
    case (Throw(_), Operating(lease)) => Goto(s, id, Releasing(lease))
    case (Complete(_), Completing(lease, response, at)) => DoComplete(s, id, c, lease, response, at)
    case (Release(_), Releasing(lease)) => DoRelease(s, id, c, lease)
    case (Poll(_), Polling) => DoPoll(s, id, c)
    case (StopPolling(_), Polling) => Goto(s, id, Done(GaveUp))
    case (Crash(_), _) => s.(callers := s.callers - {id})
    case _ => s
  }

  function Step(s: Sys, leaseMs: nat, e: Event): Sys
  {
    match e
    case Call(id, k, fingerprint) =>
      if id in s.callers then s else s.(callers := s.callers[id := Caller(k, fingerprint, Starting)])
    case Tick(ms) => s.(clock := s.clock + ms)
    case _ => if e.id in s.callers then StepCaller(s, leaseMs, e.id, s.callers[e.id], e) else s
  }

  function ExecFrom(s: Sys, leaseMs: nat, events: seq<Event>): Sys
  {
    if events == [] then s
    else Step(ExecFrom(s, leaseMs, events[..|events| - 1]), leaseMs, events[|events| - 1])
  }

  function Exec(leaseMs: nat, events: seq<Event>): Sys
  {
    ExecFrom(INITIAL, leaseMs, events)
  }

  // ---------------------------------------------------------------------------------------------
  // Invariant
  // ---------------------------------------------------------------------------------------------

  /** The lease a caller still acts under. */
  function LeaseOf(pc: Pc): Option<nat>
  {
    match pc
    case Operating(lease) => Some(lease)
    case Completing(lease, _, _) => Some(lease)
    case Releasing(lease) => Some(lease)
    case _ => None
  }

  /** Times a caller has captured and still uses. */
  function TimeOf(pc: Pc): Option<int>
  {
    match pc
    case Reading(now) => Some(now)
    case Clearing(now) => Some(now)
    case Inserting(now) => Some(now)
    case Completing(_, _, at) => Some(at)
    case _ => None
  }

  ghost predicate Unused(log: seq<Written>, lease: nat)
  {
    forall i :: 0 <= i < |log| ==> log[i].lease != lease
  }

  ghost predicate RowOk(s: Sys, k: Key)
  {
    k in s.rows ==>
    var row := s.rows[k];
    && row.lease < s.nextLease
    && (row.state.Completed? ==>
          Written(k, row.digest, row.lease, row.state.response, row.expires - DAY_MS) in s.log)
    && (row.state.Processing? ==> Unused(s.log, row.lease))
  }

  /** A lease was never completed while its holder still acts, and any row under it is the holder's own. */
  ghost predicate LeaseOk(s: Sys, c: Caller, lease: nat)
  {
    && lease < s.nextLease
    && Unused(s.log, lease)
    && (forall k :: k in s.rows && s.rows[k].lease == lease ==> k == c.key && s.rows[k].digest == c.fingerprint)
  }

  /** Earlier completions of the key had expired when the holder's operation returned. */
  ghost predicate LateEnough(s: Sys, k: Key, at: int)
  {
    forall w :: w in s.log && w.key == k ==> w.at + DAY_MS <= at
  }

  ghost predicate Logged(s: Sys, c: Caller, response: string)
  {
    exists w :: w in s.log && w.key == c.key && w.digest == c.fingerprint && w.response == response
  }

  ghost predicate CallerOk(s: Sys, c: Caller)
  {
    && (TimeOf(c.pc).Some? ==> TimeOf(c.pc).value <= s.clock)
    && (LeaseOf(c.pc).Some? ==> LeaseOk(s, c, LeaseOf(c.pc).value))
    && (c.pc.Completing? && Holds(s, c, c.pc.lease) ==> LateEnough(s, c.key, c.pc.at))
    && (c.pc.Done? && c.pc.result.Replayed? ==> Logged(s, c, c.pc.result.response))
    && (c.pc.Done? && c.pc.result.Returned? ==> Logged(s, c, c.pc.result.response))
  }

  /** The row of a completion still holds its answer. */
  predicate Answers(s: Sys, w: Written)
  {
    w.key in s.rows && s.rows[w.key] == Row(w.digest, Completed(w.response), w.lease, w.at + DAY_MS)
  }

  /** No lease is completed twice. */
  ghost predicate LeasesOnce(log: seq<Written>)
  {
    forall i, j :: 0 <= i < j < |log| ==> log[i].lease != log[j].lease
  }

  /** Completions of one key are at least a day apart. */
  ghost predicate DayApart(log: seq<Written>)
  {
    forall i, j :: 0 <= i < j < |log| && log[i].key == log[j].key ==> log[i].at + DAY_MS <= log[j].at
  }

  ghost predicate EntriesPast(s: Sys)
  {
    forall w :: w in s.log ==> w.lease < s.nextLease && w.at <= s.clock
  }

  /** Every completion less than a day old is still in its row. */
  ghost predicate FreshAnswers(s: Sys)
  {
    forall w :: w in s.log && s.clock < w.at + DAY_MS ==> Answers(s, w)
  }

  ghost predicate LogOk(s: Sys)
  {
    LeasesOnce(s.log) && DayApart(s.log) && EntriesPast(s) && FreshAnswers(s)
  }

  ghost predicate RowsOk(s: Sys)
  {
    forall k :: k in s.rows ==> RowOk(s, k)
  }

  ghost predicate CallersOk(s: Sys)
  {
    forall id :: id in s.callers ==> CallerOk(s, s.callers[id])
  }

  /** No two callers act under one lease. */
  ghost predicate HoldersApart(s: Sys)
  {
    forall i, j :: i in s.callers && j in s.callers && i != j && LeaseOf(s.callers[i].pc).Some? ==>
      LeaseOf(s.callers[i].pc) != LeaseOf(s.callers[j].pc)
  }

  ghost predicate RowsApart(s: Sys)
  {
    forall a, b :: a in s.rows && b in s.rows && a != b ==> s.rows[a].lease != s.rows[b].lease
  }

  ghost predicate Invariant(s: Sys)
  {
    RowsOk(s) && CallersOk(s) && HoldersApart(s) && LogOk(s) && RowsApart(s)
  }

  // ---------------------------------------------------------------------------------------------
  // Every step keeps the invariant
  // ---------------------------------------------------------------------------------------------

  /** Nothing but the callers changed, and a caller's facts do not speak of other callers. */
  lemma SameStore(s: Sys, t: Sys)
    requires t.rows == s.rows && t.log == s.log && t.clock == s.clock && t.nextLease == s.nextLease
    requires RowsOk(s) && LogOk(s) && RowsApart(s)
    ensures RowsOk(t) && LogOk(t) && RowsApart(t)
    ensures forall c: Caller :: CallerOk(s, c) ==> CallerOk(t, c)
  {
    forall k | k in t.rows ensures RowOk(t, k) {
      assert RowOk(s, k);
    }
    forall w | w in t.log && t.clock < w.at + DAY_MS ensures Answers(t, w) {
      assert Answers(s, w);
    }
    forall c: Caller | CallerOk(s, c) ensures CallerOk(t, c) {
    }
  }

  lemma GotoKeeps(s: Sys, id: nat, pc: Pc)
    requires Invariant(s) && id in s.callers
    requires CallerOk(s, s.callers[id].(pc := pc))
    requires LeaseOf(pc).Some? ==> LeaseOf(pc) == LeaseOf(s.callers[id].pc)
    ensures Invariant(Goto(s, id, pc))
  {
    hide RowsOk, LogOk, CallerOk, RowsApart;
    SameStore(s, Goto(s, id, pc));
  }

  lemma ReadKeeps(s: Sys, id: nat, now: int)
    requires Invariant(s) && id in s.callers && s.callers[id].pc == Reading(now)
    ensures Invariant(Goto(s, id, Decide(s.callers[id], Lookup(s, s.callers[id].key), now)))
  {
    hide LogOk, RowsApart, HoldersApart;
    var c := s.callers[id];
    var pc := Decide(c, Lookup(s, c.key), now);
    assert CallerOk(s, c);
    if c.key in s.rows {
      assert RowOk(s, c.key);
    }
    assert CallerOk(s, c.(pc := pc));
    GotoKeeps(s, id, pc);
  }

  lemma PollKeeps(s: Sys, id: nat)
    requires Invariant(s) && id in s.callers && s.callers[id].pc == Polling
    ensures Invariant(DoPoll(s, id, s.callers[id]))
  {
    hide LogOk, RowsApart, HoldersApart, LeaseOk;
    var c := s.callers[id];
    if c.key !in s.rows {
      assert CallerOk(s, c.(pc := Done(GaveUp)));
      GotoKeeps(s, id, Done(GaveUp));
    } else if s.rows[c.key].digest != c.fingerprint {
      assert CallerOk(s, c.(pc := Done(Conflicted)));
      GotoKeeps(s, id, Done(Conflicted));
    } else if s.rows[c.key].state.Completed? {
      var response := s.rows[c.key].state.response;
      assert Logged(s, c.(pc := Done(Replayed(response))), response);
      assert CallerOk(s, c.(pc := Done(Replayed(response))));
      GotoKeeps(s, id, Done(Replayed(response)));
    }
  }

  /** Deleting a row that no unexpired completion relies on. */
  lemma DeleteKeeps(s: Sys, k: Key)
    requires Invariant(s) && k in s.rows
    requires s.rows[k].expires <= s.clock || Unused(s.log, s.rows[k].lease)
    ensures Invariant(s.(rows := s.rows - {k}))
  {
    var t := s.(rows := s.rows - {k});
    assert RowOk(s, k);
    forall w | w in t.log && t.clock < w.at + DAY_MS ensures Answers(t, w) {
      assert Answers(s, w);
    }
    forall i | i in t.callers ensures CallerOk(t, t.callers[i]) {
    }
    forall o | o in t.rows ensures RowOk(t, o) {
      assert RowOk(s, o);
    }
  }

  lemma ClearKeeps(s: Sys, id: nat, now: int)
    requires Invariant(s) && id in s.callers && s.callers[id].pc == Clearing(now)
    ensures Invariant(DoClear(s, id, s.callers[id], now))
  {
    hide LogOk, RowsApart, HoldersApart, RowsOk;
    var c := s.callers[id];
    assert CallerOk(s, c);
    var cleared := if c.key in s.rows && s.rows[c.key].expires <= now then s.(rows := s.rows - {c.key}) else s;
    if cleared != s {
      DeleteKeeps(s, c.key);
    }
    GotoKeeps(cleared, id, Inserting(now));
  }

  lemma ReleaseKeeps(s: Sys, id: nat, lease: nat)
    requires Invariant(s) && id in s.callers && s.callers[id].pc == Releasing(lease)
    ensures Invariant(DoRelease(s, id, s.callers[id], lease))
  {
    hide LogOk, RowsApart, HoldersApart, RowsOk;
    var c := s.callers[id];
    assert CallerOk(s, c);
    if Holds(s, c, lease) {
      DeleteKeeps(s, c.key);
      GotoKeeps(s.(rows := s.rows - {c.key}), id, Done(Failed));
    } else {
      GotoKeeps(s, id, Done(Failed));
    }
  }

  /** The store after a new lease is recorded under a key that had no row. */
  function WithRow(s: Sys, k: Key, row: Row): Sys
  {
    s.(rows := s.rows[k := row], nextLease := s.nextLease + 1)
  }

  lemma NewRowKeepsStore(s: Sys, k: Key, row: Row)
    requires Invariant(s) && k !in s.rows && row.lease == s.nextLease && row.state == Processing
    ensures RowsOk(WithRow(s, k, row)) && LogOk(WithRow(s, k, row)) && RowsApart(WithRow(s, k, row))
  {
    var t := WithRow(s, k, row);
    forall w | w in t.log && t.clock < w.at + DAY_MS ensures Answers(t, w) {
      assert Answers(s, w);
    }
    forall o | o in t.rows ensures RowOk(t, o) {
      if o != k {
        assert RowOk(s, o);
      }
    }
    forall o | o in t.rows && o != k ensures t.rows[o].lease < s.nextLease {
      assert RowOk(s, o);
    }
  }

  lemma NewRowKeepsCaller(s: Sys, k: Key, row: Row, c: Caller)
    requires k !in s.rows && row.lease == s.nextLease && CallerOk(s, c)
    ensures CallerOk(WithRow(s, k, row), c)
  {
  }

  lemma InsertKeeps(s: Sys, leaseMs: nat, id: nat, now: int)
    requires Invariant(s) && id in s.callers && s.callers[id].pc == Inserting(now)
    ensures Invariant(DoInsert(s, leaseMs, id, s.callers[id], now))
  {
    hide LogOk, RowsApart, CallerOk;
    var c := s.callers[id];
    if c.key in s.rows {
      assert CallerOk(s, c.(pc := Starting)) by { StartingIsOk(s, c); }
      GotoKeeps(s, id, Starting);
    } else {
      var row := Row(c.fingerprint, Processing, s.nextLease, now + leaseMs);
      var u := WithRow(s, c.key, row);
      var t := Goto(u, id, Operating(s.nextLease));
      NewRowKeepsStore(s, c.key, row);
      SameStore(u, t);
      forall i | i in t.callers ensures CallerOk(t, t.callers[i]) {
        if i == id {
          NewHolderIsOk(s, c, row);
        } else {
          NewRowKeepsCaller(s, c.key, row, s.callers[i]);
        }
      }
      assert HoldersApart(t) by { NewHolderIsApart(s, id, row); }
    }
  }

  lemma StartingIsOk(s: Sys, c: Caller)
    ensures CallerOk(s, c.(pc := Starting))
  {
  }

  lemma NewHolderIsOk(s: Sys, c: Caller, row: Row)
    requires Invariant(s) && c.key !in s.rows && row == Row(c.fingerprint, Processing, s.nextLease, row.expires)
    ensures CallerOk(WithRow(s, c.key, row), c.(pc := Operating(s.nextLease)))
  {
    hide CallersOk, HoldersApart;
    var t := WithRow(s, c.key, row);
    forall k | k in s.rows ensures s.rows[k].lease < s.nextLease {
      assert RowOk(s, k);
    }
  }

  lemma NewHolderIsApart(s: Sys, id: nat, row: Row)
    requires CallersOk(s) && HoldersApart(s) && id in s.callers
    ensures HoldersApart(Goto(WithRow(s, s.callers[id].key, row), id, Operating(s.nextLease)))
  {
    forall i | i in s.callers && LeaseOf(s.callers[i].pc).Some? ensures LeaseOf(s.callers[i].pc).value < s.nextLease {
      assert CallerOk(s, s.callers[i]);
    }
  }

  lemma CompletionKeepsLog(s: Sys, id: nat, lease: nat, response: string, at: int)
    requires Invariant(s) && id in s.callers && s.callers[id].pc == Completing(lease, response, at)
    requires Holds(s, s.callers[id], lease)
    ensures LogOk(DoComplete(s, id, s.callers[id], lease, response, at))
  {
    hide RowsOk, RowsApart, HoldersApart;
    var c := s.callers[id];
    var t := DoComplete(s, id, c, lease, response, at);
    assert CallerOk(s, c);
    var last := Written(c.key, c.fingerprint, lease, response, at);
    forall w | w in t.log && t.clock < w.at + DAY_MS ensures Answers(t, w) {
      if w != last {
        assert Answers(s, w);
        assert w.key != c.key;
      }
    }
    forall i, j | 0 <= i < j < |t.log| && t.log[i].key == t.log[j].key
      ensures t.log[i].at + DAY_MS <= t.log[j].at
    {
      if j == |s.log| {
        assert t.log[i] == s.log[i] && s.log[i] in s.log;
        assert LateEnough(s, c.key, at);
      }
    }
  }

  lemma CompleteKeeps(s: Sys, id: nat, lease: nat, response: string, at: int)
    requires Invariant(s) && id in s.callers && s.callers[id].pc == Completing(lease, response, at)
    ensures Invariant(DoComplete(s, id, s.callers[id], lease, response, at))
  {
    hide LogOk, CallerOk, RowOk;
    var c := s.callers[id];
    if Holds(s, c, lease) {
      CompletionKeepsLog(s, id, lease, response, at);
      var t := DoComplete(s, id, c, lease, response, at);
      forall i | i in t.callers ensures CallerOk(t, t.callers[i]) {
        CompletionKeepsCaller(s, id, lease, response, at, i);
      }
      forall k | k in t.rows ensures RowOk(t, k) {
        CompletionKeepsRow(s, id, lease, response, at, k);
      }
    } else {
      assert CallerOk(s, c.(pc := Releasing(lease))) by { LosingIsOk(s, c); }
      GotoKeeps(s, id, Releasing(lease));
    }
  }

  lemma LosingIsOk(s: Sys, c: Caller)
    requires c.pc.Completing? && CallerOk(s, c)
    ensures CallerOk(s, c.(pc := Releasing(c.pc.lease)))
  {
  }

  lemma CompletionKeepsRow(s: Sys, id: nat, lease: nat, response: string, at: int, k: Key)
    requires Invariant(s) && id in s.callers && s.callers[id].pc == Completing(lease, response, at)
    requires Holds(s, s.callers[id], lease) && k in s.rows
    ensures RowOk(DoComplete(s, id, s.callers[id], lease, response, at), k)
  {
    hide LogOk, HoldersApart, CallersOk;
    var c := s.callers[id];
    var t := DoComplete(s, id, c, lease, response, at);
    var last := Written(c.key, c.fingerprint, lease, response, at);
    assert RowOk(s, k);
    assert t.log[|s.log|] == last && last in t.log;
    forall w | w in s.log ensures w in t.log {
    }
  }

  lemma CompletionKeepsCaller(s: Sys, id: nat, lease: nat, response: string, at: int, i: nat)
    requires Invariant(s) && id in s.callers && s.callers[id].pc == Completing(lease, response, at)
    requires Holds(s, s.callers[id], lease) && i in s.callers
    ensures var t := DoComplete(s, id, s.callers[id], lease, response, at); CallerOk(t, t.callers[i])
  {
    hide LogOk, RowsOk, RowsApart;
    var c := s.callers[id];
    var t := DoComplete(s, id, c, lease, response, at);
    var last := Written(c.key, c.fingerprint, lease, response, at);
    var d := s.callers[i];
    assert CallerOk(s, d) && CallerOk(s, c);
    assert t.log[|s.log|] == last && last in t.log;
    forall w | w in s.log ensures w in t.log {
    }
    assert LeaseOf(c.pc) == Some(lease);
    if i != id {
      if LeaseOf(d.pc).Some? {
        assert LeaseOf(d.pc) != LeaseOf(c.pc);
        assert LeaseOk(t, d, LeaseOf(d.pc).value);
      }
    }
  }

  /** When a holder's operation returns, every earlier completion of its key has expired. */
  lemma SucceedKeeps(s: Sys, id: nat, response: string)
    requires Invariant(s) && id in s.callers && s.callers[id].pc.Operating?
    ensures Invariant(Goto(s, id, Completing(s.callers[id].pc.lease, response, s.clock)))
  {
    hide RowsOk, RowsApart, HoldersApart;
    var c := s.callers[id];
    assert CallerOk(s, c);
    var pc := Completing(c.pc.lease, response, s.clock);
    if Holds(s, c, c.pc.lease) {
      forall w | w in s.log && w.key == c.key ensures w.at + DAY_MS <= s.clock {
        assert w.lease != c.pc.lease;
        assert !Answers(s, w);
      }
    }
    GotoKeeps(s, id, pc);
  }

  lemma TickKeeps(s: Sys, ms: nat)
    requires Invariant(s)
    ensures Invariant(s.(clock := s.clock + ms))
  {
    var t := s.(clock := s.clock + ms);
    forall w | w in t.log && t.clock < w.at + DAY_MS ensures Answers(t, w) {
      assert Answers(s, w);
    }
    forall i | i in t.callers ensures CallerOk(t, t.callers[i]) {
    }
    forall k | k in t.rows ensures RowOk(t, k) {
      assert RowOk(s, k);
    }
  }

  lemma CallKeeps(s: Sys, id: nat, k: Key, fingerprint: string)
    requires Invariant(s) && id !in s.callers
    ensures Invariant(s.(callers := s.callers[id := Caller(k, fingerprint, Starting)]))
  {
    hide LogOk, RowsOk, RowsApart, CallerOk;
    var t := s.(callers := s.callers[id := Caller(k, fingerprint, Starting)]);
    SameStore(s, t);
    StartingIsOk(s, Caller(k, fingerprint, Starting));
  }

  lemma CrashKeeps(s: Sys, id: nat)
    requires Invariant(s)
    ensures Invariant(s.(callers := s.callers - {id}))
  {
    hide LogOk, RowsOk, RowsApart, CallerOk;
    SameStore(s, s.(callers := s.callers - {id}));
  }

  lemma SimpleMoveIsOk(s: Sys, c: Caller)
    requires CallerOk(s, c)
    ensures CallerOk(s, c.(pc := Reading(s.clock))) && CallerOk(s, c.(pc := Done(GaveUp)))
    ensures c.pc.Operating? ==> CallerOk(s, c.(pc := Releasing(c.pc.lease)))
  {
  }

  lemma StepCallerKeeps(s: Sys, leaseMs: nat, id: nat, e: Event)
    requires Invariant(s) && id in s.callers
    ensures Invariant(StepCaller(s, leaseMs, id, s.callers[id], e))
  {
    hide LogOk, RowsOk, RowsApart, HoldersApart, CallerOk, DoClear, DoInsert, DoComplete, DoRelease, DoPoll, Decide;
    var c := s.callers[id];
    SimpleMoveIsOk(s, c);
    match (e, c.pc)
    case (Capture(_), Starting) => GotoKeeps(s, id, Reading(s.clock));
    case (Read(_), Reading(now)) => ReadKeeps(s, id, now);
    case (Clear(_), Clearing(now)) => ClearKeeps(s, id, now);
    case (Insert(_), Inserting(now)) => InsertKeeps(s, leaseMs, id, now);
    case (Succeed(_, response), Operating(_)) => SucceedKeeps(s, id, response);
    case (Throw(_), Operating(lease)) => GotoKeeps(s, id, Releasing(lease));
    case (Complete(_), Completing(lease, response, at)) => CompleteKeeps(s, id, lease, response, at);
    case (Release(_), Releasing(lease)) => ReleaseKeeps(s, id, lease);
    case (Poll(_), Polling) => PollKeeps(s, id);
    case (StopPolling(_), Polling) => GotoKeeps(s, id, Done(GaveUp));
    case (Crash(_), _) => CrashKeeps(s, id);
    case _ =>
  }

  lemma StepKeeps(s: Sys, leaseMs: nat, e: Event)
    requires Invariant(s)
    ensures Invariant(Step(s, leaseMs, e))
  {
    hide Invariant, StepCaller;
    match e
    case Call(id, k, fingerprint) =>
      if id !in s.callers {
        CallKeeps(s, id, k, fingerprint);
      }
    case Tick(ms) => TickKeeps(s, ms);
    case _ =>
      if e.id in s.callers {
        StepCallerKeeps(s, leaseMs, e.id, e);
      }
  }

  lemma {:induction false} RunKeeps(s: Sys, leaseMs: nat, events: seq<Event>)
    requires Invariant(s)
    ensures Invariant(ExecFrom(s, leaseMs, events))
  {
    hide Invariant, Step;
    if events != [] {
      RunKeeps(s, leaseMs, events[..|events| - 1]);
      StepKeeps(ExecFrom(s, leaseMs, events[..|events| - 1]), leaseMs, events[|events| - 1]);
    }
  }

  // ---------------------------------------------------------------------------------------------
  // What the leases guarantee
  // ---------------------------------------------------------------------------------------------

  /** Each row incarnation is answered at most once, answers to one key are at least a day apart, and every response a
      caller got was written for its own key and fingerprint. */
  lemma EachLeaseAnswersOnce(leaseMs: nat, events: seq<Event>)
    ensures var s := Exec(leaseMs, events);
            && (forall i, j :: 0 <= i < j < |s.log| ==> s.log[i].lease != s.log[j].lease)
            && (forall i, j :: 0 <= i < j < |s.log| && s.log[i].key == s.log[j].key ==>
                  s.log[i].at + DAY_MS <= s.log[j].at)
            && (forall id :: id in s.callers && s.callers[id].pc.Done? ==>
                  match s.callers[id].pc.result
                  case Replayed(response) => Logged(s, s.callers[id], response)
                  case Returned(response) => Logged(s, s.callers[id], response)
                  case _ => true)
  {
    hide Exec, RowsOk, RowsApart, HoldersApart;
    ReachableIsOk(leaseMs, events);
    var s := Exec(leaseMs, events);
    forall id | id in s.callers ensures CallerOk(s, s.callers[id]) {
    }
  }

  lemma ReachableIsOk(leaseMs: nat, events: seq<Event>)
    ensures Invariant(Exec(leaseMs, events))
  {
    hide ExecFrom;
    assert Invariant(INITIAL);
    RunKeeps(INITIAL, leaseMs, events);
  }

  /** The clock and the log only grow, leases are never reused, and a row appears only under a lease it had or a
      new one. */
  ghost predicate Onward(s: Sys, t: Sys)
  {
    && s.clock <= t.clock
    && s.nextLease <= t.nextLease
    && s.log <= t.log
    && (forall k :: k in t.rows && t.rows[k].lease < s.nextLease ==>
          k in s.rows && s.rows[k].lease == t.rows[k].lease && s.rows[k].digest == t.rows[k].digest)
    && (forall i :: |s.log| <= i < |t.log| && t.log[i].lease < s.nextLease ==>
          t.log[i].key in s.rows && s.rows[t.log[i].key].lease == t.log[i].lease)
  }

  lemma CallerStepIsOnward(s: Sys, leaseMs: nat, id: nat, e: Event)
    requires id in s.callers
    ensures Onward(s, StepCaller(s, leaseMs, id, s.callers[id], e))
  {
  }

  lemma StepIsOnward(s: Sys, leaseMs: nat, e: Event)
    ensures Onward(s, Step(s, leaseMs, e))
  {
    hide StepCaller;
    if !e.Call? && !e.Tick? && e.id in s.callers {
      CallerStepIsOnward(s, leaseMs, e.id, e);
    }
  }

  lemma {:induction false} RunIsOnward(s: Sys, leaseMs: nat, events: seq<Event>)
    ensures Onward(s, ExecFrom(s, leaseMs, events))
  {
    hide Step;
    if events != [] {
      var before := ExecFrom(s, leaseMs, events[..|events| - 1]);
      RunIsOnward(s, leaseMs, events[..|events| - 1]);
      StepIsOnward(before, leaseMs, events[|events| - 1]);
    }
  }

  /** Until it expires, nothing changes or deletes a completed row, whatever anyone does. */
  lemma CompletedRowIsStable(leaseMs: nat, events: seq<Event>, k: Key, more: seq<Event>)
    requires var s := Exec(leaseMs, events); k in s.rows && s.rows[k].state.Completed?
    requires var s := Exec(leaseMs, events); ExecFrom(s, leaseMs, more).clock < s.rows[k].expires
    ensures var s := Exec(leaseMs, events); Lookup(ExecFrom(s, leaseMs, more), k) == Some(s.rows[k])
  {
    hide Exec, ExecFrom;
    var s := Exec(leaseMs, events);
    var t := ExecFrom(s, leaseMs, more);
    ReachableIsOk(leaseMs, events);
    RunKeeps(s, leaseMs, more);
    RunIsOnward(s, leaseMs, more);
    assert RowOk(s, k);
    var row := s.rows[k];
    var w := Written(k, row.digest, row.lease, row.state.response, row.expires - DAY_MS);
    assert w in t.log;
    assert Answers(t, w);
  }

  /** A caller that can only be answered from a row, or refused. */
  predicate OnlyReads(c: Caller, row: Row)
  {
    || c.pc.Starting?
    || (c.pc.Reading? && row.state.Completed?)
    || (c.pc.Done? && row.state.Completed? &&
        c.pc.result == if c.fingerprint == row.digest then Replayed(row.state.response) else Conflicted)
  }

  /** Who calls after a key is completed replays its response when the fingerprint is the same and conflicts when it
      is another; until the row expires nobody new runs the operation. */
  lemma {:induction false} LateCallersOnlyReplay(leaseMs: nat, events: seq<Event>, k: Key, more: seq<Event>, id: nat)
    requires var s := Exec(leaseMs, events); k in s.rows && s.rows[k].state.Completed? && id !in s.callers
    requires var s := Exec(leaseMs, events); ExecFrom(s, leaseMs, more).clock < s.rows[k].expires
    ensures var s := Exec(leaseMs, events);
            var t := ExecFrom(s, leaseMs, more);
            id in t.callers && t.callers[id].key == k ==> OnlyReads(t.callers[id], s.rows[k])
  {
    hide Exec, Step, Invariant;
    var s := Exec(leaseMs, events);
    if more != [] {
      var before := ExecFrom(s, leaseMs, more[..|more| - 1]);
      var e := more[|more| - 1];
      var t := Step(before, leaseMs, e);
      assert t == ExecFrom(s, leaseMs, more);
      StepIsOnward(before, leaseMs, e);
      LateCallersOnlyReplay(leaseMs, events, k, more[..|more| - 1], id);
      CompletedRowIsStable(leaseMs, events, k, more[..|more| - 1]);
      ReachableIsOk(leaseMs, events);
      RunKeeps(s, leaseMs, more[..|more| - 1]);
      LateCallerStep(before, leaseMs, k, id, e);
    }
  }

  lemma LateCallerStep(s: Sys, leaseMs: nat, k: Key, id: nat, e: Event)
    requires Invariant(s) && k in s.rows && s.rows[k].state.Completed? && s.clock < s.rows[k].expires
    requires id in s.callers && s.callers[id].key == k ==> OnlyReads(s.callers[id], s.rows[k])
    ensures var t := Step(s, leaseMs, e);
            id in t.callers && t.callers[id].key == k ==> OnlyReads(t.callers[id], s.rows[k])
  {
    hide LogOk, RowsOk, RowsApart, HoldersApart;
    var t := Step(s, leaseMs, e);
    if id in s.callers {
      assert CallerOk(s, s.callers[id]);
    }
  }

  /** A holder whose row is gone or was taken over never gets it back: no later row has its lease, it writes no
      response, its `complete` fails, and its `release` leaves every row as it is. */
  lemma LostLeaseIsLostForGood(leaseMs: nat, events: seq<Event>, id: nat, more: seq<Event>, later: nat)
    requires var s := Exec(leaseMs, events);
             id in s.callers && LeaseOf(s.callers[id].pc).Some? && !Holds(s, s.callers[id], LeaseOf(s.callers[id].pc).value)
    ensures var s := Exec(leaseMs, events);
            var lease := LeaseOf(s.callers[id].pc).value;
            var t := ExecFrom(s, leaseMs, more);
            && (forall k :: k in t.rows ==> t.rows[k].lease != lease)
            && (forall w :: w in t.log ==> w.lease != lease)
            && (later in t.callers && LeaseOf(t.callers[later].pc) == Some(lease) ==>
                  var c := t.callers[later];
                  && (c.pc.Completing? ==> Step(t, leaseMs, Complete(later)) == Goto(t, later, Releasing(lease)))
                  && (c.pc.Releasing? ==> Step(t, leaseMs, Release(later)) == Goto(t, later, Done(Failed))))
  {
    hide Exec, ExecFrom;
    var s := Exec(leaseMs, events);
    var t := ExecFrom(s, leaseMs, more);
    ReachableIsOk(leaseMs, events);
    RunIsOnward(s, leaseMs, more);
    LostLeaseIsAbsent(s, t, id);
  }

  lemma LostLeaseIsAbsent(s: Sys, t: Sys, id: nat)
    requires Invariant(s) && Onward(s, t) && id in s.callers && LeaseOf(s.callers[id].pc).Some?
    requires !Holds(s, s.callers[id], LeaseOf(s.callers[id].pc).value)
    ensures var lease := LeaseOf(s.callers[id].pc).value;
            && (forall k :: k in t.rows ==> t.rows[k].lease != lease)
            && (forall w :: w in t.log ==> w.lease != lease)
  {
    hide LogOk, RowsOk, RowsApart, HoldersApart;
    var c := s.callers[id];
    var lease := LeaseOf(c.pc).value;
    assert LeaseOk(s, c, lease);
    forall i | 0 <= i < |t.log| ensures t.log[i].lease != lease {
      if i < |s.log| {
        assert t.log[i] == s.log[i];
      }
    }
  }
}
