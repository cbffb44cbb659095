/** While a lease runs it excludes everyone else: what holds between the insertion of a row and its expiry, told by
    the time the inserting caller captured and the length of a lease. */
module LeaseExclusion {
  import opened Basics
  import opened Idempotency

  /** Caller `id` is about to insert a row for its key, captured `now` before, and finds no row. */
  ghost predicate Inserts(s: Sys, id: nat, now: int)
  {
    id in s.callers && s.callers[id].pc == Inserting(now) && s.callers[id].key !in s.rows
  }

  /** The holder neither completes nor releases in these events. */
  ghost predicate HolderStill(events: seq<Event>, id: nat)
  {
    forall i :: 0 <= i < |events| ==> events[i] != Complete(id) && events[i] != Release(id)
  }

  /** Whoever operates on the key did so, as the same call, when the lease began; nobody else acts under the lease. */
  ghost predicate Excluded(start: Sys, s: Sys, k: Key, lease: nat, id: nat)
  {
    && lease < s.nextLease
    && (forall j :: j in s.callers && LeaseOf(s.callers[j].pc) == Some(lease) ==> j == id)
    && (forall j :: j in s.callers && s.callers[j].key == k && s.callers[j].pc.Operating? ==>
          j in start.callers && start.callers[j] == s.callers[j])
  }

  lemma ExclusionBegins(s: Sys, leaseMs: nat, id: nat, now: int)
    requires Invariant(s) && Inserts(s, id, now)
    ensures var t := Step(s, leaseMs, Insert(id));
            var c := s.callers[id];
            && Lookup(t, c.key) == Some(Row(c.fingerprint, Processing, s.nextLease, now + leaseMs))
            && Excluded(t, t, c.key, s.nextLease, id)
            && t.callers[id] == c.(pc := Operating(s.nextLease))
  {
    hide LogOk, RowsOk, RowsApart, HoldersApart;
    var t := Step(s, leaseMs, Insert(id));
    forall j | j in s.callers && j != id ensures LeaseOf(t.callers[j].pc) != Some(s.nextLease) {
      assert CallerOk(s, s.callers[j]);
    }
  }

  /** The store keeps a row that is not expired, under every statement but those of its own holder. */
  lemma CallerStepKeepsRow(s: Sys, leaseMs: nat, k: Key, row: Row, id: nat, j: nat, e: Event)
    requires Invariant(s) && Lookup(s, k) == Some(row) && s.clock < row.expires
    requires forall i :: i in s.callers && LeaseOf(s.callers[i].pc) == Some(row.lease) ==> i == id
    requires j in s.callers && e != Complete(id) && e != Release(id) && !e.Call? && !e.Tick? && e.id == j
    ensures Lookup(StepCaller(s, leaseMs, j, s.callers[j], e), k) == Some(row)
  {
    hide LogOk, RowsOk, RowsApart, HoldersApart, LeaseOk;
    var c := s.callers[j];
    assert CallerOk(s, c);
    if j != id {
      assert LeaseOf(c.pc) != Some(row.lease);
    }
  }

  lemma CallerStepKeepsOut(start: Sys, s: Sys, leaseMs: nat, k: Key, lease: nat, id: nat, j: nat, e: Event)
    requires k in s.rows && Excluded(start, s, k, lease, id) && j in s.callers
    ensures Excluded(start, StepCaller(s, leaseMs, j, s.callers[j], e), k, lease, id)
  {
    var t := StepCaller(s, leaseMs, j, s.callers[j], e);
    assert s.nextLease <= t.nextLease;
    assert t.callers.Keys <= s.callers.Keys;
    forall i | i in t.callers && LeaseOf(t.callers[i].pc) == Some(lease) ensures i == id {
      if i != j {
        assert t.callers[i] == s.callers[i];
      } else {
        MovedLease(s, leaseMs, j, e);
      }
    }
    forall i | i in t.callers && t.callers[i].key == k && t.callers[i].pc.Operating?
      ensures i in start.callers && start.callers[i] == t.callers[i]
    {
      if i != j {
        assert t.callers[i] == s.callers[i];
      } else {
        MovedLease(s, leaseMs, j, e);
      }
    }
  }

  /** A caller's own step gives it no lease but a new one, and lets it operate only by inserting where there was no
      row. */
  lemma MovedLease(s: Sys, leaseMs: nat, j: nat, e: Event)
    requires j in s.callers
    ensures var t := StepCaller(s, leaseMs, j, s.callers[j], e);
            j in t.callers ==>
              && t.callers[j].key == s.callers[j].key
              && (LeaseOf(t.callers[j].pc).Some? ==>
                    || LeaseOf(t.callers[j].pc) == LeaseOf(s.callers[j].pc)
                    || LeaseOf(t.callers[j].pc).value == s.nextLease)
              && (t.callers[j].pc.Operating? ==> t.callers[j] == s.callers[j] || s.callers[j].key !in s.rows)
  {
  }

  lemma ExclusionStep(start: Sys, s: Sys, leaseMs: nat, k: Key, row: Row, id: nat, e: Event)
    requires Invariant(s) && Lookup(s, k) == Some(row) && s.clock < row.expires
    requires Excluded(start, s, k, row.lease, id) && e != Complete(id) && e != Release(id)
    ensures Lookup(Step(s, leaseMs, e), k) == Some(row) && Excluded(start, Step(s, leaseMs, e), k, row.lease, id)
  {
    hide Invariant, StepCaller;
    if !e.Call? && !e.Tick? && e.id in s.callers {
      CallerStepKeepsRow(s, leaseMs, k, row, id, e.id, e);
      CallerStepKeepsOut(start, s, leaseMs, k, row.lease, id, e.id, e);
    }
  }

  /** From an insertion after a capture at `now` until the clock reaches `now + leaseMs`, as long as the holder neither
      completes nor releases, whatever all callers do and whoever crashes: the row stays as it was inserted, and no
      other caller of the key enters its operation. */
  lemma LeaseExcludesOthers(
    leaseMs: nat, events: seq<Event>, id: nat, now: int, more: seq<Event>, other: nat)
    requires Inserts(Exec(leaseMs, events), id, now) && HolderStill(more, id)
    requires ExecFrom(Step(Exec(leaseMs, events), leaseMs, Insert(id)), leaseMs, more).clock < now + leaseMs
    ensures var s := Exec(leaseMs, events);
            var c := s.callers[id];
            var t := ExecFrom(Step(s, leaseMs, Insert(id)), leaseMs, more);
            && Lookup(t, c.key) == Some(Row(c.fingerprint, Processing, s.nextLease, now + leaseMs))
            && (other != id && other in t.callers && t.callers[other].key == c.key && t.callers[other].pc.Operating? ==>
                  other in s.callers && s.callers[other] == t.callers[other])
  {
    hide Exec, Step, StepCaller;
    LeaseHolds(leaseMs, events, id, now, more);
    var s := Exec(leaseMs, events);
    if other != id {
      OthersStay(s, leaseMs, id, other);
    }
  }

  lemma OthersStay(s: Sys, leaseMs: nat, id: nat, other: nat)
    requires id in s.callers && s.callers[id].pc.Inserting? && other != id
    ensures var t := Step(s, leaseMs, Insert(id));
            (other in t.callers <==> other in s.callers) && (other in s.callers ==> t.callers[other] == s.callers[other])
  {
  }

  lemma {:induction false} LeaseHolds(leaseMs: nat, events: seq<Event>, id: nat, now: int, more: seq<Event>)
    requires Inserts(Exec(leaseMs, events), id, now) && HolderStill(more, id)
    requires ExecFrom(Step(Exec(leaseMs, events), leaseMs, Insert(id)), leaseMs, more).clock < now + leaseMs
    ensures var s := Exec(leaseMs, events);
            var c := s.callers[id];
            var start := Step(s, leaseMs, Insert(id));
            var t := ExecFrom(start, leaseMs, more);
            && Lookup(t, c.key) == Some(Row(c.fingerprint, Processing, s.nextLease, now + leaseMs))
            && Excluded(start, t, c.key, s.nextLease, id) && Invariant(t)
  {
    hide Exec, Step, Invariant, StepCaller, Excluded;
    var s := Exec(leaseMs, events);
    var c := s.callers[id];
    var start := Step(s, leaseMs, Insert(id));
    ReachableIsOk(leaseMs, events);
    StepKeeps(s, leaseMs, Insert(id));
    RunKeeps(start, leaseMs, more);
    if more == [] {
      ExclusionBegins(s, leaseMs, id, now);
    } else {
      var less := more[..|more| - 1];
      var before := ExecFrom(start, leaseMs, less);
      var e := more[|more| - 1];
      RunKeeps(start, leaseMs, less);
      assert ExecFrom(start, leaseMs, more) == Step(before, leaseMs, e);
      StepIsOnward(before, leaseMs, e);
      LeaseHolds(leaseMs, events, id, now, less);
      ExclusionStep(start, before, leaseMs, c.key, Row(c.fingerprint, Processing, s.nextLease, now + leaseMs), id, e);
    }
  }

  /** Where a caller may be that came while another one's lease runs: it waits when it brought the same fingerprint,
      and is in conflict when it brought another. */
  predicate WaitsOrConflicts(c: Caller, fingerprint: string)
  {
    || c.pc.Starting? || c.pc.Reading?
    || (c.fingerprint == fingerprint && (c.pc == Polling || c.pc == Done(GaveUp)))
    || (c.fingerprint != fingerprint && c.pc == Done(Conflicted))
  }

  /** A caller that comes in the meantime polls or conflicts, by its fingerprint, and its read decides which. */
  lemma {:induction false} NewcomersWait(
    leaseMs: nat, events: seq<Event>, id: nat, now: int, more: seq<Event>, other: nat)
    requires Inserts(Exec(leaseMs, events), id, now) && HolderStill(more, id)
    requires ExecFrom(Step(Exec(leaseMs, events), leaseMs, Insert(id)), leaseMs, more).clock < now + leaseMs
    requires other !in Exec(leaseMs, events).callers
    ensures var s := Exec(leaseMs, events);
            var c := s.callers[id];
            var t := ExecFrom(Step(s, leaseMs, Insert(id)), leaseMs, more);
            other in t.callers && t.callers[other].key == c.key ==> WaitsOrConflicts(t.callers[other], c.fingerprint)
  {
    hide Exec, Step, Invariant, StepCaller, Excluded, WaitsOrConflicts;
    var s := Exec(leaseMs, events);
    var c := s.callers[id];
    var start := Step(s, leaseMs, Insert(id));
    if more == [] {
      OthersStay(s, leaseMs, id, other);
    } else {
      var less := more[..|more| - 1];
      var before := ExecFrom(start, leaseMs, less);
      var e := more[|more| - 1];
      assert ExecFrom(start, leaseMs, more) == Step(before, leaseMs, e);
      StepIsOnward(before, leaseMs, e);
      NewcomersWait(leaseMs, events, id, now, less, other);
      LeaseHolds(leaseMs, events, id, now, less);
      NewcomerStep(before, leaseMs, c.key, other, e);
    }
  }

  lemma NewcomerStep(s: Sys, leaseMs: nat, k: Key, other: nat, e: Event)
    requires Invariant(s) && k in s.rows && s.rows[k].state == Processing && s.clock < s.rows[k].expires
    requires other in s.callers && s.callers[other].key == k ==>
               WaitsOrConflicts(s.callers[other], s.rows[k].digest)
    ensures var t := Step(s, leaseMs, e);
            other in t.callers && t.callers[other].key == k ==> WaitsOrConflicts(t.callers[other], s.rows[k].digest)
  {
    hide LogOk, RowsOk, RowsApart, HoldersApart;
    if other in s.callers {
      assert CallerOk(s, s.callers[other]);
    }
  }

  /** Whoever captured a time and reads the key while the lease runs polls with the same fingerprint and conflicts
      with another, also if it came before the lease began. */
  lemma ReadersWait(leaseMs: nat, events: seq<Event>, id: nat, now: int, more: seq<Event>, other: nat)
    requires Inserts(Exec(leaseMs, events), id, now) && HolderStill(more, id)
    requires ExecFrom(Step(Exec(leaseMs, events), leaseMs, Insert(id)), leaseMs, more).clock < now + leaseMs
    ensures var c := Exec(leaseMs, events).callers[id];
            var t := ExecFrom(Step(Exec(leaseMs, events), leaseMs, Insert(id)), leaseMs, more);
            other in t.callers && t.callers[other].key == c.key && t.callers[other].pc.Reading? ==>
              Step(t, leaseMs, Read(other)) ==
                Goto(t, other, if t.callers[other].fingerprint == c.fingerprint then Polling else Done(Conflicted))
  {
    hide Exec, ExecFrom, LogOk, RowsOk, RowsApart, HoldersApart, Excluded;
    var t := ExecFrom(Step(Exec(leaseMs, events), leaseMs, Insert(id)), leaseMs, more);
    LeaseHolds(leaseMs, events, id, now, more);
    if other in t.callers {
      assert CallerOk(t, t.callers[other]);
    }
  }

  /** A holder that returns in time is not refused: its response is stored for a day from its return and given to its
      caller. One that throws in time leaves its key free. No other key is touched. */
  lemma HolderSettlesInTime(leaseMs: nat, events: seq<Event>, id: nat, now: int, more: seq<Event>)
    requires Inserts(Exec(leaseMs, events), id, now) && HolderStill(more, id)
    requires ExecFrom(Step(Exec(leaseMs, events), leaseMs, Insert(id)), leaseMs, more).clock < now + leaseMs
    ensures var s := Exec(leaseMs, events);
            var c := s.callers[id];
            var t := ExecFrom(Step(s, leaseMs, Insert(id)), leaseMs, more);
            id in t.callers && LeaseOf(t.callers[id].pc) == Some(s.nextLease) ==>
              && (t.callers[id].pc.Completing? ==>
                    var u := Step(t, leaseMs, Complete(id));
                    && u.rows == t.rows[c.key := Row(c.fingerprint, Completed(t.callers[id].pc.response), s.nextLease,
                                                     t.callers[id].pc.at + DAY_MS)]
                    && u.callers[id].pc == Done(Returned(t.callers[id].pc.response)))
              && (t.callers[id].pc.Releasing? ==>
                    Step(t, leaseMs, Release(id)).rows == t.rows - {c.key})
  {
    hide Exec, ExecFrom, LogOk, RowsOk, RowsApart, HoldersApart, Excluded;
    var s := Exec(leaseMs, events);
    var t := ExecFrom(Step(s, leaseMs, Insert(id)), leaseMs, more);
    LeaseHolds(leaseMs, events, id, now, more);
    if id in t.callers && LeaseOf(t.callers[id].pc) == Some(s.nextLease) {
      assert CallerOk(t, t.callers[id]);
      assert LeaseOk(t, t.callers[id], s.nextLease);
    }
  }

  function Undisturbed(s: Sys, leaseMs: nat, id: nat): Sys
  {
    Step(Step(Step(s, leaseMs, Read(id)), leaseMs, Clear(id)), leaseMs, Insert(id))
  }

  /** A caller that reads undisturbed takes a key over exactly when the key has no row or one that expired at or before
      the time captured. It then holds a new row that runs for `leaseMs` from that time; otherwise it leaves every row
      as it was and replays, conflicts or polls. */
  lemma TakesOverExactly(s: Sys, leaseMs: nat, id: nat, now: int)
    requires id in s.callers && s.callers[id].pc == Reading(now)
    ensures var c := s.callers[id];
            var t := Undisturbed(s, leaseMs, id);
            && id in t.callers
            && (t.callers[id].pc.Operating? <==> c.key in s.rows ==> s.rows[c.key].expires <= now)
            && (t.callers[id].pc.Operating? ==>
                  && t.callers[id].pc.lease == s.nextLease < t.nextLease
                  && t.rows == s.rows[c.key := Row(c.fingerprint, Processing, s.nextLease, now + leaseMs)])
            && (!t.callers[id].pc.Operating? ==>
                  && t.rows == s.rows
                  && (t.callers[id].pc.Polling? <==>
                        s.rows[c.key].digest == c.fingerprint && s.rows[c.key].state == Processing)
                  && (t.callers[id].pc == Done(Conflicted) <==> s.rows[c.key].digest != c.fingerprint)
                  && (forall response :: t.callers[id].pc == Done(Replayed(response)) <==>
                        s.rows[c.key].digest == c.fingerprint && s.rows[c.key].state == Completed(response)))
  {
    var c := s.callers[id];
    var pc := Decide(c, Lookup(s, c.key), now);
    var first := Step(s, leaseMs, Read(id));
    assert first == Goto(s, id, pc);
    var second := Step(first, leaseMs, Clear(id));
    if pc.Clearing? {
      assert second == Goto(s.(rows := s.rows - {c.key}), id, Inserting(now));
    } else {
      assert second == first;
    }
  }

  /** A poll ends with the response once the row is completed, with a conflict when another request took the key over,
      gives up when the row is gone, and otherwise goes on. It changes no row. */
  lemma PollsAreAnswered(s: Sys, leaseMs: nat, id: nat)
    requires id in s.callers && s.callers[id].pc.Polling?
    ensures var c := s.callers[id];
            var t := Step(s, leaseMs, Poll(id));
            && t.rows == s.rows && id in t.callers
            && (t.callers[id].pc == Done(GaveUp) <==> c.key !in s.rows)
            && (t.callers[id].pc == Done(Conflicted) <==> c.key in s.rows && s.rows[c.key].digest != c.fingerprint)
            && (forall response :: t.callers[id].pc == Done(Replayed(response)) <==>
                  Lookup(s, c.key).Some? && s.rows[c.key].digest == c.fingerprint &&
                  s.rows[c.key].state == Completed(response))
            && (t.callers[id].pc.Polling? <==>
                  Lookup(s, c.key).Some? && s.rows[c.key].digest == c.fingerprint && s.rows[c.key].state == Processing)
  {
  }
}
