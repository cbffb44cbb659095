/** The in-process part of the agenda mutation lock: a chain of promises for each event, and the operation now active on
    it. Every section between two awaits is one atomic step. */
module AgendaLock {
  import opened Basics

  datatype EventId = EventId(text: string)

  /** Where a call of `runExclusive` is: it waits for the call before it, asks for admission, runs its operation, and
      closes its lease; `Ended` means its promise is released, whether it returned or threw. */
  datatype Stage = Waiting | Admitting | Running | Closing | Ended

  datatype Call = Call(event: EventId, previous: Option<nat>, stage: Stage)

  /** `calls` are in the order of the calls; a call's number stands for its promise and for its operation id. */
  datatype Lock = Lock(tails: map<EventId, nat>, active: map<EventId, nat>, calls: seq<Call>)

  datatype Step =
    | Enter(event: EventId)
    | Proceed(call: nat)
    | Admit(call: nat, ok: bool)
    | Settle(call: nat)
    | Close(call: nat)

  const FREE := Lock(map[], map[], [])

  function SetStage(s: Lock, n: nat, stage: Stage): Lock
  {
    if n < |s.calls| then s.(calls := s.calls[n := s.calls[n].(stage := stage)]) else s
  }

  function DoEnter(s: Lock, event: EventId): Lock
  {
    s.(tails := s.tails[event := |s.calls|],
       calls := s.calls + [Call(event, if event in s.tails then Some(s.tails[event]) else None, Waiting)])
  }

  predicate CanProceed(s: Lock, n: nat)
  {
    && n < |s.calls|
    && (s.calls[n].previous.Some? ==>
          s.calls[n].previous.value < |s.calls| && s.calls[s.calls[n].previous.value].stage.Ended?)
  }

  /** The `finally` block: releases the promise, and removes the tail if nobody queued up behind. */
  function Leave(s: Lock, n: nat, event: EventId): Lock
  {
    var t := SetStage(s, n, Ended);
    if event in t.tails && t.tails[event] == n then t.(tails := t.tails - {event}) else t
  }

  function DoAdmit(s: Lock, n: nat, event: EventId, ok: bool): Lock
  {
    if ok then SetStage(s.(active := s.active[event := n]), n, Running) else Leave(s, n, event)
  }

  function DoClose(s: Lock, n: nat, event: EventId): Lock
  {
    Leave(s.(active := s.active - {event}), n, event)
  }

  function Next(s: Lock, e: Step): Lock
  {
    if e.Enter? then DoEnter(s, e.event)
    else if e.call >= |s.calls| then s
    else
      var event := s.calls[e.call].event;
      match (e, s.calls[e.call].stage)
      case (Proceed(n), Waiting) => if CanProceed(s, n) then SetStage(s, n, Admitting) else s
      case (Admit(n, ok), Admitting) => DoAdmit(s, n, event, ok)
      case (Settle(n), Running) => SetStage(s, n, Closing)
      case (Close(n), Closing) => DoClose(s, n, event)
      case _ => s
  }

  function Run(steps: seq<Step>): Lock
  {
    if steps == [] then FREE else Next(Run(steps[..|steps| - 1]), steps[|steps| - 1])
  }

  /** `currentOperationId`; `None` where it throws. */
  function CurrentOperation(s: Lock, event: EventId): Option<nat>
  {
    if event in s.active then Some(s.active[event]) else None
  }

  // ---------------------------------------------------------------------------------------------
  // Invariant
  // ---------------------------------------------------------------------------------------------

  ghost predicate EarlierEnded(s: Lock, n: nat)
  {
    n < |s.calls| && forall m :: 0 <= m < n && s.calls[m].event == s.calls[n].event ==> s.calls[m].stage.Ended?
  }

  /** A call waits for the call right before it on its event; without one all earlier calls have ended. */
  ghost predicate Chained(s: Lock, n: nat)
  {
    n < |s.calls| &&
    var c := s.calls[n];
    if c.previous.Some? then
      && c.previous.value < n
      && s.calls[c.previous.value].event == c.event
      && forall m :: c.previous.value < m < n ==> s.calls[m].event != c.event
    else EarlierEnded(s, n)
  }

  ghost predicate TailOk(s: Lock, event: EventId)
  {
    if event in s.tails then
      && s.tails[event] < |s.calls|
      && s.calls[s.tails[event]].event == event
      && !s.calls[s.tails[event]].stage.Ended?
      && forall m :: s.tails[event] < m < |s.calls| ==> s.calls[m].event != event
    else forall m :: 0 <= m < |s.calls| && s.calls[m].event == event ==> s.calls[m].stage.Ended?
  }

  predicate IsActive(stage: Stage)
  {
    stage.Running? || stage.Closing?
  }

  ghost predicate ActiveOk(s: Lock)
  {
    && (forall event :: event in s.active ==>
          s.active[event] < |s.calls| && s.calls[s.active[event]].event == event && IsActive(s.calls[s.active[event]].stage))
    && (forall n :: 0 <= n < |s.calls| && IsActive(s.calls[n].stage) ==>
          s.calls[n].event in s.active && s.active[s.calls[n].event] == n)
  }

  ghost predicate Invariant(s: Lock)
  {
    && (forall n :: 0 <= n < |s.calls| ==> Chained(s, n))
    && (forall n :: 0 <= n < |s.calls| && !s.calls[n].stage.Waiting? ==> EarlierEnded(s, n))
    && (forall event :: TailOk(s, event))
    && ActiveOk(s)
  }

  lemma EnterKeeps(s: Lock, event: EventId)
    requires Invariant(s)
    ensures Invariant(DoEnter(s, event))
  {
    var t := DoEnter(s, event);
    assert TailOk(s, event);
    forall n | 0 <= n < |t.calls| ensures Chained(t, n) {
      assert n < |s.calls| ==> Chained(s, n);
    }
    forall n | 0 <= n < |t.calls| && !t.calls[n].stage.Waiting? ensures EarlierEnded(t, n) {
      assert EarlierEnded(s, n);
    }
    forall other ensures TailOk(t, other) {
      assert TailOk(s, other);
    }
  }

  lemma ProceedKeeps(s: Lock, n: nat)
    requires Invariant(s) && n < |s.calls| && s.calls[n].stage.Waiting? && CanProceed(s, n)
    ensures Invariant(SetStage(s, n, Admitting))
  {
    StageKeeps(s, n, Admitting);
    assert Chained(s, n);
    if s.calls[n].previous.Some? {
      assert EarlierEnded(s, s.calls[n].previous.value);
    }
  }

  /** Moving a call between stages that have not ended: chain and tails stay. */
  lemma StageKeeps(s: Lock, n: nat, stage: Stage)
    requires Invariant(s) && n < |s.calls| && !s.calls[n].stage.Ended? && !stage.Ended? && !stage.Waiting?
    ensures var t := SetStage(s, n, stage);
            && (forall m :: 0 <= m < |t.calls| ==> Chained(t, m))
            && (forall m :: 0 <= m < |t.calls| && m != n && !t.calls[m].stage.Waiting? ==> EarlierEnded(t, m))
            && (EarlierEnded(s, n) ==> EarlierEnded(t, n))
            && (forall event :: TailOk(t, event))
  {
    var t := SetStage(s, n, stage);
    forall m | 0 <= m < |t.calls| ensures Chained(t, m) {
      assert Chained(s, m);
    }
    forall m | 0 <= m < |t.calls| && m != n && !t.calls[m].stage.Waiting? ensures EarlierEnded(t, m) {
      assert EarlierEnded(s, m);
    }
    forall event ensures TailOk(t, event) {
      assert TailOk(s, event);
    }
  }

  /** A call that is not active leaves. */
  lemma LeaveKeeps(s: Lock, n: nat)
    requires n < |s.calls| && !s.calls[n].stage.Ended? && EarlierEnded(s, n)
    requires forall m :: 0 <= m < |s.calls| ==> Chained(s, m)
    requires forall m :: 0 <= m < |s.calls| && !s.calls[m].stage.Waiting? ==> EarlierEnded(s, m)
    requires forall event :: TailOk(s, event)
    ensures var t := Leave(s, n, s.calls[n].event);
            && (forall m :: 0 <= m < |t.calls| ==> Chained(t, m))
            && (forall m :: 0 <= m < |t.calls| && !t.calls[m].stage.Waiting? ==> EarlierEnded(t, m))
            && (forall event :: TailOk(t, event))
  {
    var t := Leave(s, n, s.calls[n].event);
    forall m | 0 <= m < |t.calls| ensures Chained(t, m) {
      assert Chained(s, m);
    }
    forall m | 0 <= m < |t.calls| && !t.calls[m].stage.Waiting? ensures EarlierEnded(t, m) {
      assert EarlierEnded(s, m);
    }
    forall event ensures TailOk(t, event) {
      assert TailOk(s, event);
    }
  }

  lemma AdmitKeeps(s: Lock, n: nat, ok: bool)
    requires Invariant(s) && n < |s.calls| && s.calls[n].stage.Admitting?
    ensures Invariant(DoAdmit(s, n, s.calls[n].event, ok))
  {
    hide Chained, TailOk, EarlierEnded;
    assert EarlierEnded(s, n);
    if ok {
      StageKeeps(s, n, Running);
      var t := SetStage(s, n, Running);
      var u := DoAdmit(s, n, s.calls[n].event, ok);
      OnlyActiveDiffers(t, u);
      NoneElseActive(s, n);
    } else {
      LeaveKeeps(s, n);
    }
  }

  lemma OnlyActiveDiffers(t: Lock, u: Lock)
    requires t.calls == u.calls && t.tails == u.tails
    ensures forall n :: 0 <= n < |t.calls| && Chained(t, n) ==> Chained(u, n)
    ensures forall n :: 0 <= n < |t.calls| && EarlierEnded(t, n) ==> EarlierEnded(u, n)
    ensures forall event :: TailOk(t, event) ==> TailOk(u, event)
  {
  }

  lemma NoneElseActive(s: Lock, n: nat)
    requires Invariant(s) && n < |s.calls| && !s.calls[n].stage.Waiting? && !s.calls[n].stage.Ended?
    ensures forall m :: 0 <= m < |s.calls| && m != n && s.calls[m].event == s.calls[n].event ==> !IsActive(s.calls[m].stage)
  {
    assert EarlierEnded(s, n);
    forall m | n < m < |s.calls| && s.calls[m].event == s.calls[n].event ensures s.calls[m].stage.Waiting? {
      assert !s.calls[m].stage.Waiting? ==> EarlierEnded(s, m);
    }
  }

  lemma CloseKeeps(s: Lock, n: nat)
    requires Invariant(s) && n < |s.calls| && s.calls[n].stage.Closing?
    ensures Invariant(DoClose(s, n, s.calls[n].event))
  {
    hide Chained, TailOk, EarlierEnded;
    var t := s.(active := s.active - {s.calls[n].event});
    OnlyActiveDiffers(s, t);
    LeaveKeeps(t, n);
    NoneElseActive(s, n);
  }

  lemma NextKeeps(s: Lock, e: Step)
    requires Invariant(s)
    ensures Invariant(Next(s, e))
  {
    hide Invariant, DoEnter, DoAdmit, DoClose;
    if e.Enter? {
      EnterKeeps(s, e.event);
    } else if e.call < |s.calls| {
      match (e, s.calls[e.call].stage)
      case (Proceed(n), Waiting) =>
        if CanProceed(s, n) {
          ProceedKeeps(s, n);
        }
      case (Admit(n, ok), Admitting) => AdmitKeeps(s, n, ok);
      case (Settle(n), Running) => SettleKeeps(s, n);
      case (Close(n), Closing) => CloseKeeps(s, n);
      case _ =>
    }
  }

  lemma SettleKeeps(s: Lock, n: nat)
    requires Invariant(s) && n < |s.calls| && s.calls[n].stage.Running?
    ensures Invariant(SetStage(s, n, Closing))
  {
    hide Chained, TailOk, EarlierEnded;
    StageKeeps(s, n, Closing);
  }

  lemma {:induction false} RunIsOk(steps: seq<Step>)
    ensures Invariant(Run(steps))
  {
    hide Next;
    if steps != [] {
      RunIsOk(steps[..|steps| - 1]);
      NextKeeps(Run(steps[..|steps| - 1]), steps[|steps| - 1]);
    }
  }

  // ---------------------------------------------------------------------------------------------
  // What the lock guarantees
  // ---------------------------------------------------------------------------------------------

  /** Operations of an event run one at a time, in the order of the calls: while a call is past its wait and not ended, all
      earlier calls of its event have ended and all later ones wait. */
  lemma OneAtATimeInOrder(steps: seq<Step>, n: nat, m: nat)
    requires n < |Run(steps).calls| && m < |Run(steps).calls| && m != n
    requires Run(steps).calls[m].event == Run(steps).calls[n].event
    requires !Run(steps).calls[n].stage.Waiting? && !Run(steps).calls[n].stage.Ended?
    ensures m < n ==> Run(steps).calls[m].stage.Ended?
    ensures m > n ==> Run(steps).calls[m].stage.Waiting?
  {
    hide Run;
    RunIsOk(steps);
    var s := Run(steps);
    assert EarlierEnded(s, n);
    assert m > n && !s.calls[m].stage.Waiting? ==> EarlierEnded(s, m);
  }

  /** Inside an operation the current operation is the call's own, whatever earlier calls did; outside all operations of an
      event there is none. */
  lemma CurrentOperationIsOwn(steps: seq<Step>, event: EventId, n: nat)
    ensures var s := Run(steps);
            CurrentOperation(s, event) == Some(n) <==>
            n < |s.calls| && s.calls[n].event == event && IsActive(s.calls[n].stage)
  {
    hide Run, Chained, TailOk, EarlierEnded;
    RunIsOk(steps);
  }

  /** An event has a tail exactly while some call on it has not ended, and the tail is the last such call. */
  lemma TailWhileUnreleased(steps: seq<Step>, event: EventId)
    ensures var s := Run(steps);
            && (event in s.tails <==> exists n :: 0 <= n < |s.calls| && s.calls[n].event == event && !s.calls[n].stage.Ended?)
            && (event in s.tails ==>
                  && s.tails[event] < |s.calls|
                  && !s.calls[s.tails[event]].stage.Ended?
                  && forall m :: s.tails[event] < m < |s.calls| ==> s.calls[m].event != event)
  {
    hide Run, Chained, EarlierEnded, ActiveOk;
    RunIsOk(steps);
    assert TailOk(Run(steps), event);
  }

  /** The first call of an event that has not ended is never stuck behind another. */
  lemma FirstIsNotBlocked(steps: seq<Step>, n: nat)
    requires n < |Run(steps).calls| && EarlierEnded(Run(steps), n) && Run(steps).calls[n].stage.Waiting?
    ensures CanProceed(Run(steps), n)
  {
    hide Run, TailOk, ActiveOk;
    RunIsOk(steps);
    assert Chained(Run(steps), n);
  }

  lemma TailMeans(s: Lock, event: EventId)
    requires Invariant(s)
    ensures event in s.tails <==> exists n :: 0 <= n < |s.calls| && s.calls[n].event == event && !s.calls[n].stage.Ended?
  {
    hide Chained, EarlierEnded, ActiveOk;
    assert TailOk(s, event);
  }

  /** A call that just entered may proceed at once exactly when all calls of its event before it have ended. */
  lemma EnteredWaits(s: Lock, event: EventId)
    requires Invariant(s)
    ensures CanProceed(DoEnter(s, event), |s.calls|) <==> EarlierEnded(DoEnter(s, event), |s.calls|)
  {
    hide Chained, ActiveOk;
    assert TailOk(s, event);
  }

  // ---------------------------------------------------------------------------------------------
  // The lock object
  // ---------------------------------------------------------------------------------------------

  /** The two maps of the lock, changed in place between the awaits of `runExclusive`. `calls` records the promises. */
  class AgendaMutationLock {
    var tails: map<EventId, nat>
    var activeOperations: map<EventId, nat>
    var calls: seq<Call>

    constructor ()
      ensures State() == FREE && Invariant(State())
    {
      tails := map[];
      activeOperations := map[];
      calls := [];
    }

    function State(): Lock
      reads this
    {
      Lock(tails, activeOperations, calls)
    }

    /** `runExclusive` up to `await previous`: the call queues up behind the last call of the event that has not ended. */
    method EnterQueue(event: EventId) returns (call: nat)
      requires Invariant(State())
      modifies this
      ensures State() == DoEnter(old(State()), event) && Invariant(State())
      ensures call == |old(calls)| && tails == old(tails)[event := call]
      ensures calls[call].stage.Waiting? && (CanProceed(State(), call) <==> EarlierEnded(State(), call))
    {
      hide Invariant, Chained, TailOk, ActiveOk;
      ghost var before := State();
      EnterKeeps(before, event);
      EnteredWaits(before, event);
      var previous := None;
      if event in tails {
        previous := Some(tails[event]);
      }
      call := |calls|;
      calls := calls + [Call(event, previous, Waiting)];
      tails := tails[event := call];
    }

    /** From the end of the wait to the request for admission. */
    method Proceed(call: nat)
      requires Invariant(State()) && call < |calls| && calls[call].stage.Waiting? && CanProceed(State(), call)
      modifies this`calls
      ensures State() == SetStage(old(State()), call, Admitting) && Invariant(State())
    {
      hide Invariant, CanProceed;
      ProceedKeeps(State(), call);
      calls := calls[call := calls[call].(stage := Admitting)];
    }

    /** From the coordinator's answer to the start of the operation, or to the end of the call. */
    method Admitted(call: nat, ok: bool)
      requires Invariant(State()) && call < |calls| && calls[call].stage.Admitting?
      modifies this
      ensures State() == DoAdmit(old(State()), call, old(calls)[call].event, ok) && Invariant(State())
      ensures ok ==> calls[call].stage.Running? && CurrentOperation(State(), calls[call].event) == Some(call)
      ensures !ok ==> calls[call].stage.Ended? && activeOperations == old(activeOperations)
    {
      hide Invariant;
      AdmitKeeps(State(), call, ok);
      if ok {
        activeOperations := activeOperations[calls[call].event := call];
        calls := calls[call := calls[call].(stage := Running)];
      } else {
        Finally(call);
      }
    }

    /** The operation returned or threw; its lease is still to be released. */
    method Settled(call: nat)
      requires Invariant(State()) && call < |calls| && calls[call].stage.Running?
      modifies this`calls
      ensures State() == SetStage(old(State()), call, Closing) && Invariant(State())
    {
      hide Invariant;
      SettleKeeps(State(), call);
      calls := calls[call := calls[call].(stage := Closing)];
    }

    /** From the coordinator's answer to the release of the lease to the end of the call. */
    method Closed(call: nat)
      requires Invariant(State()) && call < |calls| && calls[call].stage.Closing?
      modifies this
      ensures State() == DoClose(old(State()), call, old(calls)[call].event) && Invariant(State())
      ensures calls[call].stage.Ended? && CurrentOperation(State(), calls[call].event) == None
      ensures calls[call].event in tails <==>
              exists n :: 0 <= n < |calls| && calls[n].event == calls[call].event && !calls[n].stage.Ended?
    {
      hide Invariant;
      CloseKeeps(State(), call);
      activeOperations := activeOperations - {calls[call].event};
      Finally(call);
      TailMeans(State(), calls[call].event);
    }

    method Finally(call: nat)
      requires call < |calls|
      modifies this`calls, this`tails
      ensures State() == Leave(old(State()), call, old(calls)[call].event)
    {
      var event := calls[call].event;
      calls := calls[call := calls[call].(stage := Ended)];
      if event in tails && tails[event] == call {
        tails := tails - {event};
      }
    }

    /** `currentOperationId`: the id of the one call whose operation or closing is under way. */
    method CurrentOperationId(event: EventId) returns (r: Option<nat>)
      requires Invariant(State())
      ensures r == CurrentOperation(State(), event)
      ensures forall n: nat :: r == Some(n) <==> n < |calls| && calls[n].event == event && IsActive(calls[n].stage)
    {
      hide Chained, TailOk;
      r := if event in activeOperations then Some(activeOperations[event]) else None;
    }
  }
}
